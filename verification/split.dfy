/** The whole split of one corpus: argument checks, indexing, the initial
    split and the rebalancing, in that order. */
module Split {
  import opened Wrappers
  import opened Corpus
  import opened Triphones
  import opened InitialSplit
  import opened Adjust

  /** Why a split produced no filesets. The first two are the argument
      errors a split raises. `CoverageNotReached`: no candidate order gave
      three equally covering filesets. `RebalanceStalled`: the draws ran
      out while rebalancing, which with enough draws only happens in the
      removal loop, since it has no bound. */
  datatype SplitError = InvalidPctTrain | LimitTooLow | CoverageNotReached | RebalanceStalled

  /** The three filesets reach the training fraction's target sizes, hold
      every utterance of the corpus exactly once, and each covers exactly
      the triphones of interest. */
  predicate ValidSplit(index: Index, fs: seq<seq<Utterance>>, num: int, den: int)
    requires 0 < num < den
  {
    && |fs| == 3
    && multiset(Flatten(fs)) == multiset(index.Keys)
    && Sized(fs, TargetSizes(|index|, num, den))
    && FullCoverage(index, fs)
  }

  /** Three lists holding every key once are indexed and as long, together,
      as the index. */
  lemma PartitionOfKeys(index: Index, fs: seq<seq<Utterance>>)
    requires |fs| == 3 && multiset(Flatten(fs)) == multiset(index.Keys)
    ensures AllIndexed(index, fs)
    ensures |fs[0]| + |fs[1]| + |fs[2]| == |index|
  {
    forall u | u in Flatten(fs) ensures u in index {
      assert u in multiset(Flatten(fs));
    }
    assert |multiset(Flatten(fs))| == |multiset(index.Keys)|;
  }

  /** Lists that keep the keys of a covering partition, grow each fileset's
      coverage and reach the target sizes form a valid split. */
  lemma AdjustedIsValid(index: Index, fs: seq<seq<Utterance>>, out: seq<seq<Utterance>>, num: int, den: int)
    requires |fs| == 3 && |out| == 3 && 0 < num < den
    requires multiset(Flatten(fs)) == multiset(index.Keys) && FullCoverage(index, fs)
    requires |fs[0]| + |fs[1]| + |fs[2]| == |index|
    requires Sized(out, TargetSizes(|fs[0]| + |fs[1]| + |fs[2]|, num, den))
    requires multiset(Flatten(out)) == multiset(Flatten(fs))
    requires CoverageGrows(index, fs, out)
    ensures ValidSplit(index, out, num, den)
  {
    PartitionOfKeys(index, out);
    CoverageWithinIndex(index, out[0]);
    CoverageWithinIndex(index, out[1]);
    CoverageWithinIndex(index, out[2]);
  }

  /** Rebalancing of a covering partition of the keys. */
  function SplitPartition(index: Index, fs: seq<seq<Utterance>>, num: int, den: int, draws: seq<nat>): (r: Result<seq<seq<Utterance>>, SplitError>)
    requires |fs| == 3 && 0 < num < den
    requires multiset(Flatten(fs)) == multiset(index.Keys) && FullCoverage(index, fs)
    ensures r.Err? ==> r.error == RebalanceStalled
    ensures r.Ok? ==> ValidSplit(index, r.value, num, den)
  {
    PartitionOfKeys(index, fs);
    match AdjustFilesets(index, fs, num, den, draws)
    case None => Err(RebalanceStalled)
    case Some(out) =>
      AdjustedIsValid(index, fs, out, num, den);
      Ok(out)
  }

  /** The split once the arguments are accepted and the index is built. */
  function SplitIndexed(index: Index, num: int, den: int, orders: seq<seq<Utterance>>, draws: seq<nat>): (r: Result<seq<seq<Utterance>>, SplitError>)
    requires 0 < num < den
    requires forall k :: 0 <= k < |orders| ==> IsOrderOf(index, orders[k])
    ensures r.Err? ==> r.error == CoverageNotReached || r.error == RebalanceStalled
    ensures r == Err(CoverageNotReached) <==> BuildInitialSplit(index, orders).None?
    ensures r.Ok? ==> ValidSplit(index, r.value, num, den)
  {
    match BuildInitialSplit(index, orders)
    case None => Err(CoverageNotReached)
    case Some(fs) =>
      SplitPartition(index, fs, num, den, draws)
  }

  /** Split a corpus with training fraction `num / den` and frequency
      threshold `limit`. `orders` are the candidate visiting orders of the
      initial split, one per attempt; `draws` feeds every random pick of
      the rebalancing. */
  function SplitCorpus(num: int, den: int, limit: int, corpus: Labels,
                       orders: seq<seq<Utterance>>, draws: seq<nat>): (r: Result<seq<seq<Utterance>>, SplitError>)
    requires den > 0
    requires forall k :: 0 <= k < |orders| ==> multiset(orders[k]) == multiset(corpus.Keys)
    ensures r == Err(InvalidPctTrain) <==> !(0 < num < den)
    ensures r == Err(LimitTooLow) <==> 0 < num < den && limit < 3
    ensures r.Ok? ==> 0 < num < den && limit >= 3 && ValidSplit(BuildTriphonesIndexer(limit, corpus), r.value, num, den)
  {
    if !(0 < num < den) then Err(InvalidPctTrain)
    else if limit < 3 then Err(LimitTooLow)
    else
      var index := BuildTriphonesIndexer(limit, corpus);
      assert forall k :: 0 <= k < |orders| ==> IsOrderOf(index, orders[k]);
      SplitIndexed(index, num, den, orders, draws)
  }

  /** In a valid split of the corpus, each fileset covers exactly the
      triphones that occur in at least `limit` utterances. */
  lemma ValidSplitCoversQualifying(limit: int, corpus: Labels, fs: seq<seq<Utterance>>, num: int, den: int, j: nat, t: Triphone)
    requires 0 < num < den && j < 3
    requires ValidSplit(BuildTriphonesIndexer(limit, corpus), fs, num, den)
    ensures t in Coverage(BuildTriphonesIndexer(limit, corpus), fs[j]) <==> Qualifies(corpus, limit, t)
  {
    var index := BuildTriphonesIndexer(limit, corpus);
    FullCoverageAt(index, fs, j);
    IndexedTriphonesQualify(limit, corpus);
  }
}
