/** Shared vocabulary: utterances, phone symbols, triphones, the triphone
    index, and the coverage of a list of utterances. */
module Corpus {

  type Utterance = string
  type Symbol = string
  type Triphone = string

  /** Utterance name to the set of triphones of interest it contains. */
  type Index = map<Utterance, set<Triphone>>

  /** Every utterance of the list has an entry in the index, so that looking
      any of them up cannot fail with a missing key. */
  predicate Indexed(index: Index, utts: seq<Utterance>)
  {
    forall u :: u in utts ==> u in index
  }

  /** The triphones covered by a list of utterances, accumulated from left
      to right as each member's triphones are added. */
  function Coverage(index: Index, utts: seq<Utterance>): set<Triphone>
  {
    if |utts| == 0 then {}
    else
      var u := utts[|utts| - 1];
      Coverage(index, utts[..|utts| - 1]) + (if u in index then index[u] else {})
  }

  /** A triphone is covered exactly when some member of the list contains it. */
  lemma {:induction false} CoverageMember(index: Index, utts: seq<Utterance>, t: Triphone)
    ensures t in Coverage(index, utts) <==> exists u :: u in utts && u in index && t in index[u]
  {
    if |utts| > 0 {
      var n := |utts| - 1;
      CoverageMember(index, utts[..n], t);
      assert utts == utts[..n] + [utts[n]];
      if t in Coverage(index, utts) && t !in Coverage(index, utts[..n]) {
        assert utts[n] in utts;
      }
      if exists u :: u in utts && u in index && t in index[u] {
        var u :| u in utts && u in index && t in index[u];
        if u != utts[n] {
          assert u in utts[..n];
        }
      }
    }
  }

  /** All triphones of the index. */
  function IndexTriphones(index: Index): set<Triphone>
  {
    set u, t | u in index && t in index[u] :: t
  }

  /** The three filesets laid end to end. */
  function Flatten(fs: seq<seq<Utterance>>): seq<Utterance>
    requires |fs| == 3
  {
    fs[0] + fs[1] + fs[2]
  }

  /** Coverage of an appended list is the union of the coverages. */
  lemma CoverageAppend(index: Index, a: seq<Utterance>, b: seq<Utterance>)
    ensures Coverage(index, a + b) == Coverage(index, a) + Coverage(index, b)
  {
    forall t ensures t in Coverage(index, a + b) <==> t in Coverage(index, a) + Coverage(index, b) {
      CoverageMember(index, a + b, t);
      CoverageMember(index, a, t);
      CoverageMember(index, b, t);
    }
  }

  /** Every covered triphone is a triphone of the index. */
  lemma CoverageWithinIndex(index: Index, utts: seq<Utterance>)
    ensures Coverage(index, utts) <= IndexTriphones(index)
  {
    forall t | t in Coverage(index, utts) ensures t in IndexTriphones(index) {
      CoverageMember(index, utts, t);
    }
  }

  /** A list holding exactly the index keys covers every triphone of the index. */
  lemma CoverageOfKeys(index: Index, utts: seq<Utterance>)
    requires multiset(utts) == multiset(index.Keys)
    ensures Coverage(index, utts) == IndexTriphones(index)
  {
    forall u ensures u in utts <==> u in index {
      assert u in utts <==> u in multiset(utts);
      assert u in index <==> u in multiset(index.Keys);
    }
    forall t ensures t in Coverage(index, utts) <==> t in IndexTriphones(index) {
      CoverageMember(index, utts, t);
    }
  }

  /** Each of the three filesets covers every triphone of the index. */
  predicate FullCoverage(index: Index, fs: seq<seq<Utterance>>)
    requires |fs| == 3
  {
    && Coverage(index, fs[0]) == IndexTriphones(index)
    && Coverage(index, fs[1]) == IndexTriphones(index)
    && Coverage(index, fs[2]) == IndexTriphones(index)
  }

  lemma FullCoverageAt(index: Index, fs: seq<seq<Utterance>>, j: nat)
    requires |fs| == 3 && j < 3 && FullCoverage(index, fs)
    ensures Coverage(index, fs[j]) == IndexTriphones(index)
  {
  }

  lemma FlattenMultiset(fs: seq<seq<Utterance>>)
    requires |fs| == 3
    ensures multiset(Flatten(fs)) == multiset(fs[0]) + multiset(fs[1]) + multiset(fs[2])
    ensures |Flatten(fs)| == |fs[0]| + |fs[1]| + |fs[2]|
  {
  }

  /** Appending one indexed utterance adds its triphones. */
  lemma CoverageSnoc(index: Index, utts: seq<Utterance>, u: Utterance)
    requires u in index
    ensures Coverage(index, utts + [u]) == Coverage(index, utts) + index[u]
  {
    assert (utts + [u])[..|utts|] == utts;
  }
}
