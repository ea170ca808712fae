/** The initial split: one greedy pass that gives each utterance, in a given
    order, to the fileset that gains the most not-yet-covered triphones,
    retried with a fresh order until the three filesets cover the same
    triphones. */
module InitialSplit {
  import opened Wrappers
  import opened Corpus

  /** A fileset under construction: its utterances in order of assignment
      and the set of triphones they cover. */
  datatype Fileset = Fileset(utts: seq<Utterance>, phones: set<Triphone>)

  /** The train, validation and test filesets before any assignment. */
  function Empty(): seq<Fileset>
  {
    [Fileset([], {}), Fileset([], {}), Fileset([], {})]
  }

  /** The three filesets' utterance lists. */
  function Lists(fs: seq<Fileset>): (r: seq<seq<Utterance>>)
    requires |fs| == 3
    ensures |r| == 3 && r[0] == fs[0].utts && r[1] == fs[1].utts && r[2] == fs[2].utts
  {
    [fs[0].utts, fs[1].utts, fs[2].utts]
  }

  /** All utterances of the three filesets. */
  function Members(fs: seq<Fileset>): seq<Utterance>
    requires |fs| == 3
  {
    fs[0].utts + fs[1].utts + fs[2].utts
  }

  /** Each fileset's triphone set is the coverage of its utterances. */
  predicate Tracks(index: Index, fs: seq<Fileset>)
  {
    && |fs| == 3
    && fs[0].phones == Coverage(index, fs[0].utts)
    && fs[1].phones == Coverage(index, fs[1].utts)
    && fs[2].phones == Coverage(index, fs[2].utts)
  }

  /** Number of the utterance's triphones a fileset does not cover yet. */
  function Gain(index: Index, u: Utterance, phones: set<Triphone>): (g: nat)
    requires u in index
    ensures g <= |index[u]|
    ensures g == 0 <==> index[u] <= phones
  {
    var missing := index[u] - phones;
    assert missing <= index[u];
    assert missing == {} <==> index[u] <= phones by {
      if !(index[u] <= phones) {
        var t :| t in index[u] && t !in phones;
        assert t in missing;
      }
    }
    |missing|
  }

  /** The gains of the three filesets for one utterance. */
  function Gains(index: Index, fs: seq<Fileset>, u: Utterance): seq<int>
    requires |fs| == 3 && u in index
  {
    [Gain(index, u, fs[0].phones), Gain(index, u, fs[1].phones), Gain(index, u, fs[2].phones)]
  }

  /** Position of the first maximal entry, as numpy's `argmax` picks it. */
  function Argmax(gains: seq<int>): (k: nat)
    requires |gains| > 0
    ensures k < |gains|
    ensures forall j :: 0 <= j < |gains| ==> gains[j] <= gains[k]
    ensures forall j :: 0 <= j < k ==> gains[j] < gains[k]
  {
    if |gains| == 1 then 0
    else
      var k := Argmax(gains[..|gains| - 1]);
      if gains[|gains| - 1] > gains[k] then |gains| - 1 else k
  }

  /** The fileset an utterance goes to: the lowest-numbered one among those
      of maximal gain. */
  function Chosen(index: Index, fs: seq<Fileset>, u: Utterance): (c: nat)
    requires |fs| == 3 && u in index
    ensures c < 3
    ensures && Gain(index, u, fs[0].phones) <= Gain(index, u, fs[c].phones)
            && Gain(index, u, fs[1].phones) <= Gain(index, u, fs[c].phones)
            && Gain(index, u, fs[2].phones) <= Gain(index, u, fs[c].phones)
    ensures && (c > 0 ==> Gain(index, u, fs[0].phones) < Gain(index, u, fs[c].phones))
            && (c > 1 ==> Gain(index, u, fs[1].phones) < Gain(index, u, fs[c].phones))
  {
    var gains := Gains(index, fs, u);
    var c := Argmax(gains);
    assert forall j :: 0 <= j < 3 ==> gains[j] == Gain(index, u, fs[j].phones);
    c
  }

  /** Hand one utterance to its chosen fileset: append it there and add its
      triphones to that fileset's set; the other two are untouched. */
  function Assign(index: Index, fs: seq<Fileset>, u: Utterance): (r: seq<Fileset>)
    requires |fs| == 3 && u in index
    ensures |r| == 3
    ensures r[Chosen(index, fs, u)].utts == fs[Chosen(index, fs, u)].utts + [u]
    ensures r[Chosen(index, fs, u)].phones == fs[Chosen(index, fs, u)].phones + index[u]
    ensures && (Chosen(index, fs, u) != 0 ==> r[0] == fs[0])
            && (Chosen(index, fs, u) != 1 ==> r[1] == fs[1])
            && (Chosen(index, fs, u) != 2 ==> r[2] == fs[2])
  {
    var c := Chosen(index, fs, u);
    fs[c := Fileset(fs[c].utts + [u], fs[c].phones + index[u])]
  }

  lemma EmptyTracks(index: Index)
    ensures Tracks(index, Empty())
  {
    assert Coverage(index, []) == {};
  }

  /** Assigning an utterance keeps every fileset's triphone set equal to the
      coverage of its utterances. */
  lemma AssignTracks(index: Index, fs: seq<Fileset>, u: Utterance)
    requires Tracks(index, fs) && u in index
    ensures Tracks(index, Assign(index, fs, u))
  {
    var r := Assign(index, fs, u);
    var c := Chosen(index, fs, u);
    CoverageSnoc(index, fs[c].utts, u);
    if c == 0 {
      assert r[1] == fs[1] && r[2] == fs[2];
    } else if c == 1 {
      assert r[0] == fs[0] && r[2] == fs[2];
    } else {
      assert r[0] == fs[0] && r[1] == fs[1];
    }
  }

  /** Assigning an utterance adds exactly that utterance to the members. */
  lemma AssignMembers(index: Index, fs: seq<Fileset>, u: Utterance)
    requires |fs| == 3 && u in index
    ensures multiset(Members(Assign(index, fs, u))) == multiset(Members(fs)) + multiset{u}
  {
    var r := Assign(index, fs, u);
    var c := Chosen(index, fs, u);
    MembersMultiset(fs);
    MembersMultiset(r);
    assert multiset(r[c].utts) == multiset(fs[c].utts) + multiset{u};
    if c == 0 {
      assert r[1] == fs[1] && r[2] == fs[2];
    } else if c == 1 {
      assert r[0] == fs[0] && r[2] == fs[2];
    } else {
      assert r[0] == fs[0] && r[1] == fs[1];
    }
  }

  lemma MembersMultiset(fs: seq<Fileset>)
    requires |fs| == 3
    ensures multiset(Members(fs)) == multiset(fs[0].utts) + multiset(fs[1].utts) + multiset(fs[2].utts)
  {
  }

  /** The greedy pass over `order`, from left to right. */
  function Pass(index: Index, order: seq<Utterance>): (r: seq<Fileset>)
    requires Indexed(index, order)
    ensures |r| == 3
    ensures |r[0].utts| + |r[1].utts| + |r[2].utts| == |order|
  {
    if |order| == 0 then
      Empty()
    else
      var n := |order| - 1;
      Assign(index, Pass(index, order[..n]), order[n])
  }

  lemma MultisetOfSnoc<T>(s: seq<T>)
    requires |s| > 0
    ensures multiset(s) == multiset(s[..|s| - 1]) + multiset{s[|s| - 1]}
  {
    assert s == s[..|s| - 1] + [s[|s| - 1]];
  }

  /** The pass places every utterance of the order exactly once. */
  lemma {:induction false} PassMembers(index: Index, order: seq<Utterance>)
    requires Indexed(index, order)
    ensures multiset(Members(Pass(index, order))) == multiset(order)
  {
    if |order| > 0 {
      var n := |order| - 1;
      var prev := Pass(index, order[..n]);
      PassMembers(index, order[..n]);
      AssignMembers(index, prev, order[n]);
      assert Pass(index, order) == Assign(index, prev, order[n]);
      MultisetOfSnoc(order);
    }
  }

  lemma {:induction false} PassTracks(index: Index, order: seq<Utterance>)
    requires Indexed(index, order)
    ensures Tracks(index, Pass(index, order))
  {
    if |order| == 0 {
      EmptyTracks(index);
    } else {
      var n := |order| - 1;
      PassTracks(index, order[..n]);
      AssignTracks(index, Pass(index, order[..n]), order[n]);
    }
  }

  /** The three filesets cover the same triphones. */
  predicate AllCovered(fs: seq<Fileset>)
  {
    |fs| == 3 && fs[0].phones == fs[1].phones && fs[1].phones == fs[2].phones
  }

  /** `order` lists every key of the index exactly once. */
  predicate IsOrderOf(index: Index, order: seq<Utterance>)
  {
    multiset(order) == multiset(index.Keys)
  }

  lemma OrderIsIndexed(index: Index, order: seq<Utterance>)
    requires IsOrderOf(index, order)
    ensures Indexed(index, order)
  {
    forall u | u in order ensures u in index {
      assert u in multiset(order);
    }
  }

  /** Three filesets that hold every key of the index once, and cover the
      same triphones, each cover every triphone of the index. */
  lemma EqualCoverageIsFull(index: Index, fs: seq<Fileset>)
    requires Tracks(index, fs)
    requires multiset(Members(fs)) == multiset(index.Keys)
    requires AllCovered(fs)
    ensures FullCoverage(index, Lists(fs))
  {
    var x := fs[0].phones;
    assert Coverage(index, fs[0].utts) == x && Coverage(index, fs[1].utts) == x && Coverage(index, fs[2].utts) == x;
    CoverageOfKeys(index, Members(fs));
    CoverageAppend(index, fs[0].utts + fs[1].utts, fs[2].utts);
    CoverageAppend(index, fs[0].utts, fs[1].utts);
    assert Coverage(index, Members(fs)) == x;
    assert x == IndexTriphones(index);
  }

  /** The pass over `order` ends with the three filesets covering the same triphones. */
  predicate Accepted(index: Index, order: seq<Utterance>)
  {
    Indexed(index, order) && AllCovered(Pass(index, order))
  }

  /** Position of the first pass whose three filesets cover the same
      triphones; `None` when there is none. */
  function FirstCovering(passes: seq<seq<Fileset>>): (k: Option<nat>)
    ensures k.Some? ==> k.value < |passes| && AllCovered(passes[k.value])
  {
    if |passes| == 0 then None
    else if AllCovered(passes[0]) then Some(0)
    else
      match FirstCovering(passes[1..])
      case None => None
      case Some(j) =>
        assert passes[1..][j] == passes[j + 1];
        Some(j + 1)
  }

  /** No position is found exactly when no pass covers, and the position
      found is the first covering one. */
  lemma {:induction false} FirstCoveringIsFirst(passes: seq<seq<Fileset>>)
    ensures FirstCovering(passes).None? <==> forall k :: 0 <= k < |passes| ==> !AllCovered(passes[k])
    ensures FirstCovering(passes).Some? ==> forall j :: 0 <= j < FirstCovering(passes).value ==> !AllCovered(passes[j])
  {
    if |passes| > 0 && !AllCovered(passes[0]) {
      var rest := passes[1..];
      FirstCoveringIsFirst(rest);
      forall k | 0 < k < |passes| ensures passes[k] == rest[k - 1] {
      }
    }
  }

  /** A covering pass preceded by none is the one found. */
  lemma FirstCoveringAt(passes: seq<seq<Fileset>>, k: nat)
    requires k < |passes| && AllCovered(passes[k])
    requires forall j :: 0 <= j < k ==> !AllCovered(passes[j])
    ensures FirstCovering(passes) == Some(k)
  {
    FirstCoveringIsFirst(passes);
  }

  /** The passes over the candidate orders, in the same order. */
  function Passes(index: Index, orders: seq<seq<Utterance>>): (r: seq<seq<Fileset>>)
    requires forall k :: 0 <= k < |orders| ==> IsOrderOf(index, orders[k])
    ensures |r| == |orders|
  {
    if |orders| == 0 then []
    else
      OrderIsIndexed(index, orders[0]);
      [Pass(index, orders[0])] + Passes(index, orders[1..])
  }

  lemma {:induction false} PassesAt(index: Index, orders: seq<seq<Utterance>>, k: nat)
    requires forall k :: 0 <= k < |orders| ==> IsOrderOf(index, orders[k])
    requires k < |orders|
    ensures Indexed(index, orders[k]) && Passes(index, orders)[k] == Pass(index, orders[k])
  {
    OrderIsIndexed(index, orders[k]);
    if k > 0 {
      var rest := orders[1..];
      assert rest[k - 1] == orders[k];
      PassesAt(index, rest, k - 1);
    }
  }

  /** One attempt per candidate order; the first accepted pass wins. `None`
      when every given order fails. Every attempt is a pure function of its
      order, so trying them all and keeping the first accepted one gives
      what stopping at that one gives. */
  function BuildInitialSplit(index: Index, orders: seq<seq<Utterance>>): (r: Option<seq<seq<Utterance>>>)
    requires forall k :: 0 <= k < |orders| ==> IsOrderOf(index, orders[k])
    ensures r.Some? ==> |r.value| == 3 && multiset(Flatten(r.value)) == multiset(index.Keys)
    ensures r.Some? ==> |r.value| == 3 && FullCoverage(index, r.value)
  {
    match FirstCovering(Passes(index, orders))
    case None => None
    case Some(k) =>
      PassesAt(index, orders, k);
      var fs := Pass(index, orders[k]);
      PassTracks(index, orders[k]);
      PassMembers(index, orders[k]);
      EqualCoverageIsFull(index, fs);
      FlattenLists(fs);
      Some(Lists(fs))
  }

  lemma FlattenLists(fs: seq<Fileset>)
    requires |fs| == 3
    ensures Flatten(Lists(fs)) == Members(fs)
  {
  }

  /** A pass is accepted exactly when the attempt at its position covers. */
  lemma AcceptedIsCovering(index: Index, orders: seq<seq<Utterance>>, k: nat)
    requires forall k :: 0 <= k < |orders| ==> IsOrderOf(index, orders[k])
    requires k < |orders|
    ensures Accepted(index, orders[k]) <==> AllCovered(Passes(index, orders)[k])
  {
    PassesAt(index, orders, k);
  }

  /** The initial split fails exactly when no order is accepted. */
  lemma InitialSplitFails(index: Index, orders: seq<seq<Utterance>>)
    requires forall k :: 0 <= k < |orders| ==> IsOrderOf(index, orders[k])
    ensures BuildInitialSplit(index, orders).None? <==> forall k :: 0 <= k < |orders| ==> !Accepted(index, orders[k])
  {
    var passes := Passes(index, orders);
    FirstCoveringIsFirst(passes);
    forall k | 0 <= k < |orders| ensures Accepted(index, orders[k]) <==> AllCovered(passes[k]) {
      AcceptedIsCovering(index, orders, k);
    }
  }

  /** When order `k` is the first accepted one, the initial split is its pass. */
  lemma FirstAcceptedWins(index: Index, orders: seq<seq<Utterance>>, k: nat)
    requires forall k :: 0 <= k < |orders| ==> IsOrderOf(index, orders[k])
    requires k < |orders| && Accepted(index, orders[k])
    requires forall j :: 0 <= j < k ==> !Accepted(index, orders[j])
    ensures BuildInitialSplit(index, orders) == Some(Lists(Pass(index, orders[k])))
  {
    var passes := Passes(index, orders);
    FirstCoveringIsFirst(passes);
    forall j | 0 <= j <= k ensures Accepted(index, orders[j]) <==> AllCovered(passes[j]) {
      AcceptedIsCovering(index, orders, j);
    }
    FirstCoveringAt(passes, k);
  }

  /** With no triphone of interest, the first attempt is always accepted. */
  lemma NoTriphoneAcceptsFirstOrder(index: Index, orders: seq<seq<Utterance>>)
    requires forall k :: 0 <= k < |orders| ==> IsOrderOf(index, orders[k])
    requires |orders| > 0 && IndexTriphones(index) == {}
    ensures Indexed(index, orders[0]) && BuildInitialSplit(index, orders) == Some(Lists(Pass(index, orders[0])))
  {
    OrderIsIndexed(index, orders[0]);
    var fs := Pass(index, orders[0]);
    PassTracks(index, orders[0]);
    CoverageWithinIndex(index, fs[0].utts);
    CoverageWithinIndex(index, fs[1].utts);
    CoverageWithinIndex(index, fs[2].utts);
    assert AllCovered(fs);
  }
}
