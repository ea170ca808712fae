/** The rebalancing step: target sizes from the training fraction, removal
    of coverage-neutral utterances from oversized filesets into a pool, and
    dealing of the pool into undersized filesets. */
module Adjust {
  import opened Wrappers
  import opened Corpus

  /** Target sizes for a training fraction `num / den`: the training set
      gets the ceiling of its share, validation the floor of half the rest,
      test what remains. */
  function TargetSizes(total: nat, num: int, den: int): (n: seq<nat>)
    requires 0 < num < den
    ensures |n| == 3
    ensures n[0] + n[1] + n[2] == total
    ensures n[0] <= total
    ensures n[0] * den >= total * num && (n[0] - 1) * den < total * num
    ensures 2 * n[1] <= total - n[0] < 2 * n[1] + 2
    ensures n[1] <= n[2] <= n[1] + 1
  {
    var n0 := CeilFraction(total, num, den);
    var n1 := (total - n0) / 2;
    [n0, n1, total - n0 - n1]
  }

  /** The ceiling of `total * num / den`, which never exceeds `total` for a
      fraction strictly between zero and one. */
  function CeilFraction(total: nat, num: int, den: int): (c: nat)
    requires 0 < num < den
    ensures c <= total
    ensures c * den >= total * num && (c - 1) * den < total * num
  {
    var q := (total * num + den - 1) / den;
    var rem := (total * num + den - 1) % den;
    assert q * den + rem == total * num + den - 1;
    assert q * den >= total * num;
    assert (q - 1) * den < total * num;
    assert total * num <= total * den by {
      MulMonotone(total, num, den);
    }
    assert q <= total by {
      if q > total {
        MulMonotone(den, total, q - 1);
      }
    }
    q
  }

  lemma MulMonotone(a: nat, b: int, c: int)
    requires b <= c
    ensures a * b <= a * c
  {
  }

  /** Number of list positions whose utterance contains `t`. */
  function Carriers(index: Index, s: seq<Utterance>, t: Triphone): nat
    requires Indexed(index, s)
  {
    if |s| == 0 then 0 else (if t in index[s[0]] then 1 else 0) + Carriers(index, s[1..], t)
  }

  /** An utterance may leave a fileset when each of its triphones is carried
      by more than one position of that fileset. */
  predicate Movable(index: Index, fileset: seq<Utterance>, u: Utterance): (b: bool)
    requires Indexed(index, fileset) && u in index
    ensures u in fileset ==> (b <==> index[u] <= Coverage(index, RemoveFirst(fileset, u)))
  {
    StillCoveredIffCarried(index, fileset, u);
    forall t :: t in index[u] ==> Carriers(index, fileset, t) > 1
  }

  /** A member's triphones are all still covered once one copy of it is
      gone exactly when each of them had another carrier. */
  lemma StillCoveredIffCarried(index: Index, fileset: seq<Utterance>, u: Utterance)
    requires Indexed(index, fileset) && u in index
    ensures u in fileset ==>
              ((forall t :: t in index[u] ==> Carriers(index, fileset, t) > 1)
               <==> index[u] <= Coverage(index, RemoveFirst(fileset, u)))
  {
    if u in fileset {
      var r := RemoveFirst(fileset, u);
      forall t | t in index[u] ensures Carriers(index, fileset, t) > 1 <==> t in Coverage(index, r) {
        CarriersRemoveFirst(index, fileset, u, t);
        CarriersCoverage(index, r, t);
      }
    }
  }

  /** Delete the first occurrence of `x`, as a list's `remove` does. */
  function RemoveFirst<T(==)>(s: seq<T>, x: T): (r: seq<T>)
    requires x in s
    ensures |r| == |s| - 1
    ensures multiset(r) == multiset(s) - multiset{x}
  {
    if s[0] == x then
      assert s == [x] + s[1..];
      s[1..]
    else
      assert s == [s[0]] + s[1..];
      [s[0]] + RemoveFirst(s[1..], x)
  }

  /** The first position holding `x`. */
  function FirstIndex<T(==)>(s: seq<T>, x: T): (i: nat)
    requires x in s
    ensures i < |s| && s[i] == x && x !in s[..i]
  {
    if s[0] == x then 0
    else
      var j := FirstIndex(s[1..], x);
      assert s[..j + 1] == [s[0]] + s[1..][..j];
      j + 1
  }

  /** The position removed is the first one holding `x`; the others keep their order. */
  lemma {:induction false} RemoveFirstPosition<T>(s: seq<T>, x: T)
    requires x in s
    ensures RemoveFirst(s, x) == s[..FirstIndex(s, x)] + s[FirstIndex(s, x) + 1..]
  {
    var i := FirstIndex(s, x);
    if s[0] == x {
      assert i == 0 && RemoveFirst(s, x) == s[1..];
      assert s[..0] + s[1..] == s[1..];
    } else {
      var tail := s[1..];
      var j := FirstIndex(tail, x);
      RemoveFirstPosition(tail, x);
      assert i == j + 1;
      assert RemoveFirst(s, x) == [s[0]] + RemoveFirst(tail, x);
      DropAfterHead(s, RemoveFirst(tail, x), j);
    }
  }

  /** Dropping position `j` of the tail is dropping position `j + 1` of the whole. */
  lemma DropAfterHead<T>(s: seq<T>, r: seq<T>, j: nat)
    requires 0 < |s| && j < |s| - 1 && r == s[1..][..j] + s[1..][j + 1..]
    ensures [s[0]] + r == s[..j + 1] + s[j + 1 + 1..]
  {
    assert s[..j + 1] == [s[0]] + s[1..][..j];
    assert s[j + 2..] == s[1..][j + 1..];
  }

  lemma RemoveFirstElements(s: seq<Utterance>, x: Utterance, u: Utterance)
    requires x in s && u in RemoveFirst(s, x)
    ensures u in s
  {
    assert u in multiset(RemoveFirst(s, x));
  }

  /** Carriers are found exactly where coverage says a triphone is. */
  lemma {:induction false} CarriersCoverage(index: Index, s: seq<Utterance>, t: Triphone)
    requires Indexed(index, s)
    ensures Carriers(index, s, t) > 0 <==> t in Coverage(index, s)
  {
    CoverageMember(index, s, t);
    if |s| > 0 {
      CarriersCoverage(index, s[1..], t);
      CoverageMember(index, s[1..], t);
      assert s == [s[0]] + s[1..];
      if t in Coverage(index, s) && t !in index[s[0]] {
        var u :| u in s && u in index && t in index[u];
        assert u in s[1..];
      }
    }
  }

  /** Removing one occurrence of `x` takes one carrier from each of its triphones. */
  lemma {:induction false} CarriersRemoveFirst(index: Index, s: seq<Utterance>, x: Utterance, t: Triphone)
    requires Indexed(index, s) && x in s
    ensures Indexed(index, RemoveFirst(s, x))
    ensures Carriers(index, RemoveFirst(s, x), t) == Carriers(index, s, t) - (if t in index[x] then 1 else 0)
  {
    forall u | u in RemoveFirst(s, x) ensures u in index {
      RemoveFirstElements(s, x, u);
    }
    if s[0] != x {
      assert x in s[1..];
      CarriersRemoveFirst(index, s[1..], x, t);
      var r := RemoveFirst(s, x);
      assert r[0] == s[0] && r[1..] == RemoveFirst(s[1..], x);
    }
  }

  /** Removing a movable utterance leaves the fileset's coverage unchanged. */
  lemma MovableKeepsCoverage(index: Index, s: seq<Utterance>, x: Utterance)
    requires Indexed(index, s) && x in s && Movable(index, s, x)
    ensures Indexed(index, RemoveFirst(s, x))
    ensures Coverage(index, RemoveFirst(s, x)) == Coverage(index, s)
  {
    var r := RemoveFirst(s, x);
    forall u | u in r ensures u in index {
      RemoveFirstElements(s, x, u);
    }
    forall t ensures t in Coverage(index, r) <==> t in Coverage(index, s) {
      CarriersRemoveFirst(index, s, x, t);
      CarriersCoverage(index, s, t);
      CarriersCoverage(index, r, t);
    }
  }

  /** A fileset after removals: what is left, what was taken out (in order)
      and the draws not yet used. */
  datatype Trim = Trim(kept: seq<Utterance>, moved: seq<Utterance>, draws: seq<nat>)

  /** The removal loop for one oversized fileset: each draw picks a position
      of the current fileset; a movable pick is removed and recorded, any
      other pick is drawn again. Stops once `nMoves` utterances are out;
      `None` when the draws run out first. */
  function TrimFileset(index: Index, fileset: seq<Utterance>, nMoves: nat, moved: seq<Utterance>, draws: seq<nat>): (r: Option<Trim>)
    requires Indexed(index, fileset)
    requires |moved| <= nMoves <= |fileset| + |moved|
    decreases |draws|
    ensures r.Some? ==> |r.value.moved| == nMoves && |r.value.kept| + nMoves == |fileset| + |moved|
    ensures r.Some? ==> r.value.moved[..|moved|] == moved
    ensures r.Some? ==> multiset(r.value.kept) + multiset(r.value.moved) == multiset(fileset) + multiset(moved)
    ensures r.Some? ==> Indexed(index, r.value.kept) && Coverage(index, r.value.kept) == Coverage(index, fileset)
    ensures r.Some? ==> |r.value.draws| <= |draws|
  {
    if |moved| == nMoves then Some(Trim(fileset, moved, draws))
    else if |draws| == 0 then None
    else
      var chosen := fileset[draws[0] % |fileset|];
      if Movable(index, fileset, chosen) then
        MovableKeepsCoverage(index, fileset, chosen);
        var r := TrimFileset(index, RemoveFirst(fileset, chosen), nMoves, moved + [chosen], draws[1..]);
        assert r.Some? ==> r.value.moved[..|moved|] == (r.value.moved[..|moved| + 1])[..|moved|];
        r
      else
        TrimFileset(index, fileset, nMoves, moved, draws[1..])
  }

  /** One fileset with the pool of taken-out utterances and the draws not yet used. */
  datatype Stage = Stage(fileset: seq<Utterance>, pool: seq<Utterance>, draws: seq<nat>)

  /** The removal step for one fileset: when it is larger than its target
      it is trimmed to it and the removed utterances are appended to the
      pool; otherwise nothing changes. */
  function TrimTo(index: Index, fileset: seq<Utterance>, size: nat, pool: seq<Utterance>, draws: seq<nat>): (r: Option<Stage>)
    requires Indexed(index, fileset)
    ensures r.Some? ==> |r.value.fileset| == (if |fileset| > size then size else |fileset|)
    ensures r.Some? ==> |r.value.fileset| + |r.value.pool| == |fileset| + |pool|
    ensures r.Some? ==> multiset(r.value.fileset) + multiset(r.value.pool) == multiset(fileset) + multiset(pool)
    ensures r.Some? ==> Indexed(index, r.value.fileset) && Coverage(index, r.value.fileset) == Coverage(index, fileset)
    ensures r.Some? && |fileset| <= size ==> r.value.fileset == fileset && r.value.pool == pool
  {
    if |fileset| > size then
      var t :- TrimFileset(index, fileset, |fileset| - size, [], draws);
      assert multiset(t.kept) + multiset(t.moved) == multiset(fileset);
      assert multiset(pool + t.moved) == multiset(pool) + multiset(t.moved);
      Some(Stage(t.kept, pool + t.moved, t.draws))
    else
      Some(Stage(fileset, pool, draws))
  }

  /** Append `count` utterances drawn from the pool, each draw picking a
      position of the current pool and removing that utterance from it.
      `None` when the draws run out first, which needs fewer than `count`
      of them. */
  function Deal(fileset: seq<Utterance>, count: nat, pool: seq<Utterance>, draws: seq<nat>): (r: Option<Stage>)
    requires count <= |pool|
    decreases count
    ensures r.Some? ==> |r.value.fileset| == |fileset| + count && r.value.fileset[..|fileset|] == fileset
    ensures r.Some? ==> |r.value.pool| == |pool| - count
    ensures r.Some? ==> multiset(r.value.fileset) + multiset(r.value.pool) == multiset(fileset) + multiset(pool)
    ensures r.Some? ==> |r.value.draws| == |draws| - count
    ensures count <= |draws| ==> r.Some?
  {
    if count == 0 then Some(Stage(fileset, pool, draws))
    else if |draws| == 0 then None
    else
      var chosen := pool[draws[0] % |pool|];
      var r := Deal(fileset + [chosen], count - 1, RemoveFirst(pool, chosen), draws[1..]);
      assert r.Some? ==> r.value.fileset[..|fileset|] == r.value.fileset[..|fileset| + 1][..|fileset|];
      r
  }

  /** The dealing step for one fileset: filled up to its target from the pool. */
  function DealTo(fileset: seq<Utterance>, size: nat, pool: seq<Utterance>, draws: seq<nat>): (r: Option<Stage>)
    requires size - |fileset| <= |pool|
    ensures r.Some? ==> |r.value.fileset| == (if size > |fileset| then size else |fileset|)
    ensures r.Some? ==> r.value.fileset[..|fileset|] == fileset
    ensures r.Some? ==> |r.value.fileset| + |r.value.pool| == |fileset| + |pool|
    ensures r.Some? ==> multiset(r.value.fileset) + multiset(r.value.pool) == multiset(fileset) + multiset(pool)
    ensures r.Some? ==> |r.value.draws| == |draws| - (if size > |fileset| then size - |fileset| else 0)
    ensures (if size > |fileset| then size - |fileset| else 0) <= |draws| ==> r.Some?
  {
    Deal(fileset, if size > |fileset| then size - |fileset| else 0, pool, draws)
  }

  /** A list covers at least what its prefix covers. */
  lemma PrefixCoverage(index: Index, a: seq<Utterance>, b: seq<Utterance>)
    requires |a| <= |b| && b[..|a|] == a
    ensures Coverage(index, a) <= Coverage(index, b)
  {
    assert b == a + b[|a|..];
    CoverageAppend(index, a, b[|a|..]);
  }

  /** The three filesets, the pool and the draws not yet used, between
      the phases of the rebalancing. */
  datatype Phase = Phase(filesets: seq<seq<Utterance>>, pool: seq<Utterance>, draws: seq<nat>)

  /** Every fileset is indexed. */
  predicate AllIndexed(index: Index, fs: seq<seq<Utterance>>)
    requires |fs| == 3
  {
    Indexed(index, fs[0]) && Indexed(index, fs[1]) && Indexed(index, fs[2])
  }

  /** The three filesets have the three sizes. */
  predicate Sized(fs: seq<seq<Utterance>>, sizes: seq<nat>)
    requires |fs| == 3 && |sizes| == 3
  {
    |fs[0]| == sizes[0] && |fs[1]| == sizes[1] && |fs[2]| == sizes[2]
  }

  /** Each of the three filesets of `b` covers at least what it covers in `a`. */
  predicate CoverageGrows(index: Index, a: seq<seq<Utterance>>, b: seq<seq<Utterance>>)
    requires |a| == 3 && |b| == 3
  {
    && Coverage(index, a[0]) <= Coverage(index, b[0])
    && Coverage(index, a[1]) <= Coverage(index, b[1])
    && Coverage(index, a[2]) <= Coverage(index, b[2])
  }

  /** Each of the three filesets of `b` covers what it covers in `a`. */
  predicate SameCoverage(index: Index, a: seq<seq<Utterance>>, b: seq<seq<Utterance>>)
    requires |a| == 3 && |b| == 3
  {
    && Coverage(index, a[0]) == Coverage(index, b[0])
    && Coverage(index, a[1]) == Coverage(index, b[1])
    && Coverage(index, a[2]) == Coverage(index, b[2])
  }

  /** Each of the three filesets of `b` starts with the matching one of `a`. */
  predicate Extends(a: seq<seq<Utterance>>, b: seq<seq<Utterance>>)
    requires |a| == 3 && |b| == 3
  {
    && |a[0]| <= |b[0]| && b[0][..|a[0]|] == a[0]
    && |a[1]| <= |b[1]| && b[1][..|a[1]|] == a[1]
    && |a[2]| <= |b[2]| && b[2][..|a[2]|] == a[2]
  }

  /** Bookkeeping of three steps that each hand a pool on to the next: what
      the steps hold at the end, with the last pool, is what they held at the
      start with the first pool. */
  lemma ConservedThroughSteps<T>(x0: multiset<T>, x1: multiset<T>, x2: multiset<T>,
                                 y0: multiset<T>, y1: multiset<T>, y2: multiset<T>,
                                 p: multiset<T>, q0: multiset<T>, q1: multiset<T>, q2: multiset<T>)
    requires y0 + q0 == x0 + p && y1 + q1 == x1 + q0 && y2 + q2 == x2 + q1
    ensures y0 + y1 + y2 + q2 == x0 + x1 + x2 + p
  {
    forall x ensures (y0 + y1 + y2 + q2)[x] == (x0 + x1 + x2 + p)[x] {
      assert (y0 + q0)[x] == (x0 + p)[x] && (y1 + q1)[x] == (x1 + q0)[x] && (y2 + q2)[x] == (x2 + q1)[x];
    }
  }

  /** The removal phase: each oversized fileset in turn loses random movable
      utterances to the pool until it reaches its target. */
  function TrimPhase(index: Index, fs: seq<seq<Utterance>>, sizes: seq<nat>, draws: seq<nat>): (r: Option<Phase>)
    requires |fs| == 3 && |sizes| == 3 && AllIndexed(index, fs)
    ensures r.Some? ==> |r.value.filesets| == 3
    ensures r.Some? ==> && |r.value.filesets[0]| == (if |fs[0]| > sizes[0] then sizes[0] else |fs[0]|)
                        && |r.value.filesets[1]| == (if |fs[1]| > sizes[1] then sizes[1] else |fs[1]|)
                        && |r.value.filesets[2]| == (if |fs[2]| > sizes[2] then sizes[2] else |fs[2]|)
    ensures r.Some? ==> |Flatten(r.value.filesets)| + |r.value.pool| == |Flatten(fs)|
    ensures r.Some? ==> multiset(Flatten(r.value.filesets)) + multiset(r.value.pool) == multiset(Flatten(fs))
    ensures r.Some? ==> SameCoverage(index, fs, r.value.filesets)
  {
    var t0 :- TrimTo(index, fs[0], sizes[0], [], draws);
    var t1 :- TrimTo(index, fs[1], sizes[1], t0.pool, t0.draws);
    var t2 :- TrimTo(index, fs[2], sizes[2], t1.pool, t1.draws);
    var out := [t0.fileset, t1.fileset, t2.fileset];
    FlattenMultiset(fs);
    FlattenMultiset(out);
    ConservedThroughSteps(multiset(fs[0]), multiset(fs[1]), multiset(fs[2]),
                          multiset(t0.fileset), multiset(t1.fileset), multiset(t2.fileset),
                          multiset{}, multiset(t0.pool), multiset(t1.pool), multiset(t2.pool));
    Some(Phase(out, t2.pool, t2.draws))
  }

  /** The dealing phase: each undersized fileset in turn is filled up to its
      target with random utterances of the pool. */
  function DealPhase(fs: seq<seq<Utterance>>, sizes: seq<nat>, pool: seq<Utterance>, draws: seq<nat>): (r: Option<Phase>)
    requires |fs| == 3 && |sizes| == 3
    requires |fs[0]| <= sizes[0] && |fs[1]| <= sizes[1] && |fs[2]| <= sizes[2]
    requires |Flatten(fs)| + |pool| == sizes[0] + sizes[1] + sizes[2]
    ensures r.Some? ==> |r.value.filesets| == 3 && r.value.pool == []
    ensures r.Some? ==> Sized(r.value.filesets, sizes) && Extends(fs, r.value.filesets)
    ensures r.Some? ==> multiset(Flatten(r.value.filesets)) == multiset(Flatten(fs)) + multiset(pool)
    ensures |pool| <= |draws| ==> r.Some?
  {
    FlattenMultiset(fs);
    var d0 :- DealTo(fs[0], sizes[0], pool, draws);
    var d1 :- DealTo(fs[1], sizes[1], d0.pool, d0.draws);
    var d2 :- DealTo(fs[2], sizes[2], d1.pool, d1.draws);
    var out := [d0.fileset, d1.fileset, d2.fileset];
    FlattenMultiset(out);
    ConservedThroughSteps(multiset(fs[0]), multiset(fs[1]), multiset(fs[2]),
                          multiset(d0.fileset), multiset(d1.fileset), multiset(d2.fileset),
                          multiset(pool), multiset(d0.pool), multiset(d1.pool), multiset(d2.pool));
    Some(Phase(out, d2.pool, d2.draws))
  }

  /** Removal from each oversized fileset in turn, then dealing of the pool
      into each undersized fileset in turn, all from one stream of draws. */
  function Rebalance(index: Index, fs: seq<seq<Utterance>>, sizes: seq<nat>, draws: seq<nat>): (r: Option<Phase>)
    requires |fs| == 3 && |sizes| == 3 && AllIndexed(index, fs)
    requires |fs[0]| + |fs[1]| + |fs[2]| == sizes[0] + sizes[1] + sizes[2]
    ensures r.Some? ==> |r.value.filesets| == 3 && r.value.pool == []
    ensures r.Some? ==> Sized(r.value.filesets, sizes)
    ensures r.Some? ==> multiset(Flatten(r.value.filesets)) == multiset(Flatten(fs))
    ensures r.Some? ==> CoverageGrows(index, fs, r.value.filesets)
  {
    var t :- TrimPhase(index, fs, sizes, draws);
    var d :- DealPhase(t.filesets, sizes, t.pool, t.draws);
    ExtendsGrows(index, fs, t.filesets, d.filesets);
    Some(d)
  }

  /** Extending filesets that cover what `a` covers grows `a`'s coverage. */
  lemma ExtendsGrows(index: Index, a: seq<seq<Utterance>>, b: seq<seq<Utterance>>, c: seq<seq<Utterance>>)
    requires |a| == 3 && |b| == 3 && |c| == 3
    requires SameCoverage(index, a, b) && Extends(b, c)
    ensures CoverageGrows(index, a, c)
  {
    PrefixCoverage(index, b[0], c[0]);
    PrefixCoverage(index, b[1], c[1]);
    PrefixCoverage(index, b[2], c[2]);
  }

  /** Bring the three filesets to the sizes the training fraction `num / den`
      asks for, never losing a triphone from a fileset. `None` when the
      draws run out: dealing needs one draw per utterance dealt, while the
      removal loop has no bound and would not end without a movable pick. */
  function AdjustFilesets(index: Index, fs: seq<seq<Utterance>>, num: int, den: int, draws: seq<nat>): (r: Option<seq<seq<Utterance>>>)
    requires |fs| == 3 && 0 < num < den
    requires AllIndexed(index, fs)
    ensures r.Some? ==> |r.value| == 3
    ensures r.Some? ==> Sized(r.value, TargetSizes(|fs[0]| + |fs[1]| + |fs[2]|, num, den))
    ensures r.Some? ==> multiset(Flatten(r.value)) == multiset(Flatten(fs))
    ensures r.Some? ==> CoverageGrows(index, fs, r.value)
  {
    var b :- Rebalance(index, fs, TargetSizes(|fs[0]| + |fs[1]| + |fs[2]|, num, den), draws);
    Some(b.filesets)
  }

  /** Filesets that each cover every triphone of the index still do after
      rebalancing. */
  lemma AdjustKeepsFullCoverage(index: Index, fs: seq<seq<Utterance>>, num: int, den: int, draws: seq<nat>)
    requires |fs| == 3 && 0 < num < den && AllIndexed(index, fs)
    requires FullCoverage(index, fs)
    requires AdjustFilesets(index, fs, num, den, draws).Some?
    ensures FullCoverage(index, AdjustFilesets(index, fs, num, den, draws).value)
  {
    var out := AdjustFilesets(index, fs, num, den, draws).value;
    CoverageWithinIndex(index, out[0]);
    CoverageWithinIndex(index, out[1]);
    CoverageWithinIndex(index, out[2]);
  }

  /** Seventy percent of ten utterances: seven for training; the three left
      give one (the floor of half) for validation and two for test. */
  lemma TargetSizesSeventyPercentOfTen()
    ensures TargetSizes(10, 7, 10) == [7, 1, 2]
  {
  }
}
