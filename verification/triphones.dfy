/** The triphone indexer: per-utterance triphone sets, filtered down to the
    triphones that occur in at least `limit` utterances of the corpus. */
module Triphones {
  import opened Corpus

  /** A corpus: each utterance name with the symbols of its phone labels, in order. */
  type Labels = map<Utterance, seq<Symbol>>

  /** Three phone symbols joined with an underscore. */
  function Join(a: Symbol, b: Symbol, c: Symbol): Triphone
  {
    a + "_" + b + "_" + c
  }

  /** `t` is read by a window of three consecutive symbols of `s`. */
  ghost predicate InWindow(s: seq<Symbol>, t: Triphone)
  {
    exists i :: 0 <= i < |s| - 2 && t == Join(s[i], s[i + 1], s[i + 2])
  }

  /** The set of triphones of one utterance: one per window of width three,
      stride one; fewer than three symbols give none. */
  function LoadTriphones(s: seq<Symbol>): (r: set<Triphone>)
    ensures forall t :: t in r <==> InWindow(s, t)
    ensures |s| < 3 ==> r == {}
  {
    if |s| < 3 then {}
    else
      var rest := LoadTriphones(s[1..]);
      WindowsOfTail(s);
      {Join(s[0], s[1], s[2])} + rest
  }

  /** The windows of a sequence of three or more symbols: the first one and
      those of its tail. */
  lemma WindowsOfTail(s: seq<Symbol>)
    requires |s| >= 3
    ensures forall t :: InWindow(s, t) <==> t == Join(s[0], s[1], s[2]) || InWindow(s[1..], t)
  {
    WindowAt(s, 0);
    forall t ensures InWindow(s, t) <==> t == Join(s[0], s[1], s[2]) || InWindow(s[1..], t) {
      if InWindow(s, t) {
        WindowIsFirstOrInTail(s, t);
      }
      if InWindow(s[1..], t) {
        TailWindowIsWindow(s, t);
      }
    }
  }

  lemma WindowAt(s: seq<Symbol>, i: nat)
    requires i < |s| - 2
    ensures InWindow(s, Join(s[i], s[i + 1], s[i + 2]))
  {
  }

  lemma WindowIsFirstOrInTail(s: seq<Symbol>, t: Triphone)
    requires |s| >= 3 && InWindow(s, t)
    ensures t == Join(s[0], s[1], s[2]) || InWindow(s[1..], t)
  {
    var i :| 0 <= i < |s| - 2 && t == Join(s[i], s[i + 1], s[i + 2]);
    if i == 0 {
      assert t == Join(s[0], s[1], s[2]);
    } else {
      var tail := s[1..];
      assert tail[i - 1] == s[i] && tail[i] == s[i + 1] && tail[i + 1] == s[i + 2];
      WindowAt(tail, i - 1);
      assert Join(tail[i - 1], tail[i], tail[i + 1]) == t;
      assert InWindow(tail, t);
    }
  }

  lemma TailWindowIsWindow(s: seq<Symbol>, t: Triphone)
    requires |s| >= 3 && InWindow(s[1..], t)
    ensures InWindow(s, t)
  {
    var tail := s[1..];
    var i :| 0 <= i < |tail| - 2 && t == Join(tail[i], tail[i + 1], tail[i + 2]);
    assert tail[i] == s[i + 1] && tail[i + 1] == s[i + 2] && tail[i + 2] == s[i + 3];
    WindowAt(s, i + 1);
    assert Join(s[i + 1], s[i + 2], s[i + 3]) == t;
  }

  /** Each utterance's full triphone set. */
  function UtteranceTriphones(corpus: Labels): (m: map<Utterance, set<Triphone>>)
    ensures m.Keys == corpus.Keys
    ensures forall u :: u in m ==> m[u] == LoadTriphones(corpus[u])
    ensures forall u, t :: u in m ==> (t in m[u] <==> InWindow(corpus[u], t))
  {
    map u | u in corpus :: LoadTriphones(corpus[u])
  }

  /** Number of utterances whose triphone set contains `t`. */
  function Occurrences(utts: map<Utterance, set<Triphone>>, t: Triphone): nat
  {
    |set u | u in utts && t in utts[u]|
  }

  /** The triphones of interest: present somewhere and in at least `limit` utterances. */
  function Frequent(utts: map<Utterance, set<Triphone>>, limit: int): (r: set<Triphone>)
    ensures forall t :: t in r <==> Occurrences(utts, t) > 0 && Occurrences(utts, t) >= limit
  {
    var r := set u, t | u in utts && t in utts[u] && Occurrences(utts, t) >= limit :: t;
    forall t ensures t in r <==> Occurrences(utts, t) > 0 && Occurrences(utts, t) >= limit {
      var carriers := set u | u in utts && t in utts[u];
      if t in r {
        var u :| u in utts && t in utts[u];
        assert u in carriers;
      }
      if |carriers| > 0 {
        var u :| u in carriers;
        assert u in utts && t in utts[u];
      }
    }
    r
  }

  /** Number of utterances of the corpus that contain `t` in one of their windows. */
  ghost function Frequency(corpus: Labels, t: Triphone): nat
  {
    |set u | u in corpus && InWindow(corpus[u], t)|
  }

  /** `t` is a triphone of interest of the corpus for the given `limit`. */
  ghost predicate Qualifies(corpus: Labels, limit: int, t: Triphone)
  {
    (exists u :: u in corpus && InWindow(corpus[u], t)) && Frequency(corpus, t) >= limit
  }

  /** Counting utterances by their loaded triphone sets agrees with counting
      them by their windows. */
  lemma OccurrencesIsFrequency(corpus: Labels, t: Triphone)
    ensures Occurrences(UtteranceTriphones(corpus), t) == Frequency(corpus, t)
  {
    var m := UtteranceTriphones(corpus);
    assert (set u | u in m && t in m[u]) == (set u | u in corpus && InWindow(corpus[u], t));
  }

  /** The index: every utterance of the corpus, with its triphones reduced to
      those that qualify. */
  function BuildTriphonesIndexer(limit: int, corpus: Labels): (index: Index)
    ensures index.Keys == corpus.Keys
    ensures forall u, t :: u in index ==>
              (t in index[u] <==> InWindow(corpus[u], t) && Frequency(corpus, t) >= limit)
  {
    var utts := UtteranceTriphones(corpus);
    var frequent := Frequent(utts, limit);
    var index := map u | u in utts :: (set t | t in utts[u] && t in frequent);
    forall u, t | u in index
      ensures t in index[u] <==> InWindow(corpus[u], t) && Frequency(corpus, t) >= limit
    {
      OccurrencesIsFrequency(corpus, t);
    }
    index
  }

  /** Every indexed triphone occurs in at least `limit` utterances, and the
      index holds exactly the triphones of interest. */
  lemma IndexedTriphonesQualify(limit: int, corpus: Labels)
    ensures forall u, t :: u in corpus && t in BuildTriphonesIndexer(limit, corpus)[u] ==>
              Frequency(corpus, t) >= limit && t in LoadTriphones(corpus[u])
    ensures forall t :: t in IndexTriphones(BuildTriphonesIndexer(limit, corpus)) <==> Qualifies(corpus, limit, t)
  {
    var index := BuildTriphonesIndexer(limit, corpus);
    forall t ensures t in IndexTriphones(index) <==> Qualifies(corpus, limit, t) {
      if Qualifies(corpus, limit, t) {
        var u :| u in corpus && InWindow(corpus[u], t);
        assert t in index[u];
      }
    }
  }

  /** A corpus whose utterances all have fewer than three labels has no
      triphone of interest. */
  lemma ShortUtterancesGiveEmptyIndex(limit: int, corpus: Labels)
    requires forall u :: u in corpus ==> |corpus[u]| < 3
    ensures forall u :: u in corpus ==> BuildTriphonesIndexer(limit, corpus)[u] == {}
    ensures IndexTriphones(BuildTriphonesIndexer(limit, corpus)) == {}
  {
    var index := BuildTriphonesIndexer(limit, corpus);
    forall u | u in corpus ensures index[u] == {} {
      forall t ensures t !in index[u] {
        assert !InWindow(corpus[u], t);
      }
    }
  }

  /** Three symbols have exactly one window. */
  lemma SingleWindow(a: Symbol, b: Symbol, c: Symbol, t: Triphone)
    ensures InWindow([a, b, c], t) <==> t == Join(a, b, c)
  {
    if t == Join(a, b, c) {
      assert t == Join([a, b, c][0], [a, b, c][1], [a, b, c][2]);
    }
  }

  /** The worked corpus below: two utterances read `a b c`, one reads `x y z`. */
  function ThreeUtterances(): Labels
  {
    map["u1" := ["a", "b", "c"], "u2" := ["a", "b", "c"], "u3" := ["x", "y", "z"]]
  }

  lemma ThreeUtterancesWindows(t: Triphone)
    ensures InWindow(ThreeUtterances()["u1"], t) <==> t == "a_b_c"
    ensures InWindow(ThreeUtterances()["u2"], t) <==> t == "a_b_c"
    ensures InWindow(ThreeUtterances()["u3"], t) <==> t == "x_y_z"
  {
    var corpus := ThreeUtterances();
    assert Join("a", "b", "c") == "a_b_c";
    assert Join("x", "y", "z") == "x_y_z";
    assert corpus["u1"] == ["a", "b", "c"] && corpus["u2"] == ["a", "b", "c"];
    assert corpus["u3"] == ["x", "y", "z"];
    SingleWindow("a", "b", "c", t);
    SingleWindow("x", "y", "z", t);
  }

  lemma ThreeUtterancesFrequencies()
    ensures Frequency(ThreeUtterances(), "a_b_c") == 2
    ensures Frequency(ThreeUtterances(), "x_y_z") == 1
  {
    var corpus := ThreeUtterances();
    assert corpus.Keys == {"u1", "u2", "u3"};
    ThreeUtterancesWindows("a_b_c");
    ThreeUtterancesWindows("x_y_z");
    assert (set u | u in corpus && InWindow(corpus[u], "a_b_c")) == {"u1", "u2"};
    assert (set u | u in corpus && InWindow(corpus[u], "x_y_z")) == {"u3"};
  }

  lemma ThreeUtterancesIndexMembers(t: Triphone)
    ensures t in BuildTriphonesIndexer(2, ThreeUtterances())["u1"] <==> t == "a_b_c"
    ensures t in BuildTriphonesIndexer(2, ThreeUtterances())["u2"] <==> t == "a_b_c"
    ensures t !in BuildTriphonesIndexer(2, ThreeUtterances())["u3"]
  {
    var corpus := ThreeUtterances();
    var index := BuildTriphonesIndexer(2, corpus);
    ThreeUtterancesFrequencies();
    ThreeUtterancesWindows(t);
    assert "u1" in index && "u2" in index && "u3" in index;
    if t == "a_b_c" {
      assert t in index["u1"] && t in index["u2"];
    } else {
      assert !InWindow(corpus["u1"], t) && !InWindow(corpus["u2"], t);
    }
  }

  /** An index over `u1`, `u2`, `u3` with the members below is the map the
      scenario expects. */
  lemma IndexOfThree(index: Index)
    requires index.Keys == {"u1", "u2", "u3"}
    requires forall t :: (t in index["u1"] <==> t == "a_b_c") && (t in index["u2"] <==> t == "a_b_c") && t !in index["u3"]
    ensures index == map["u1" := {"a_b_c"}, "u2" := {"a_b_c"}, "u3" := {}]
  {
    assert index["u1"] == {"a_b_c"};
    assert index["u2"] == {"a_b_c"};
    assert index["u3"] == {};
  }

  /** With a limit of two, `a_b_c` (in two utterances) is kept and `x_y_z`
      (in one) is dropped. */
  lemma TwoOfThreeScenario()
    ensures BuildTriphonesIndexer(2, ThreeUtterances()) == map["u1" := {"a_b_c"}, "u2" := {"a_b_c"}, "u3" := {}]
  {
    var index := BuildTriphonesIndexer(2, ThreeUtterances());
    assert index.Keys == {"u1", "u2", "u3"};
    forall t ensures (t in index["u1"] <==> t == "a_b_c") && (t in index["u2"] <==> t == "a_b_c") && t !in index["u3"] {
      ThreeUtterancesIndexMembers(t);
    }
    IndexOfThree(index);
  }
}
