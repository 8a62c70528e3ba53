/** Ranking of scored postings (app.py:141): the scored postings are sorted
    in place by their ATS score, highest first. Python's `list.sort` is a
    stable sort; with `reverse=True` it orders by descending key and still
    keeps equal keys in their original order. `SortByScore` is a reference
    stable insertion sort with that outcome; `SortedUnique` shows that every
    stable descending sort has the same outcome, so the choice of algorithm
    does not matter. */
module Ranking {
  import opened Jobs

  /** Scores never increase along `s`. */
  predicate SortedDesc(s: seq<ScoredJob>)
  {
    forall i, j :: 0 <= i < j < |s| ==> s[i].atsScore >= s[j].atsScore
  }

  /** The postings of `s` whose score is `v`, in their order in `s`. */
  function WithScore(s: seq<ScoredJob>, v: real): seq<ScoredJob>
  {
    if s == [] then []
    else (if s[0].atsScore == v then [s[0]] else []) + WithScore(s[1..], v)
  }

  /** How many leading postings of the sorted `s` score at least as much as
      `x`: the place where `x` goes. */
  function InsertionPoint(s: seq<ScoredJob>, x: ScoredJob): (k: nat)
    ensures k <= |s|
    ensures forall i :: 0 <= i < k ==> s[i].atsScore >= x.atsScore
    ensures k < |s| ==> s[k].atsScore < x.atsScore
  {
    if s == [] || s[0].atsScore < x.atsScore then 0
    else 1 + InsertionPoint(s[1..], x)
  }

  /** Puts `x` into the sorted `s` after every posting scoring at least as
      much as `x`, and before the first one scoring less. */
  function Insert(s: seq<ScoredJob>, x: ScoredJob): (r: seq<ScoredJob>)
    requires SortedDesc(s)
    ensures SortedDesc(r)
    ensures |r| == |s| + 1
  {
    var k := InsertionPoint(s, x);
    var r := s[..k] + [x] + s[k..];
    assert forall i :: 0 <= i < |r| ==>
      r[i] == (if i < k then s[i] else if i == k then x else s[i - 1]);
    r
  }

  lemma SplicePermutes(s: seq<ScoredJob>, k: nat, x: ScoredJob)
    requires k <= |s|
    ensures multiset(s[..k] + [x] + s[k..]) == multiset(s) + multiset{x}
  {
    assert s == s[..k] + s[k..];
  }

  lemma SnocPermutes(s: seq<ScoredJob>)
    requires s != []
    ensures multiset(s) == multiset(s[..|s| - 1]) + multiset{s[|s| - 1]}
  {
    assert s == s[..|s| - 1] + [s[|s| - 1]];
  }

  /** Stable sort by descending score: each posting is inserted, in input
      order, after all earlier ones that score at least as much. */
  function SortByScore(s: seq<ScoredJob>): (r: seq<ScoredJob>)
    ensures SortedDesc(r)
    ensures |r| == |s|
  {
    if s == [] then []
    else Insert(SortByScore(s[..|s| - 1]), s[|s| - 1])
  }

  /** The ranking is a permutation of its input. */
  lemma {:induction false} SortPermutes(s: seq<ScoredJob>)
    ensures multiset(SortByScore(s)) == multiset(s)
  {
    if s != [] {
      var n := |s| - 1;
      SortPermutes(s[..n]);
      var sorted := SortByScore(s[..n]);
      SplicePermutes(sorted, InsertionPoint(sorted, s[n]), s[n]);
      SnocPermutes(s);
    }
  }

  lemma {:induction false} WithScoreAppend(a: seq<ScoredJob>, b: seq<ScoredJob>, v: real)
    ensures WithScore(a + b, v) == WithScore(a, v) + WithScore(b, v)
  {
    if a == [] {
      assert a + b == b;
    } else {
      var head := if a[0].atsScore == v then [a[0]] else [];
      assert a + b != [] && (a + b)[0] == a[0];
      assert (a + b)[1..] == a[1..] + b;
      WithScoreAppend(a[1..], b, v);
      calc {
        WithScore(a + b, v);
        head + WithScore(a[1..] + b, v);
        head + (WithScore(a[1..], v) + WithScore(b, v));
        (head + WithScore(a[1..], v)) + WithScore(b, v);
        WithScore(a, v) + WithScore(b, v);
      }
    }
  }

  lemma {:induction false} WithScoreNone(s: seq<ScoredJob>, v: real)
    requires forall i :: 0 <= i < |s| ==> s[i].atsScore < v
    ensures WithScore(s, v) == []
  {
    if s != [] {
      WithScoreNone(s[1..], v);
    }
  }

  /** Inserting `x` appends it to the postings of its own score and leaves
      the other scores' postings alone. */
  lemma SpliceWithScore(s: seq<ScoredJob>, k: nat, x: ScoredJob, v: real)
    requires k <= |s|
    requires forall i :: k <= i < |s| ==> s[i].atsScore < x.atsScore
    ensures WithScore(s[..k] + [x] + s[k..], v) ==
            WithScore(s, v) + (if x.atsScore == v then [x] else [])
  {
    var lo, hi := s[..k], s[k..];
    assert s == lo + hi;
    WithScoreAppend(lo, hi, v);
    WithScoreAppend(lo + [x], hi, v);
    WithScoreAppend(lo, [x], v);
    assert WithScore([x], v) == (if x.atsScore == v then [x] else []) + WithScore([], v);
    if x.atsScore == v {
      WithScoreNone(hi, v);
    }
  }

  lemma InsertWithScore(s: seq<ScoredJob>, x: ScoredJob, v: real)
    requires SortedDesc(s)
    ensures WithScore(Insert(s, x), v) ==
            WithScore(s, v) + (if x.atsScore == v then [x] else [])
  {
    SpliceWithScore(s, InsertionPoint(s, x), x, v);
  }

  /** Stability: for every score, the postings with that score appear in the
      output in the same order as in the input. */
  lemma {:induction false} SortStable(s: seq<ScoredJob>, v: real)
    ensures WithScore(SortByScore(s), v) == WithScore(s, v)
  {
    if s != [] {
      var n := |s| - 1;
      var init, last := s[..n], s[n];
      SortStable(init, v);
      InsertWithScore(SortByScore(init), last, v);
      assert s == init + [last];
      WithScoreAppend(init, [last], v);
      assert WithScore([last], v) == (if last.atsScore == v then [last] else []) + WithScore([], v);
    }
  }

  lemma {:induction false} WithScoreHead(s: seq<ScoredJob>)
    requires s != []
    ensures WithScore(s, s[0].atsScore) != []
  {
  }

  lemma {:induction false} WithScoreMember(s: seq<ScoredJob>, v: real, y: ScoredJob)
    requires y in WithScore(s, v)
    ensures y in s && y.atsScore == v
  {
    if s[0].atsScore != v || y != s[0] {
      WithScoreMember(s[1..], v, y);
    }
  }

  /** The first posting of a descending sequence scores highest, so two
      such sequences with the same postings per score start alike. */
  lemma SameHead(a: seq<ScoredJob>, b: seq<ScoredJob>)
    requires SortedDesc(a) && SortedDesc(b) && a != [] && b != []
    requires WithScore(a, a[0].atsScore) == WithScore(b, a[0].atsScore)
    requires WithScore(a, b[0].atsScore) == WithScore(b, b[0].atsScore)
    ensures a[0] == b[0]
  {
    var ka, kb := a[0].atsScore, b[0].atsScore;
    WithScoreHead(a);
    WithScoreHead(b);
    var ya := WithScore(b, ka)[0];
    assert ya in WithScore(b, ka);
    WithScoreMember(b, ka, ya);
    var yb := WithScore(a, kb)[0];
    assert yb in WithScore(a, kb);
    WithScoreMember(a, kb, yb);
    assert kb >= ka && ka >= kb;
  }

  lemma SameTail(a: seq<ScoredJob>, b: seq<ScoredJob>, v: real)
    requires a != [] && b != [] && a[0] == b[0]
    requires WithScore(a, v) == WithScore(b, v)
    ensures WithScore(a[1..], v) == WithScore(b[1..], v)
  {
    var head := if a[0].atsScore == v then [a[0]] else [];
    assert WithScore(a, v) == head + WithScore(a[1..], v);
    assert WithScore(b, v) == head + WithScore(b[1..], v);
    assert WithScore(a[1..], v) == WithScore(a, v)[|head|..];
    assert WithScore(b[1..], v) == WithScore(b, v)[|head|..];
  }

  lemma NotEmptyDiffers(a: seq<ScoredJob>)
    requires a != []
    ensures WithScore(a, a[0].atsScore) != WithScore([], a[0].atsScore)
  {
    WithScoreHead(a);
  }

  /** Sequences with the same postings per score are empty together. */
  lemma EmptyTogether(a: seq<ScoredJob>, b: seq<ScoredJob>)
    requires forall v :: WithScore(a, v) == WithScore(b, v)
    ensures a == [] <==> b == []
  {
    if a != [] {
      NotEmptyDiffers(a);
      assert WithScore(a, a[0].atsScore) == WithScore(b, a[0].atsScore);
    }
    if b != [] {
      NotEmptyDiffers(b);
      assert WithScore(a, b[0].atsScore) == WithScore(b, b[0].atsScore);
    }
  }

  /** Two descending sequences that agree, score by score, on which postings
      they hold and in which order are the same sequence. */
  lemma {:induction false} SortedUnique(a: seq<ScoredJob>, b: seq<ScoredJob>)
    requires SortedDesc(a) && SortedDesc(b)
    requires forall v :: WithScore(a, v) == WithScore(b, v)
    ensures a == b
  {
    EmptyTogether(a, b);
    if a != [] {
      SameHead(a, b);
      forall v ensures WithScore(a[1..], v) == WithScore(b[1..], v) {
        SameTail(a, b, v);
      }
      SortedUnique(a[1..], b[1..]);
      assert a == [a[0]] + a[1..] && b == [b[0]] + b[1..];
    }
  }

  /** Every stable descending sort of `s` returns exactly `SortByScore(s)`. */
  lemma SortByScoreIsTheStableSort(s: seq<ScoredJob>, r: seq<ScoredJob>)
    requires SortedDesc(r)
    requires forall v :: WithScore(r, v) == WithScore(s, v)
    ensures r == SortByScore(s)
  {
    forall v ensures WithScore(r, v) == WithScore(SortByScore(s), v) {
      SortStable(s, v);
    }
    SortedUnique(r, SortByScore(s));
  }
}
