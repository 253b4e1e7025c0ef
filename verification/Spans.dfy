/** Overlap removal on the analyzer's scored spans. */
module Spans {
  import opened Intervals

  datatype Span = Span(entity: string, start: nat, end: nat, score: real)

  /** A non-empty span of a text of length `n`. */
  predicate Within(n: nat, s: Span) {
    s.start < s.end <= n
  }

  predicate Inside(i: nat, s: Span) {
    s.start <= i < s.end
  }

  function Positions(s: Span): set<nat> {
    set i: nat | 0 <= i < s.end && Inside(i, s)
  }

  predicate SpansOverlap(a: Span, b: Span) {
    Overlaps(a.start, a.end, b.start, b.end)
  }

  lemma {:induction false} OverlapIsSharedPosition(a: Span, b: Span)
    requires a.start < a.end && b.start < b.end
    ensures SpansOverlap(a, b) <==> Positions(a) * Positions(b) != {}
  {
    if SpansOverlap(a, b) {
      var i := if a.start < b.start then b.start else a.start;
      assert i in Positions(a) * Positions(b);
    }
  }

  // ------------------------------------------------------------------- sorting

  /** `sorted(..., key=key, reverse=True)`: descending, equal keys in input order. */
  function SortDesc(s: seq<Span>, key: Span -> real): seq<Span> {
    if s == [] then [] else Insert(s[0], SortDesc(s[1..], key), key)
  }

  function Insert(x: Span, s: seq<Span>, key: Span -> real): seq<Span> {
    if s == [] || key(s[0]) <= key(x) then [x] + s
    else [s[0]] + Insert(x, s[1..], key)
  }

  ghost predicate Descending(s: seq<Span>, key: Span -> real) {
    forall i, j :: 0 <= i < j < |s| ==> key(s[i]) >= key(s[j])
  }

  function WithKey(s: seq<Span>, key: Span -> real, k: real): seq<Span> {
    if s == [] then []
    else if key(s[0]) == k then [s[0]] + WithKey(s[1..], key, k)
    else WithKey(s[1..], key, k)
  }

  lemma {:induction false} InsertMembers(x: Span, s: seq<Span>, key: Span -> real)
    ensures multiset(Insert(x, s, key)) == multiset(s) + multiset{x}
    ensures forall y :: y in Insert(x, s, key) <==> y == x || y in s
    decreases |s|
  {
    if s == [] || key(s[0]) <= key(x) {
    } else {
      InsertMembers(x, s[1..], key);
      assert s == [s[0]] + s[1..];
    }
  }

  lemma {:induction false} InsertDescends(x: Span, s: seq<Span>, key: Span -> real)
    requires Descending(s, key)
    ensures Descending(Insert(x, s, key), key)
    decreases |s|
  {
    if s == [] || key(s[0]) <= key(x) {
    } else {
      var r := Insert(x, s[1..], key);
      InsertDescends(x, s[1..], key);
      InsertMembers(x, s[1..], key);
      forall i | 0 <= i < |r|
        ensures key(s[0]) >= key(r[i])
      {
        assert r[i] in r;
        if r[i] != x {
          var j :| 0 <= j < |s[1..]| && s[1..][j] == r[i];
          assert s[j + 1] == r[i];
        }
      }
    }
  }

  lemma {:induction false} InsertStable(x: Span, s: seq<Span>, key: Span -> real, k: real)
    ensures WithKey(Insert(x, s, key), key, k) == WithKey([x] + s, key, k)
    decreases |s|
  {
    assert ([x] + s)[1..] == s;
    if s == [] || key(s[0]) <= key(x) {
    } else {
      InsertStable(x, s[1..], key, k);
      assert ([x] + s[1..])[1..] == s[1..];
      assert Insert(x, s, key)[1..] == Insert(x, s[1..], key);
    }
  }

  /** The sort is a stable descending permutation. */
  lemma {:induction false} SortDescSorts(s: seq<Span>, key: Span -> real, k: real)
    ensures Descending(SortDesc(s, key), key)
    ensures multiset(SortDesc(s, key)) == multiset(s)
    ensures WithKey(SortDesc(s, key), key, k) == WithKey(s, key, k)
    decreases |s|
  {
    if s != [] {
      SortDescSorts(s[1..], key, k);
      InsertMembers(s[0], SortDesc(s[1..], key), key);
      InsertDescends(s[0], SortDesc(s[1..], key), key);
      InsertStable(s[0], SortDesc(s[1..], key), key, k);
      assert s == [s[0]] + s[1..];
      assert ([s[0]] + SortDesc(s[1..], key))[1..] == SortDesc(s[1..], key);
    }
  }

  lemma {:induction false} SortDescMembers(s: seq<Span>, key: Span -> real)
    ensures forall x :: x in SortDesc(s, key) <==> x in s
  {
    SortDescSorts(s, key, 0.0);
    assert forall x :: x in SortDesc(s, key) <==> x in multiset(SortDesc(s, key));
  }

  const SCORE: Span -> real := (s: Span) => s.score
  const START: Span -> real := (s: Span) => s.start as real

  // --------------------------------------------------------------------- dedup

  function Covered(kept: seq<Span>): set<nat> {
    set i, k | 0 <= k < |kept| && i in Positions(kept[k]) :: i
  }

  /** Best score first, keep a span when it shares no position with a kept one. */
  function Greedy(rs: seq<Span>): seq<Span> {
    if rs == [] then []
    else
      var g, r := Greedy(rs[..|rs| - 1]), rs[|rs| - 1];
      if Positions(r) * Covered(g) == {} then g + [r] else g
  }

  function Dedup(results: seq<Span>): seq<Span> {
    SortDesc(Greedy(SortDesc(results, SCORE)), START)
  }

  method AnalyzeSpans(results: seq<Span>) returns (spans: seq<Span>)
    ensures spans == Dedup(results)
  {
    var byScore := SortDesc(results, SCORE);
    var deduped: seq<Span> := [];
    var covered: set<nat> := {};
    for i := 0 to |byScore|
      invariant deduped == Greedy(byScore[..i])
      invariant covered == Covered(deduped)
    {
      var r := byScore[i];
      assert byScore[..i + 1][..i] == byScore[..i];
      var span := Positions(r);
      if span * covered == {} {
        CoveredAppend(deduped, r);
        deduped := deduped + [r];
        covered := covered + span;
      }
    }
    assert byScore[..|byScore|] == byScore;
    spans := SortDesc(deduped, START);
  }

  lemma {:induction false} CoveredAppend(kept: seq<Span>, r: Span)
    ensures Covered(kept + [r]) == Covered(kept) + Positions(r)
  {
    var all := kept + [r];
    assert forall k :: 0 <= k < |kept| ==> all[k] == kept[k];
    assert all[|kept|] == r;
  }

  ghost predicate PairwiseDisjoint(s: seq<Span>) {
    forall i, j :: 0 <= i < j < |s| ==> !SpansOverlap(s[i], s[j])
  }

  lemma {:induction false} GreedyPicks(rs: seq<Span>)
    ensures forall r :: r in Greedy(rs) ==> r in rs
    decreases |rs|
  {
    if rs != [] {
      GreedyPicks(rs[..|rs| - 1]);
    }
  }

  /** The spans that survive do not overlap. */
  lemma {:induction false} GreedyDisjoint(rs: seq<Span>, n: nat)
    requires forall r :: r in rs ==> Within(n, r)
    ensures PairwiseDisjoint(Greedy(rs))
    decreases |rs|
  {
    if rs != [] {
      var init, r := rs[..|rs| - 1], rs[|rs| - 1];
      GreedyDisjoint(init, n);
      GreedyPicks(init);
      ClashIsOverlap(Greedy(init), r, n);
    }
  }

  ghost predicate Beaten(r: Span, g: seq<Span>) {
    exists k :: 0 <= k < |g| && SpansOverlap(g[k], r) && g[k].score >= r.score
  }

  /** Each span that does not survive overlaps a survivor of at least its score. */
  lemma {:induction false} GreedyBeats(rs: seq<Span>, n: nat, i: nat)
    requires forall r :: r in rs ==> Within(n, r)
    requires Descending(rs, SCORE) && i < |rs|
    ensures rs[i] in Greedy(rs) || Beaten(rs[i], Greedy(rs))
    decreases |rs|
  {
    var init, r := rs[..|rs| - 1], rs[|rs| - 1];
    var g := Greedy(init);
    GreedyPicks(init);
    if i < |init| {
      GreedyBeats(init, n, i);
      if k :| 0 <= k < |g| && SpansOverlap(g[k], rs[i]) && g[k].score >= rs[i].score {
        assert Greedy(rs)[k] == g[k];
      }
    } else {
      ClashIsOverlap(g, r, n);
      if k :| 0 <= k < |g| && SpansOverlap(g[k], r) {
        assert g[k] in g && g[k] in init;
        var m :| 0 <= m < |init| && init[m] == g[k];
        assert rs[m] == g[k] && SCORE(rs[m]) >= SCORE(rs[|rs| - 1]);
      }
    }
  }

  lemma {:induction false} ClashIsOverlap(g: seq<Span>, r: Span, n: nat)
    requires Within(n, r) && forall k :: k in g ==> Within(n, k)
    ensures Positions(r) * Covered(g) == {} <==> forall k :: 0 <= k < |g| ==> !SpansOverlap(g[k], r)
  {
    forall k | 0 <= k < |g|
      ensures SpansOverlap(g[k], r) <==> Positions(g[k]) * Positions(r) != {}
    {
      assert g[k] in g;
      OverlapIsSharedPosition(g[k], r);
    }
    if i :| i in Positions(r) * Covered(g) {
      var k :| 0 <= k < |g| && i in Positions(g[k]);
      assert i in Positions(g[k]) * Positions(r);
    }
    if k :| 0 <= k < |g| && SpansOverlap(g[k], r) {
      var i :| i in Positions(g[k]) * Positions(r);
      assert i in Positions(r) * Covered(g);
    }
  }

  lemma {:induction false} DisjointSorted(s: seq<Span>, key: Span -> real)
    requires PairwiseDisjoint(s)
    ensures PairwiseDisjoint(SortDesc(s, key))
    decreases |s|
  {
    if s != [] {
      DisjointSorted(s[1..], key);
      SortDescMembers(s[1..], key);
      DisjointInsert(s[0], SortDesc(s[1..], key), key);
    }
  }

  lemma {:induction false} DisjointInsert(x: Span, s: seq<Span>, key: Span -> real)
    requires PairwiseDisjoint(s) && forall y :: y in s ==> !SpansOverlap(x, y)
    ensures PairwiseDisjoint(Insert(x, s, key))
    ensures forall y :: y in Insert(x, s, key) ==> y == x || y in s
    decreases |s|
  {
    if s == [] || key(s[0]) <= key(x) {
    } else {
      DisjointInsert(x, s[1..], key);
      var r := Insert(x, s, key);
      assert r[1..] == Insert(x, s[1..], key);
      forall i | 1 <= i < |r|
        ensures !SpansOverlap(s[0], r[i])
      {
        assert r[i] in r[1..];
        assert s[0] in s;
      }
      assert forall i, j :: 1 <= i < j < |r| ==> r[i] == r[1..][i - 1] && r[j] == r[1..][j - 1];
    }
  }

  lemma {:induction false} DedupMembers(results: seq<Span>)
    ensures forall r :: r in Dedup(results) <==> r in Greedy(SortDesc(results, SCORE))
    ensures forall r :: r in Dedup(results) ==> r in results
  {
    SortDescMembers(results, SCORE);
    GreedyPicks(SortDesc(results, SCORE));
    SortDescMembers(Greedy(SortDesc(results, SCORE)), START);
  }

  /** Right to left, each kept span ends before the one handled before it starts. */
  lemma {:induction false} DedupRightToLeft(results: seq<Span>, n: nat)
    requires forall r :: r in results ==> Within(n, r)
    ensures forall r :: r in Dedup(results) ==> Within(n, r)
    ensures forall i, j :: 0 <= i < j < |Dedup(results)| ==> Dedup(results)[j].end <= Dedup(results)[i].start
  {
    var byScore, out := SortDesc(results, SCORE), Dedup(results);
    DedupMembers(results);
    SortDescMembers(results, SCORE);
    GreedyDisjoint(byScore, n);
    SortDescSorts(Greedy(byScore), START, 0.0);
    DisjointSorted(Greedy(byScore), START);
    forall i, j | 0 <= i < j < |out|
      ensures out[j].end <= out[i].start
    {
      assert Within(n, out[i]) && Within(n, out[j]);
      assert START(out[i]) >= START(out[j]);
      assert !SpansOverlap(out[i], out[j]);
    }
  }

  /** A span is dropped only for an overlapping kept one of at least its score. */
  lemma {:induction false} DroppedIsBeaten(results: seq<Span>, n: nat, r: Span)
    requires forall r :: r in results ==> Within(n, r)
    requires r in results && r !in Dedup(results)
    ensures Beaten(r, Dedup(results))
  {
    var byScore, out := SortDesc(results, SCORE), Dedup(results);
    SortDescSorts(results, SCORE, 0.0);
    SortDescMembers(results, SCORE);
    DedupMembers(results);
    var i :| 0 <= i < |byScore| && byScore[i] == r;
    GreedyBeats(byScore, n, i);
    var g := Greedy(byScore);
    var k :| 0 <= k < |g| && SpansOverlap(g[k], r) && g[k].score >= r.score;
    assert g[k] in g;
    var m :| 0 <= m < |out| && out[m] == g[k];
    assert SpansOverlap(out[m], r);
  }
}
