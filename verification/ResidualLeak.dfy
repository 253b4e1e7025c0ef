/** Which labelled values survive into the text the evaluation replaces detections in. */
module ResidualLeak {
  import opened Text
  import opened Tokens
  import opened Detokenizer
  import opened Splicing
  import opened Evaluation
  import opened EvaluationRun

  // ------------------------------------------------------------------- the count

  lemma {:induction false} ContainsIsFactor(v: string, s: string)
    ensures Contains(v, s) <==> Factor(v, s)
  {
    if Factor(v, s) {
      var i: nat :| FactorAt(v, s, i);
      assert OccursAt(v, s, i);
    }
    if Contains(v, s) { assert FactorAt(v, s, FindFrom(s, v, 0).value); }
  }

  /** The leaks of an example are its labels whose value occurs in the text. */
  lemma {:induction false} LeaksExactly(gold: seq<Gold>, t: string)
    ensures Leaks(gold, t) == |set k | 0 <= k < |gold| && Factor(gold[k].value, t)|
    decreases |gold|
  {
    hide Contains, Factor;
    var all := set k | 0 <= k < |gold| && Factor(gold[k].value, t);
    if gold != [] {
      var n := |gold| - 1;
      LeaksExactly(gold[..n], t);
      ContainsIsFactor(gold[n].value, t);
      var before := set k | 0 <= k < n && Factor(gold[..n][k].value, t);
      assert all == if Factor(gold[n].value, t) then before + {n} else before;
    } else {
      assert all == {};
    }
  }

  /** With nothing detected, every label of the corpus leaks. */
  lemma {:induction false} NothingFoundAllLeaks(corpus: seq<Example>, detect: Detector)
    requires forall ex :: ex in corpus ==> Labelled(ex) && detect(ex.text) == []
    ensures var x := Sum(corpus, detect); x.leaked == x.values && (x.values > 0 ==> LeakRate(x) == 1.0)
    decreases |corpus|
  {
    hide TotalsOf, Labelled, LeakRate;
    FullRate(Sum(corpus, detect));
    if corpus != [] {
      var init, ex := corpus[..|corpus| - 1], corpus[|corpus| - 1];
      NothingFoundAllLeaks(init, detect);
      assert ex in corpus;
      UntouchedLeaks(ex, detect);
    }
  }

  lemma {:induction false} FullRate(x: Totals)
    ensures x.leaked == x.values > 0 ==> LeakRate(x) == 1.0
  {
  }

  lemma {:induction false} UntouchedLeaks(ex: Example, detect: Detector)
    requires Labelled(ex) && detect(ex.text) == []
    ensures TotalsOf(ex, detect).leaked == TotalsOf(ex, detect).values == |ex.entities|
  {
    hide FindFrom, Hits, Misses, UnusedAll, Matching;
    var gold := GoldOfExample(ex);
    GoldIsFirst(ex.text, ex.entities);
    AllLeak(gold, ex.text);
  }

  lemma {:induction false} AllLeak(gold: seq<Gold>, t: string)
    requires forall k :: 0 <= k < |gold| ==> Factor(gold[k].value, t)
    ensures Leaks(gold, t) == |gold|
    decreases |gold|
  {
    hide Contains, Factor;
    if gold != [] {
      AllLeak(gold[..|gold| - 1], t);
      ContainsIsFactor(gold[|gold| - 1].value, t);
    }
  }

  /** Labels resolve exactly when every value occurs, each to its first occurrence. */
  lemma {:induction false} GoldIsFirst(text: string, labels: seq<Label>)
    ensures var r := GoldSpans(text, labels);
      && (r.Some? <==> forall k :: 0 <= k < |labels| ==> Factor(labels[k].value, text))
      && (r.Some? ==> forall k :: 0 <= k < |labels| ==> IsFirst(text, labels[k], r.value[k]))
    decreases |labels|
  {
    hide Factor, IsFirst, GoldSpans;
    if labels == [] {
      NoLabels(text);
    } else {
      var init, l := labels[..|labels| - 1], labels[|labels| - 1];
      assert labels == init + [l];
      GoldIsFirst(text, init);
      GoldSnoc(text, init, l);
      assert forall k :: 0 <= k < |init| ==> labels[k] == init[k];
      if GoldSpans(text, labels).None? && Factor(l.value, text) {
        var k :| 0 <= k < |init| && !Factor(init[k].value, text);
        assert !Factor(labels[k].value, text);
      }
    }
  }

  lemma {:induction false} NoLabels(text: string)
    ensures GoldSpans(text, []) == Some([])
  {
  }

  lemma {:induction false} GoldSnoc(text: string, init: seq<Label>, l: Label)
    ensures var r, was := GoldSpans(text, init + [l]), GoldSpans(text, init);
      && (r.Some? <==> was.Some? && Factor(l.value, text))
      && (r.Some? ==> r.value[..|init|] == was.value && IsFirst(text, l, r.value[|init|]))
  {
    hide Factor, IsFirst, FindFrom;
    assert (init + [l])[..|init|] == init;
    FirstFound(text, l);
  }

  ghost predicate IsFirst(text: string, l: Label, g: Gold) {
    && g.ty == l.ty && g.value == l.value && 0 <= g.start && g.end == g.start + |l.value|
    && FactorAt(l.value, text, g.start) && forall j: nat :: j < g.start ==> !FactorAt(l.value, text, j)
  }

  lemma {:induction false} FirstFound(text: string, l: Label)
    ensures var at := FindFrom(text, l.value, 0);
      && (at.Some? <==> Factor(l.value, text))
      && (at.Some? ==> IsFirst(text, l, Gold(l.ty, at.value, at.value + |l.value|, l.value)))
  {
    ContainsIsFactor(l.value, text);
    hide FindFrom;
    var at := FindFrom(text, l.value, 0);
    if at.Some? {
      forall j: nat | j < at.value ensures !FactorAt(l.value, text, j) {
        assert !OccursAt(l.value, text, j);
      }
    }
  }

  // --------------------------------------------------- the text with spans replaced

  predicate InText(n: nat, d: Detection) {
    0 <= d.start < d.end <= n
  }

  predicate Beside(d: Detection, e: Detection) {
    d.end <= e.start || e.end <= d.start
  }

  /** Non-empty spans inside the text, no two of which share a position. */
  ghost predicate Apart(n: nat, ds: seq<Detection>) {
    && (forall d :: d in ds ==> InText(n, d))
    && forall i, j :: 0 <= i < j < |ds| ==> Beside(ds[i], ds[j])
  }

  /** Each span ends before the one listed before it starts. */
  ghost predicate RightToLeft(n: nat, ds: seq<Detection>) {
    ds == [] || (InText(n, ds[0]) && (forall e :: e in ds[1..] ==> e.end <= ds[0].start) && RightToLeft(n, ds[1..]))
  }

  lemma {:induction false} InsertKeepsOrder(n: nat, d: Detection, ds: seq<Detection>)
    requires InText(n, d) && RightToLeft(n, ds) && forall e :: e in ds ==> Beside(e, d) && InText(n, e)
    ensures RightToLeft(n, InsertDescending(d, ds))
    ensures forall e :: e in InsertDescending(d, ds) <==> e == d || e in ds
    decreases |ds|
  {
    if ds != [] {
      assert ds == [ds[0]] + ds[1..] && ds[0] in ds;
      if ds[0].start < d.start {
        assert ([d] + ds)[1..] == ds;
      } else {
        InsertKeepsOrder(n, d, ds[1..]);
        assert InsertDescending(d, ds)[1..] == InsertDescending(d, ds[1..]);
      }
    }
  }

  lemma {:induction false} SortedRightToLeft(n: nat, ds: seq<Detection>)
    requires Apart(n, ds)
    ensures RightToLeft(n, ByStartDescending(ds))
    ensures forall d :: d in ByStartDescending(ds) <==> d in ds
    decreases |ds|
  {
    hide InText, Beside, RightToLeft, InsertDescending;
    if ds != [] {
      var init, d := ds[..|ds| - 1], ds[|ds| - 1];
      assert ds == init + [d] && d in ds;
      SortedRightToLeft(n, init);
      InsertKeepsOrder(n, d, ByStartDescending(init));
    } else {
      NoneInOrder(n);
    }
  }

  lemma {:induction false} NoneInOrder(n: nat)
    ensures RightToLeft(n, [])
  {
  }

  function WithStart(ds: seq<Detection>, n: int): seq<Detection> {
    if ds == [] then []
    else if ds[0].start == n then [ds[0]] + WithStart(ds[1..], n)
    else WithStart(ds[1..], n)
  }

  ghost predicate StartsDescend(ds: seq<Detection>) {
    forall i, j :: 0 <= i < j < |ds| ==> ds[i].start >= ds[j].start
  }

  lemma {:induction false} InsertBag(d: Detection, ds: seq<Detection>)
    ensures multiset(InsertDescending(d, ds)) == multiset(ds) + multiset{d}
    decreases |ds|
  {
    if ds != [] && ds[0].start >= d.start {
      InsertBag(d, ds[1..]);
      assert ds == [ds[0]] + ds[1..];
    }
  }

  lemma {:induction false} InsertDescends(d: Detection, ds: seq<Detection>)
    requires StartsDescend(ds)
    ensures StartsDescend(InsertDescending(d, ds))
    decreases |ds|
  {
    if ds != [] && ds[0].start >= d.start {
      var rest := InsertDescending(d, ds[1..]);
      InsertDescends(d, ds[1..]);
      InsertBag(d, ds[1..]);
      forall i | 0 <= i < |rest| ensures ds[0].start >= rest[i].start {
        FirstStartsLast(d, ds, rest, i);
      }
    }
  }

  lemma {:induction false} FirstStartsLast(d: Detection, ds: seq<Detection>, rest: seq<Detection>, i: nat)
    requires ds != [] && StartsDescend(ds) && ds[0].start >= d.start
    requires i < |rest| && multiset(rest) == multiset(ds[1..]) + multiset{d}
    ensures ds[0].start >= rest[i].start
  {
    assert rest[i] in multiset(rest);
    if rest[i] != d {
      var j :| 0 <= j < |ds[1..]| && ds[1..][j] == rest[i];
      assert ds[j + 1] == rest[i];
    }
  }

  lemma {:induction false} InsertedLast(d: Detection, ds: seq<Detection>, n: int)
    requires StartsDescend(ds)
    ensures WithStart(InsertDescending(d, ds), n) == WithStart(ds, n) + (if d.start == n then [d] else [])
    decreases |ds|
  {
    if ds == [] || ds[0].start < d.start {
      assert ([d] + ds)[1..] == ds;
      NoneWithStart(ds, d.start);
    } else {
      InsertedLast(d, ds[1..], n);
      assert ([ds[0]] + InsertDescending(d, ds[1..]))[1..] == InsertDescending(d, ds[1..]);
    }
  }

  lemma {:induction false} NoneWithStart(ds: seq<Detection>, n: int)
    requires forall i :: 0 <= i < |ds| ==> ds[i].start < n
    ensures WithStart(ds, n) == []
    decreases |ds|
  {
    if ds != [] { NoneWithStart(ds[1..], n); }
  }

  lemma {:induction false} WithStartSnoc(ds: seq<Detection>, d: Detection, n: int)
    ensures WithStart(ds + [d], n) == WithStart(ds, n) + (if d.start == n then [d] else [])
    decreases |ds|
  {
    if ds == [] {
      assert ([] + [d])[1..] == [];
    } else {
      assert (ds + [d])[1..] == ds[1..] + [d];
      WithStartSnoc(ds[1..], d, n);
    }
  }

  /** The order spans are replaced in: from the right, those that start together as they
      were listed, overlapping or not. */
  lemma {:induction false} ReplacedInOrder(ds: seq<Detection>, n: int)
    ensures var r := ByStartDescending(ds);
      StartsDescend(r) && multiset(r) == multiset(ds) && WithStart(r, n) == WithStart(ds, n)
    decreases |ds|
  {
    hide InsertDescending, WithStart, StartsDescend;
    if ds != [] {
      var init, d := ds[..|ds| - 1], ds[|ds| - 1];
      assert ds == init + [d];
      ReplacedInOrder(init, n);
      InsertDescends(d, ByStartDescending(init));
      InsertBag(d, ByStartDescending(init));
      InsertedLast(d, ByStartDescending(init), n);
      WithStartSnoc(init, d, n);
    } else {
      NothingDescends();
    }
  }

  lemma {:induction false} NothingDescends()
    ensures StartsDescend([])
  {
  }

  function PieceOf(d: Detection): Piece {
    Piece(if d.start < 0 then 0 else d.start, if d.end < 0 then 0 else d.end, Tok("{{" + d.ty + "}}"))
  }

  /** The spans of a right-to-left list, left to right. */
  function Pieces(ds: seq<Detection>): (ps: seq<Piece>)
    ensures |ps| == |ds| && forall p :: p in ps <==> exists d :: d in ds && PieceOf(d) == p
  {
    if ds == [] then []
    else
      assert ds == [ds[0]] + ds[1..];
      Pieces(ds[1..]) + [PieceOf(ds[0])]
  }

  lemma {:induction false} InOrderInText(n: nat, ds: seq<Detection>)
    requires RightToLeft(n, ds)
    ensures forall d :: d in ds ==> InText(n, d)
    decreases |ds|
  {
    if ds != [] {
      InOrderInText(n, ds[1..]);
      assert ds == [ds[0]] + ds[1..];
    }
  }

  lemma {:induction false} PlacedJoin(n: nat, cursor: nat, ps: seq<Piece>, p: Piece, qs: seq<Piece>)
    requires forall q :: q in ps ==> q.end <= p.start
    requires Placed(n, cursor, ps) && cursor <= p.start < p.end && Placed(n, p.end, qs)
    ensures Placed(n, cursor, ps + ([p] + qs))
    decreases |ps|
  {
    PlacedBound(n, p.end, qs);
    if ps != [] {
      assert ps[0] in ps && (ps + ([p] + qs))[1..] == ps[1..] + ([p] + qs);
      PlacedJoin(n, ps[0].end, ps[1..], p, qs);
    } else {
      assert (ps + ([p] + qs))[1..] == qs;
    }
  }

  /** Replacing the spans one after the other is assembling them in one go. */
  lemma {:induction false} PlaceholdersAssemble(text: string, ds: seq<Detection>, done: seq<Piece>)
    requires RightToLeft(|text|, ds) && Placed(|text|, if ds == [] then 0 else ds[0].end, done)
    ensures Placed(|text|, 0, done) && Placed(|text|, 0, Pieces(ds) + done)
    ensures Placeholders(Assemble(text, 0, done), ds) == Assemble(text, 0, Pieces(ds) + done)
    decreases |ds|
  {
    hide Assemble, Placed;
    if ds == [] {
      assert Pieces(ds) + done == done;
    } else {
      var p := PieceOf(ds[0]);
      FirstReplaced(text, ds[0], done);
      LaterCursor(|text|, ds, [p] + done);
      hide PieceOf, InText, UpTo, From;
      PlaceholdersAssemble(text, ds[1..], [p] + done);
      assert Pieces(ds) + done == Pieces(ds[1..]) + ([p] + done);
    }
  }

  lemma {:induction false} FirstReplaced(text: string, d: Detection, done: seq<Piece>)
    requires InText(|text|, d) && Placed(|text|, d.end, done)
    ensures Placed(|text|, 0, done) && Placed(|text|, 0, [PieceOf(d)] + done)
    ensures var s := Assemble(text, 0, done);
      UpTo(s, d.start) + ("{{" + d.ty + "}}") + From(s, d.end) == Assemble(text, 0, [PieceOf(d)] + done)
  {
    SpliceStep(text, PieceOf(d), done);
    hide Assemble, Placed;
    var s := Assemble(text, 0, done);
    assert UpTo(s, d.start) == s[..d.start] && From(s, d.end) == s[d.end..];
  }

  lemma {:induction false} LaterCursor(n: nat, ds: seq<Detection>, ps: seq<Piece>)
    requires RightToLeft(n, ds) && ds != [] && ps != [] && ps[0] == PieceOf(ds[0]) && Placed(n, 0, ps)
    ensures RightToLeft(n, ds[1..]) && InText(n, ds[0])
    ensures Placed(n, if ds[1..] == [] then 0 else ds[1..][0].end, ps)
  {
    assert ds[1..] != [] ==> ds[1..][0] in ds[1..];
  }

  // ------------------------------------------------------------- what survives in it

  /** A character that `v` lacks separates its occurrences. */
  lemma {:induction false} FactorAcross(v: string, a: string, c: char, b: string)
    requires v != [] && c !in v
    ensures Factor(v, a + ([c] + b)) <==> Factor(v, a) || Factor(v, b)
  {
    var w := a + ([c] + b);
    if Factor(v, w) {
      var i: nat :| FactorAt(v, w, i);
      assert forall k :: 0 <= k < |v| ==> w[i + k] == v[k] && v[k] in v;
      assert w[|a|] == c;
      if i + |v| <= |a| {
        assert a[i..i + |v|] == w[i..i + |v|];
        assert FactorAt(v, a, i);
      } else {
        var j := i - |a| - 1;
        assert b[j..j + |v|] == w[i..i + |v|];
        assert FactorAt(v, b, j);
      }
    }
    FactorWithin(v, "", a, [c] + b);
    FactorWithin(v, a + [c], b, "");
    assert "" + (a + ([c] + b)) == w && (a + [c]) + (b + "") == w;
  }

  lemma {:induction false} FactorWithin(v: string, x: string, s: string, y: string)
    ensures Factor(v, s) ==> Factor(v, x + (s + y))
  {
    if i: nat :| FactorAt(v, s, i) {
      var w, j := x + (s + y), |x| + i;
      assert w[j..j + |v|] == s[i..i + |v|];
      assert FactorAt(v, w, j);
    }
  }

  lemma {:induction false} NotInEmpty(v: string)
    requires v != []
    ensures !Factor(v, "")
  {
  }

  /** A placeholder between two texts: what has no brace is in one of the three. */
  lemma {:induction false} FactorAroundPlaceholder(v: string, a: string, ty: string, b: string)
    requires v != [] && BraceFree(v)
    ensures Factor(v, a + (("{{" + ty + "}}") + b)) <==> Factor(v, a) || Factor(v, ty) || Factor(v, b)
  {
    hide Factor, BraceFree;
    assert '{' !in v && '}' !in v by { NoBraceIn(v); }
    NotInEmpty(v);
    var d := "" + (['}'] + b);
    var c := ty + (['}'] + d);
    var e := "" + (['{'] + c);
    FactorAcross(v, "", '}', b);
    FactorAcross(v, ty, '}', d);
    FactorAcross(v, "", '{', c);
    FactorAcross(v, a, '{', e);
    assert a + (("{{" + ty + "}}") + b) == a + (['{'] + e);
  }

  lemma {:induction false} NoBraceIn(v: string)
    requires BraceFree(v)
    ensures '{' !in v && '}' !in v
  {
  }

  /** `v` occurs in the text, from `cursor` on, without touching a span. */
  ghost predicate OccursBeside(v: string, text: string, cursor: nat, ps: seq<Piece>) {
    exists i: nat :: cursor <= i && FactorAt(v, text, i) && forall p :: p in ps ==> i + |v| <= p.start || p.end <= i
  }

  ghost predicate IsPlaceholder(p: Piece, ty: string) {
    p.fill == Tok("{{" + ty + "}}")
  }

  ghost predicate InSomeType(v: string, ps: seq<Piece>) {
    exists p, ty :: p in ps && IsPlaceholder(p, ty) && Factor(v, ty)
  }

  lemma {:induction false} FactorOfAssembled(v: string, text: string, cursor: nat, ps: seq<Piece>)
    requires v != [] && BraceFree(v) && Placed(|text|, cursor, ps)
    requires forall p :: p in ps ==> exists ty :: IsPlaceholder(p, ty)
    ensures Factor(v, Assemble(text, cursor, ps)) <==> OccursBeside(v, text, cursor, ps) || InSomeType(v, ps)
    decreases |ps|
  {
    hide BraceFree, Factor, OccursBeside, InSomeType, IsPlaceholder;
    PlacedBound(|text|, cursor, ps);
    if ps == [] {
      OccursBesideNothing(v, text, cursor);
    } else {
      var p, rest := ps[0], ps[1..];
      assert p in ps && ps == [p] + rest;
      var ty :| IsPlaceholder(p, ty);
      assert forall q :: q in rest ==> q in ps;
      FactorOfAssembled(v, text, p.end, rest);
      FillIs(p, ty);
      FactorAroundPlaceholder(v, text[cursor..p.start], ty, Assemble(text, p.end, rest));
      OccursBesideFirst(v, text, cursor, ps);
      InFirstType(v, ps, ty);
    }
  }

  lemma {:induction false} FillIs(p: Piece, ty: string)
    requires IsPlaceholder(p, ty)
    ensures p.fill.text == "{{" + ty + "}}"
  {
  }

  lemma {:induction false} OccursBesideNothing(v: string, text: string, cursor: nat)
    requires cursor <= |text|
    ensures OccursBeside(v, text, cursor, []) <==> Factor(v, text[cursor..])
    ensures !InSomeType(v, [])
  {
    if i: nat :| cursor <= i && FactorAt(v, text, i) { assert FactorAt(v, text[cursor..], i - cursor); }
    if i: nat :| FactorAt(v, text[cursor..], i) { assert FactorAt(v, text, cursor + i); }
  }

  lemma {:induction false} OccursBesideFirst(v: string, text: string, cursor: nat, ps: seq<Piece>)
    requires v != [] && ps != [] && Placed(|text|, cursor, ps)
    ensures OccursBeside(v, text, cursor, ps) <==>
      Factor(v, text[cursor..ps[0].start]) || OccursBeside(v, text, ps[0].end, ps[1..])
  {
    var p, rest := ps[0], ps[1..];
    assert ps == [p] + rest && p in ps;
    LaterStarts(|text|, p.end, rest);
    if i: nat :| cursor <= i && FactorAt(v, text, i) && forall q :: q in ps ==> i + |v| <= q.start || q.end <= i {
      if i + |v| <= p.start { assert FactorAt(v, text[cursor..p.start], i - cursor); }
    }
    if i: nat :| FactorAt(v, text[cursor..p.start], i) {
      assert FactorAt(v, text, cursor + i);
    }
  }

  lemma {:induction false} LaterStarts(n: nat, cursor: nat, ps: seq<Piece>)
    requires Placed(n, cursor, ps)
    ensures forall p :: p in ps ==> cursor <= p.start < p.end
    decreases |ps|
  {
    if ps != [] {
      LaterStarts(n, ps[0].end, ps[1..]);
      assert ps == [ps[0]] + ps[1..];
    }
  }

  lemma {:induction false} InFirstType(v: string, ps: seq<Piece>, ty: string)
    requires ps != [] && IsPlaceholder(ps[0], ty)
    ensures InSomeType(v, ps) <==> Factor(v, ty) || InSomeType(v, ps[1..])
  {
    hide Factor;
    assert ps == [ps[0]] + ps[1..];
    if p, t :| p in ps && IsPlaceholder(p, t) && Factor(v, t) {
      if p == ps[0] { SameType(p, ty, t); }
    }
  }

  lemma {:induction false} SameType(p: Piece, a: string, b: string)
    requires IsPlaceholder(p, a) && IsPlaceholder(p, b)
    ensures a == b
  {
    var x, y := "{{" + a + "}}", "{{" + b + "}}";
    assert x == y && x[2..|x| - 2] == a && y[2..|y| - 2] == b;
  }

  /** With detections that do not overlap, a value without braces survives exactly when it
      occurs somewhere no detection touches, or inside the name of a detected type. */
  lemma {:induction false} ValueSurvivesExactly(v: string, text: string, ds: seq<Detection>)
    requires v != [] && BraceFree(v) && Apart(|text|, ds)
    ensures Factor(v, Placeholders(text, ByStartDescending(ds))) <==>
      || (exists i: nat :: FactorAt(v, text, i) && forall d :: d in ds ==> i + |v| <= d.start || d.end <= i)
      || (exists d :: d in ds && Factor(v, d.ty))
  {
    hide BraceFree, Factor, RightToLeft, OccursBeside, InSomeType, IsPlaceholder, ByStartDescending;
    SortedRightToLeft(|text|, ds);
    var sorted := ByStartDescending(ds);
    InOrderInText(|text|, sorted);
    PlacedNone(|text|, sorted);
    PlaceholdersAssemble(text, sorted, []);
    assert text[0..] == text && Assemble(text, 0, []) == text;
    assert Pieces(sorted) + [] == Pieces(sorted);
    PiecesArePlaceholders(sorted);
    FactorOfAssembled(v, text, 0, Pieces(sorted));
    PiecesBeside(v, text, sorted);
    PiecesTypes(v, sorted);
  }

  lemma {:induction false} PlacedNone(n: nat, ds: seq<Detection>)
    requires RightToLeft(n, ds)
    ensures Placed(n, if ds == [] then 0 else ds[0].end, [])
  {
  }

  lemma {:induction false} PiecesArePlaceholders(ds: seq<Detection>)
    ensures forall p :: p in Pieces(ds) ==> exists ty :: IsPlaceholder(p, ty)
  {
    forall p | p in Pieces(ds) ensures exists ty :: IsPlaceholder(p, ty) {
      var d :| d in ds && PieceOf(d) == p;
      assert IsPlaceholder(p, d.ty);
    }
  }

  lemma {:induction false} PiecesBeside(v: string, text: string, ds: seq<Detection>)
    requires forall d :: d in ds ==> 0 <= d.start && 0 <= d.end
    ensures OccursBeside(v, text, 0, Pieces(ds)) <==>
      exists i: nat :: FactorAt(v, text, i) && forall d :: d in ds ==> i + |v| <= d.start || d.end <= i
  {
    hide FactorAt;
    assert forall d :: d in ds ==> PieceOf(d) in Pieces(ds);
    if i: nat :| FactorAt(v, text, i) && forall d :: d in ds ==> i + |v| <= d.start || d.end <= i {
      assert forall p :: p in Pieces(ds) ==> i + |v| <= p.start || p.end <= i;
    }
    if i: nat :| FactorAt(v, text, i) && forall p :: p in Pieces(ds) ==> i + |v| <= p.start || p.end <= i {
      forall d | d in ds ensures i + |v| <= d.start || d.end <= i {
        assert PieceOf(d) in Pieces(ds);
      }
    }
  }

  lemma {:induction false} PiecesTypes(v: string, ds: seq<Detection>)
    ensures InSomeType(v, Pieces(ds)) <==> exists d :: d in ds && Factor(v, d.ty)
  {
    hide Factor;
    if d :| d in ds && Factor(v, d.ty) {
      assert PieceOf(d) in Pieces(ds) && IsPlaceholder(PieceOf(d), d.ty);
    }
    if p, ty :| p in Pieces(ds) && IsPlaceholder(p, ty) && Factor(v, ty) {
      var d :| d in ds && PieceOf(d) == p;
      assert IsPlaceholder(p, d.ty);
      SameType(p, ty, d.ty);
    }
  }

  /** Every value is touched wherever it occurs, and in no detected type's name. */
  ghost predicate AllCovered(ex: Example, ds: seq<Detection>) {
    && Apart(|ex.text|, ds)
    && forall l :: l in ex.entities ==> CoveredValue(l.value, ex.text, ds)
  }

  ghost predicate CoveredValue(v: string, text: string, ds: seq<Detection>) {
    && v != [] && BraceFree(v)
    && (forall i: nat :: FactorAt(v, text, i) ==> exists d :: d in ds && d.start < i + |v| && i < d.end)
    && forall d :: d in ds ==> !Factor(v, d.ty)
  }

  /** Detections that cover every occurrence of every label: nothing in the corpus leaks. */
  lemma {:induction false} CoveredNeverLeaks(corpus: seq<Example>, detect: Detector)
    requires forall ex :: ex in corpus ==> AllCovered(ex, detect(ex.text))
    ensures Sum(corpus, detect).leaked == 0 && LeakRate(Sum(corpus, detect)) == 0.0
    decreases |corpus|
  {
    hide TotalsOf, AllCovered;
    if corpus != [] {
      var init, ex := corpus[..|corpus| - 1], corpus[|corpus| - 1];
      CoveredNeverLeaks(init, detect);
      assert ex in corpus;
      CoveredExample(ex, detect);
    }
  }

  lemma {:induction false} CoveredExample(ex: Example, detect: Detector)
    requires AllCovered(ex, detect(ex.text))
    ensures TotalsOf(ex, detect).leaked == 0
  {
    hide Factor, IsFirst, Hits, Misses, UnusedAll, Matching, Placeholders, ByStartDescending, Apart, CoveredValue, GoldSpans;
    var gold, ds := GoldOfExample(ex), detect(ex.text);
    var t := Placeholders(ex.text, ByStartDescending(ds));
    GoldIsFirst(ex.text, ex.entities);
    forall k | 0 <= k < |gold| ensures !Factor(gold[k].value, t) {
      FirstValue(ex.text, ex.entities[k], gold[k]);
      assert ex.entities[k] in ex.entities;
      CoveredGone(gold[k].value, ex.text, ds);
    }
    LeaksExactly(gold, t);
    assert (set k | 0 <= k < |gold| && Factor(gold[k].value, t)) == {};
  }

  lemma {:induction false} FirstValue(text: string, l: Label, g: Gold)
    requires IsFirst(text, l, g)
    ensures g.value == l.value
  {
  }

  lemma {:induction false} CoveredGone(v: string, text: string, ds: seq<Detection>)
    requires Apart(|text|, ds) && CoveredValue(v, text, ds)
    ensures !Factor(v, Placeholders(text, ByStartDescending(ds)))
  {
    hide Apart, Factor, FactorAt, BraceFree, Placeholders, ByStartDescending;
    ValueSurvivesExactly(v, text, ds);
  }
}
