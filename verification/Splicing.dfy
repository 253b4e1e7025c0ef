/** A text with some spans replaced: left to right as one expression, and what a
    token replacement does to it. Shared by the gateway and the browser. */
module Splicing {
  import opened Text
  import opened Tokens
  import opened Detokenizer

  /** What stands in place of a span: a token still to be resolved, or plain text. */
  datatype Fill = Tok(text: string) | Val(text: string)

  datatype Piece = Piece(start: nat, end: nat, fill: Fill)

  /** Non-empty spans in order, without overlap, from `cursor` to `n`. */
  predicate Placed(n: nat, cursor: nat, ps: seq<Piece>)
    decreases |ps|
  {
    if ps == [] then cursor <= n
    else cursor <= ps[0].start < ps[0].end <= n && Placed(n, ps[0].end, ps[1..])
  }

  /** Untouched gaps and fills, left to right. */
  function Assemble(text: string, cursor: nat, ps: seq<Piece>): string
    requires Placed(|text|, cursor, ps)
    decreases |ps|
  {
    if ps == [] then text[cursor..]
    else text[cursor..ps[0].start] + (ps[0].fill.text + Assemble(text, ps[0].end, ps[1..]))
  }

  /** Text before the first span is copied, wherever one starts reading. */
  lemma {:induction false} AssembleFrom(text: string, cursor: nat, e: nat, ps: seq<Piece>)
    requires Placed(|text|, e, ps) && cursor <= e
    ensures Placed(|text|, cursor, ps)
    ensures Assemble(text, cursor, ps) == text[cursor..e] + Assemble(text, e, ps)
  {
    PlacedBound(|text|, e, ps);
    if ps == [] {
      assert text[cursor..] == text[cursor..e] + text[e..];
    } else {
      var st, tail := ps[0].start, ps[0].fill.text + Assemble(text, ps[0].end, ps[1..]);
      assert text[cursor..st] == text[cursor..e] + text[e..st];
      Regroup(text[cursor..e], text[e..st], tail);
    }
  }

  lemma {:induction false} PlacedBound(n: nat, cursor: nat, ps: seq<Piece>)
    requires Placed(n, cursor, ps)
    ensures cursor <= n
    decreases |ps|
  {
  }

  /** Splicing one more fill in, left of all earlier ones, into the text built so
      far: the step of the right-to-left loop. */
  lemma {:induction false} SpliceStep(text: string, p: Piece, ps: seq<Piece>)
    requires p.start < p.end && Placed(|text|, p.end, ps)
    ensures Placed(|text|, 0, ps) && Placed(|text|, 0, [p] + ps)
    ensures var s := Assemble(text, 0, ps);
            p.end <= |s| && s[..p.start] + p.fill.text + s[p.end..] == Assemble(text, 0, [p] + ps)
  {
    PlacedBound(|text|, p.end, ps);
    AssembleFrom(text, 0, p.end, ps);
    var s, rest := Assemble(text, 0, ps), Assemble(text, p.end, ps);
    assert s == text[..p.end] + rest;
    assert s[..p.start] == text[0..p.start] && s[p.end..] == rest;
    assert ([p] + ps)[1..] == ps;
    assert text[0..p.start] + p.fill.text + rest == text[0..p.start] + (p.fill.text + rest);
  }

  // --------------------------------------------------------------- replacement

  function ResolveFill(f: Fill, t: string, v: string): Fill {
    if f == Tok(t) then Val(v) else f
  }

  function Resolve(ps: seq<Piece>, t: string, v: string): (qs: seq<Piece>)
    ensures |qs| == |ps|
    ensures forall i :: 0 <= i < |ps| ==> qs[i] == ps[i].(fill := ResolveFill(ps[i].fill, t, v))
  {
    if ps == [] then [] else [ps[0].(fill := ResolveFill(ps[0].fill, t, v))] + Resolve(ps[1..], t, v)
  }

  predicate GoodFill(f: Fill) {
    match f
    case Tok(t) => Braced(t)
    case Val(v) => v != [] && BraceFree(v)
  }

  predicate GoodFills(ps: seq<Piece>) {
    forall p :: p in ps ==> GoodFill(p.fill)
  }

  lemma {:induction false} ResolvePlaced(n: nat, cursor: nat, ps: seq<Piece>, t: string, v: string)
    requires Placed(n, cursor, ps)
    ensures Placed(n, cursor, Resolve(ps, t, v))
    decreases |ps|
  {
    if ps != [] { ResolvePlaced(n, ps[0].end, ps[1..], t, v); }
  }

  lemma {:induction false} NoTokenInGap(gap: string, rest: string, t: string, i: nat)
    requires Braced(t) && NoDoubleBrace(gap) && i < |gap|
    requires rest != [] ==> rest[0] == '{' ==> |rest| >= 2 && rest[1] == '{'
    ensures !(t <= (gap + rest)[i..])
  {
    var s := gap + rest;
    assert t[0] == '{' && t[1] == '{' && !IsBrace(t[2]);
    if t <= s[i..] {
      assert forall q :: 0 <= q < |t| ==> s[i + q] == s[i..][q] == t[q];
    }
  }

  lemma {:induction false} ReplaceGap(gap: string, rest: string, t: string, v: string)
    requires Braced(t) && NoDoubleBrace(gap)
    requires rest != [] ==> rest[0] == '{' ==> |rest| >= 2 && rest[1] == '{'
    ensures Replace(gap + rest, t, v) == gap + Replace(rest, t, v)
  {
    forall i | 0 <= i < |gap|
      ensures !(t <= (gap + rest)[i..])
    {
      NoTokenInGap(gap, rest, t, i);
    }
    ReplaceSkips(gap + rest, t, v, |gap|);
    assert (gap + rest)[|gap|..] == rest && (gap + rest)[..|gap|] == gap;
  }

  lemma {:induction false} ReplaceFill(f: Fill, rest: string, t: string, v: string)
    requires Braced(t) && GoodFill(f)
    ensures Replace(f.text + rest, t, v) == ResolveFill(f, t, v).text + Replace(rest, t, v)
  {
    match f
    case Tok(k) =>
      if k == t { ReplaceHead(t, rest, v); } else { ReplacePastToken(k, rest, t, v); }
    case Val(w) =>
      var s := w + rest;
      forall i | 0 <= i < |w|
        ensures !(t <= s[i..])
      {
        assert s[i..][0] == w[i];
      }
      ReplaceSkips(s, t, v, |w|);
      assert s[|w|..] == rest && s[..|w|] == w;
  }

  /** Replacing a token in an assembled text resolves exactly the spans filled
      with it: none is forged by the text, by a value or across a boundary. */
  lemma {:induction false} ReplaceAssembled(text: string, cursor: nat, ps: seq<Piece>, t: string, v: string)
    requires Placed(|text|, cursor, ps) && NoDoubleBrace(text) && GoodFills(ps) && Braced(t)
    ensures Placed(|text|, cursor, Resolve(ps, t, v))
    ensures Replace(Assemble(text, cursor, ps), t, v) == Assemble(text, cursor, Resolve(ps, t, v))
    decreases |ps|
  {
    ResolvePlaced(|text|, cursor, ps, t, v);
    PlacedBound(|text|, cursor, ps);
    if ps == [] {
      var gap := text[cursor..];
      ReplaceGap(gap, [], t, v);
      assert gap + [] == gap;
    } else {
      var p, gap := ps[0], text[cursor..ps[0].start];
      assert p in ps;
      var rest := Assemble(text, p.end, ps[1..]);
      ReplaceGap(gap, p.fill.text + rest, t, v);
      ReplaceFill(p.fill, rest, t, v);
      ReplaceAssembled(text, p.end, ps[1..], t, v);
      assert Resolve(ps, t, v)[1..] == Resolve(ps[1..], t, v);
    }
  }

  // ------------------------------------------------------- the whole loop on it

  function ResolveAll(ps: seq<Piece>, items: seq<Binding>, allowed: set<string>): (qs: seq<Piece>)
    ensures |qs| == |ps|
    ensures forall i :: 0 <= i < |ps| ==> qs[i].start == ps[i].start && qs[i].end == ps[i].end
    decreases |items|
  {
    if items == [] then ps
    else if Eligible(items[0].token, allowed) then
      ResolveAll(Resolve(ps, items[0].token, items[0].value), items[1..], allowed)
    else ResolveAll(ps, items[1..], allowed)
  }

  /** The token is not among the fills, or its value cannot forge another. */
  ghost predicate PlainFor(ps: seq<Piece>, b: Binding) {
    Braced(b.token) && ((b.value != [] && BraceFree(b.value)) || forall p :: p in ps ==> p.fill != Tok(b.token))
  }

  ghost predicate PlainValues(ps: seq<Piece>, items: seq<Binding>, allowed: set<string>) {
    forall b :: b in items && Eligible(b.token, allowed) ==> PlainFor(ps, b)
  }

  /** Resolving one token leaves good fills, and no new token. */
  lemma {:induction false} ResolvedFills(ps: seq<Piece>, b: Binding)
    requires GoodFills(ps) && PlainFor(ps, b)
    ensures GoodFills(Resolve(ps, b.token, b.value))
    ensures forall c :: PlainFor(ps, c) ==> PlainFor(Resolve(ps, b.token, b.value), c)
  {
    hide Braced, BraceFree;
    var qs := Resolve(ps, b.token, b.value);
    forall q | q in qs ensures GoodFill(q.fill) && (q.fill.Tok? ==> exists p :: p in ps && p.fill == q.fill) {
      var i :| 0 <= i < |qs| && qs[i] == q;
      assert ps[i] in ps;
    }
  }

  lemma {:induction false} DetokenizeAssembled(text: string, ps: seq<Piece>, items: seq<Binding>, allowed: set<string>)
    requires Placed(|text|, 0, ps) && NoDoubleBrace(text) && GoodFills(ps)
    requires PlainValues(ps, items, allowed)
    ensures Placed(|text|, 0, ResolveAll(ps, items, allowed))
    ensures Detokenize(Assemble(text, 0, ps), items, allowed) == Assemble(text, 0, ResolveAll(ps, items, allowed))
    decreases |items|
  {
    hide PlainFor, GoodFills, NoDoubleBrace, Assemble, Placed, Eligible;
    if items != [] {
      var b := items[0];
      assert b in items && forall c :: c in items[1..] ==> c in items;
      if Eligible(b.token, allowed) {
        BracedToken(ps, b);
        ReplaceAssembled(text, 0, ps, b.token, b.value);
        ResolvedFills(ps, b);
        DetokenizeAssembled(text, Resolve(ps, b.token, b.value), items[1..], allowed);
      } else {
        DetokenizeAssembled(text, ps, items[1..], allowed);
      }
    }
  }

  lemma {:induction false} BracedToken(ps: seq<Piece>, b: Binding)
    requires PlainFor(ps, b)
    ensures Braced(b.token)
  {
  }

  /** Every span ends up with the value the vault binds its token to; a span whose
      token no eligible entry names keeps it. */
  lemma {:induction false} ResolvedFill(ps: seq<Piece>, items: seq<Binding>, allowed: set<string>, i: nat)
    requires i < |ps| && DistinctTokens(items)
    ensures ps[i].fill.Val? ==> ResolveAll(ps, items, allowed)[i].fill == ps[i].fill
    ensures forall b :: b in items && Eligible(b.token, allowed) && ps[i].fill == Tok(b.token)
              ==> ResolveAll(ps, items, allowed)[i].fill == Val(b.value)
    ensures (forall b :: b in items && Eligible(b.token, allowed) ==> ps[i].fill != Tok(b.token))
              ==> ResolveAll(ps, items, allowed)[i].fill == ps[i].fill
    decreases |items|
  {
    if items != [] {
      var b := items[0];
      var qs := if Eligible(b.token, allowed) then Resolve(ps, b.token, b.value) else ps;
      ResolvedFill(qs, items[1..], allowed, i);
      forall c | c in items && Eligible(c.token, allowed) && ps[i].fill == Tok(c.token)
        ensures ResolveAll(ps, items, allowed)[i].fill == Val(c.value)
      {
        if c.token != b.token {
          assert c in items[1..];
        } else {
          var j :| 0 <= j < |items| && items[j] == c;
          assert j == 0;
        }
      }
    }
  }

  /** Spans filled with the very text they cover give the text back. */
  lemma {:induction false} AssembleOriginal(text: string, cursor: nat, ps: seq<Piece>)
    requires Placed(|text|, cursor, ps)
    requires forall p :: p in ps ==> p.start <= p.end <= |text| && p.fill.text == text[p.start..p.end]
    ensures cursor <= |text| && Assemble(text, cursor, ps) == text[cursor..]
    decreases |ps|
  {
    PlacedBound(|text|, cursor, ps);
    if ps != [] {
      var p := ps[0];
      assert p in ps;
      AssembleOriginal(text, p.end, ps[1..]);
      assert text[cursor..] == text[cursor..p.start] + (text[p.start..p.end] + text[p.end..]);
    }
  }
}
