/** Reading a browser message back after any further messages: the text, with every span
    in the casing it was first seen in. */
module BrowserRoundTrip {
  import opened Text
  import opened Tokens
  import opened Detokenizer
  import opened Splicing
  import opened BrowserVault
  import opened BrowserTokenizer

  // ------------------------------------------------------- the browser's token loop

  /** The types the browser's prefixes stand for. */
  const ALL_TYPES: set<string> :=
    {"PERSON", "SSN", "EMAIL_ADDRESS", "PHONE_NUMBER", "CREDIT_CARD", "ACCOUNT_NUMBER", "LOAN_ID", "DATE_TIME"}

  lemma {:induction false} PrefixTypes(ty: EntityType)
    ensures EntityOf(Prefix(ty)) in ALL_TYPES
  {
  }

  lemma {:induction false} TokensEligible(ty: EntityType, n: nat)
    ensures Eligible(Token(Prefix(ty), n), ALL_TYPES) && Braced(Token(Prefix(ty), n))
  {
    hide Prefix, EntityOf, ALL_TYPES, Token;
    PrefixIsShort(ty);
    PrefixTypes(ty);
    TokenRoundTrip(Prefix(ty), n);
  }

  ghost predicate AllEligible(items: seq<Binding>) {
    forall b :: b in items ==> Eligible(b.token, ALL_TYPES) && Braced(b.token)
  }

  /** With nothing hidden, the browser's loop is the gateway's. */
  lemma {:induction false} SameLoop(text: string, items: seq<Binding>)
    requires AllEligible(items)
    ensures DetokenizeAll(text, items) == Detokenizer.Detokenize(text, items, ALL_TYPES)
    decreases |items|
  {
    hide Eligible, Replace;
    if items != [] {
      assert items[0] in items && forall b :: b in items[1..] ==> b in items;
      SameLoop(Replace(text, items[0].token, items[0].value), items[1..]);
    }
  }

  // ----------------------------------------------------------------- a whole session

  datatype Call = Call(text: string, candidates: seq<Match>)

  /** No "{{" in the text, no brace in a match that is replaced. */
  predicate PlainCall(call: Call, rejected: string -> bool) {
    NoDoubleBrace(call.text) && forall m :: m in Chosen(call.candidates, rejected) ==> BraceFree(m.original)
  }

  /** Lower-casing neither makes nor removes a brace. */
  ghost predicate KeepsBraces(f: char -> char) {
    forall c :: IsBrace(f(c)) <==> IsBrace(c)
  }

  function VaultAfter(f: char -> char, calls: seq<Call>, rejected: string -> bool): VaultState {
    if calls == [] then EMPTY
    else Assigned(f, Chosen(calls[|calls| - 1].candidates, rejected), VaultAfter(f, calls[..|calls| - 1], rejected))
  }

  /** What the `i`-th call of the session returned as its text. */
  function SentText(f: char -> char, calls: seq<Call>, rejected: string -> bool, i: nat): string
    requires i < |calls| && MatchesOf(calls[i].text, calls[i].candidates)
  {
    var ps := TokenPieces(Entities(f, Chosen(calls[i].candidates, rejected), VaultAfter(f, calls[..i], rejected)));
    ChosenInLine(calls[i].text, calls[i].candidates, rejected);
    LinedUp(calls[i].text, Chosen(calls[i].candidates, rejected), ps);
    Assemble(calls[i].text, 0, ps)
  }

  ghost predicate AllHaveTokens(f: char -> char, w: VaultState, ms: seq<Match>, es: seq<TokenEntity>) {
    |es| == |ms| && forall i :: 0 <= i < |ms| ==> HasToken(f, w, ms[i], es[i].token)
  }

  /** A list of matches: everything in the vault stays, and each match's token is its
      key's token from then on. */
  lemma {:induction false} AssigningAllKeeps(f: char -> char, ms: seq<Match>, v: VaultState)
    requires Sound(f, v)
    ensures Sound(f, Assigned(f, ms, v)) && Grows(v, Assigned(f, ms, v))
    ensures AllHaveTokens(f, Assigned(f, ms, v), ms, Entities(f, ms, v))
    decreases |ms|
  {
    hide Sound, Grows, AssignToken, HasToken, AllHaveTokens, Assigned, Entities, Key;
    if ms == [] {
      GrowsItself(v);
      NothingAssigned(f, v);
      assert ms == [];
    } else {
      var (t, u) := AssignToken(f, ms[0].ty, ms[0].original, v);
      var w := Assigned(f, ms[1..], u);
      AssignHead(f, ms, v);
      AssigningKeeps(f, v, ms[0].ty, ms[0].original);
      TokenGiven(f, u, ms[0], t);
      AssigningAllKeeps(f, ms[1..], u);
      GrowsTransitive(v, u, w);
      TokenStays(f, u, w, ms[0], t);
      TokensOfHead(f, w, ms, Entities(f, ms, v));
    }
  }

  lemma {:induction false} NothingAssigned(f: char -> char, v: VaultState)
    ensures Assigned(f, [], v) == v && Entities(f, [], v) == [] && AllHaveTokens(f, v, [], [])
  {
  }

  lemma {:induction false} AssignHead(f: char -> char, ms: seq<Match>, v: VaultState)
    requires ms != []
    ensures var (t, u) := AssignToken(f, ms[0].ty, ms[0].original, v);
      && Assigned(f, ms, v) == Assigned(f, ms[1..], u)
      && Entities(f, ms, v)[0].token == t && Entities(f, ms, v)[1..] == Entities(f, ms[1..], u)
  {
    hide AssignToken;
  }

  lemma {:induction false} TokensOfHead(f: char -> char, w: VaultState, ms: seq<Match>, es: seq<TokenEntity>)
    requires |es| == |ms| > 0 && HasToken(f, w, ms[0], es[0].token) && AllHaveTokens(f, w, ms[1..], es[1..])
    ensures AllHaveTokens(f, w, ms, es)
  {
    hide HasToken;
    forall i | 0 <= i < |ms| ensures HasToken(f, w, ms[i], es[i].token) {
      if i > 0 { assert HasToken(f, w, ms[1..][i - 1], es[1..][i - 1].token); }
    }
  }

  ghost predicate HasToken(f: char -> char, v: VaultState, m: Match, token: string) {
    var key := Key(f, m.ty, m.original);
    key in v.keyToToken && v.keyToToken[key] == token && Braced(token)
  }

  lemma {:induction false} TokenGiven(f: char -> char, v: VaultState, m: Match, token: string)
    requires Key(f, m.ty, m.original) in v.keyToToken && v.keyToToken[Key(f, m.ty, m.original)] == token && Braced(token)
    ensures HasToken(f, v, m, token)
  {
  }

  lemma {:induction false} TokenStays(f: char -> char, v: VaultState, w: VaultState, m: Match, token: string)
    requires HasToken(f, v, m, token) && Grows(v, w)
    ensures HasToken(f, w, m, token)
  {
    hide Key, Braced;
  }

  lemma {:induction false} SessionKeeps(f: char -> char, calls: seq<Call>, rejected: string -> bool)
    ensures Sound(f, VaultAfter(f, calls, rejected))
    decreases |calls|
  {
    hide Sound, Grows, Assigned, Chosen, AllHaveTokens;
    if calls == [] {
      EmptyIsSound(f);
    } else {
      var init, call := calls[..|calls| - 1], calls[|calls| - 1];
      SessionKeeps(f, init, rejected);
      AssigningAllKeeps(f, Chosen(call.candidates, rejected), VaultAfter(f, init, rejected));
    }
  }

  lemma {:induction false} SessionGrows(f: char -> char, calls: seq<Call>, rejected: string -> bool, i: nat)
    requires i <= |calls|
    ensures Grows(VaultAfter(f, calls[..i], rejected), VaultAfter(f, calls, rejected))
    decreases |calls|
  {
    hide Sound, Grows, Assigned, Chosen, AllHaveTokens;
    if i == |calls| {
      assert calls[..i] == calls;
      GrowsItself(VaultAfter(f, calls, rejected));
    } else {
      var init, call := calls[..|calls| - 1], calls[|calls| - 1];
      assert calls[..i] == init[..i];
      SessionGrows(f, init, rejected, i);
      SessionKeeps(f, init, rejected);
      AssigningAllKeeps(f, Chosen(call.candidates, rejected), VaultAfter(f, init, rejected));
      GrowsTransitive(VaultAfter(f, calls[..i], rejected), VaultAfter(f, init, rejected), VaultAfter(f, calls, rejected));
    }
  }

  // ----------------------------------------------------------------------- reading back

  /** The casing a vault restores for each match. */
  ghost predicate Casings(f: char -> char, v: VaultState, ms: seq<Match>, cased: seq<string>) {
    |cased| == |ms| && forall i :: 0 <= i < |ms| ==> FirstSeen(f, v, ms[i].ty, ms[i].original, cased[i])
  }

  function CasedPieces(ms: seq<Match>, cased: seq<string>): (ps: seq<Piece>)
    requires |cased| == |ms|
    ensures |ps| == |ms| && forall i :: 0 <= i < |ms| ==> ps[i] == Piece(ms[i].start, ms[i].end, Val(cased[i]))
  {
    if ms == [] then [] else [Piece(ms[0].start, ms[0].end, Val(cased[0]))] + CasedPieces(ms[1..], cased[1..])
  }

  lemma {:induction false} CasingsOf(f: char -> char, v: VaultState, ms: seq<Match>, es: seq<TokenEntity>) returns (cased: seq<string>)
    requires Sound(f, v) && AllHaveTokens(f, v, ms, es)
    ensures Casings(f, v, ms, cased)
  {
    hide Sound, FirstSeen, Key, Braced;
    cased := [];
    for i := 0 to |ms|
      invariant |cased| == i && forall j :: 0 <= j < i ==> FirstSeen(f, v, ms[j].ty, ms[j].original, cased[j])
    {
      assert HasToken(f, v, ms[i], es[i].token);
      var c := KeyIsBound(f, v, ms[i].ty, ms[i].original);
      cased := cased + [c];
    }
  }

  /** The tokens of a call are those of its keys for the rest of the session. */
  lemma {:induction false} CallTokens(f: char -> char, calls: seq<Call>, rejected: string -> bool, i: nat)
    requires i < |calls|
    ensures var ms := Chosen(calls[i].candidates, rejected);
      AllHaveTokens(f, VaultAfter(f, calls, rejected), ms, Entities(f, ms, VaultAfter(f, calls[..i], rejected)))
  {
    hide Sound, Grows, Assigned, Chosen, AllHaveTokens;
    var before := VaultAfter(f, calls[..i], rejected);
    var ms := Chosen(calls[i].candidates, rejected);
    SessionKeeps(f, calls[..i], rejected);
    AssigningAllKeeps(f, ms, before);
    assert calls[..i + 1][..i] == calls[..i] && calls[..i + 1][i] == calls[i];
    assert VaultAfter(f, calls[..i + 1], rejected) == Assigned(f, ms, before);
    SessionGrows(f, calls, rejected, i + 1);
    TokensStay(f, Assigned(f, ms, before), VaultAfter(f, calls, rejected), ms, Entities(f, ms, before));
  }

  lemma {:induction false} TokensStay(f: char -> char, v: VaultState, w: VaultState, ms: seq<Match>, es: seq<TokenEntity>)
    requires AllHaveTokens(f, v, ms, es) && Grows(v, w)
    ensures AllHaveTokens(f, w, ms, es)
  {
    hide HasToken, Grows;
    forall i | 0 <= i < |ms| ensures HasToken(f, w, ms[i], es[i].token) {
      TokenStays(f, v, w, ms[i], es[i].token);
    }
  }

  lemma {:induction false} EntryPlain(f: char -> char, v: VaultState, b: Binding)
    requires EntryHeld(f, v, b)
    ensures Eligible(b.token, ALL_TYPES) && Braced(b.token)
  {
    hide Holds, Token, Prefix, Eligible, ALL_TYPES, Braced;
    var k, ty, n: nat :| Holds(f, v, k, ty, n, b.value) && b.token == Token(Prefix(ty), n);
    TokensEligible(ty, n);
  }

  lemma {:induction false} VaultEligible(f: char -> char, v: VaultState)
    requires Sound(f, v)
    ensures AllEligible(v.tokenToOrig) && DistinctTokens(v.tokenToOrig)
  {
    hide EntryHeld, KeyHeld, Counted, Injective, DistinctTokens, Eligible, ALL_TYPES, Braced;
    forall b | b in v.tokenToOrig ensures Eligible(b.token, ALL_TYPES) && Braced(b.token) {
      EntryPlain(f, v, b);
    }
  }

  /** A value restored in another casing is as brace-free as the one replaced. */
  lemma {:induction false} CasedPlain(f: char -> char, cased: string, original: string)
    requires KeepsBraces(f) && Lower(f, cased) == Lower(f, original) && BraceFree(original) && original != ""
    ensures BraceFree(cased) && cased != ""
  {
    assert |cased| == |original|;
    forall i | 0 <= i < |cased| ensures !IsBrace(cased[i]) {
      assert f(cased[i]) == Lower(f, cased)[i] == Lower(f, original)[i] == f(original[i]);
    }
  }

  /** A call's tokens are bound to plain values; the vault's other tokens are not in its
      text. */
  lemma {:induction false} VaultPlainFor(f: char -> char, w: VaultState, ms: seq<Match>, es: seq<TokenEntity>, cased: seq<string>)
    requires KeepsBraces(f) && Sound(f, w) && AllHaveTokens(f, w, ms, es) && Casings(f, w, ms, cased)
    requires forall m :: m in ms ==> m.original != "" && BraceFree(m.original)
    ensures PlainValues(TokenPieces(es), w.tokenToOrig, ALL_TYPES)
  {
    hide KeepsBraces, Eligible, ALL_TYPES, Braced, BraceFree, Key, Lower, Sound;
    var ps := TokenPieces(es);
    VaultEligible(f, w);
    forall b | b in w.tokenToOrig ensures PlainFor(ps, b) {
      if p :| p in ps && p.fill == Tok(b.token) {
        var i :| 0 <= i < |ps| && ps[i] == p;
        assert HasToken(f, w, ms[i], es[i].token) && FirstSeen(f, w, ms[i].ty, ms[i].original, cased[i]);
        assert ms[i] in ms;
        CasedPlain(f, cased[i], ms[i].original);
        BoundOnce(w.tokenToOrig, b, Binding(es[i].token, cased[i]));
      }
    }
  }

  lemma {:induction false} BoundOnce(items: seq<Binding>, a: Binding, b: Binding)
    requires DistinctTokens(items) && a in items && b in items && a.token == b.token
    ensures a == b
  {
    var i :| 0 <= i < |items| && items[i] == a;
    var j :| 0 <= j < |items| && items[j] == b;
  }

  lemma {:induction false} TokensGood(f: char -> char, w: VaultState, ms: seq<Match>, es: seq<TokenEntity>)
    requires AllHaveTokens(f, w, ms, es)
    ensures GoodFills(TokenPieces(es))
  {
    hide Key, Braced;
    var ps := TokenPieces(es);
    forall p | p in ps ensures GoodFill(p.fill) {
      var i :| 0 <= i < |ps| && ps[i] == p;
      assert HasToken(f, w, ms[i], es[i].token);
    }
  }

  lemma {:induction false} ReadBack(f: char -> char, text: string, ms: seq<Match>, es: seq<TokenEntity>, w: VaultState, cased: seq<string>)
    requires KeepsBraces(f) && Sound(f, w) && AllHaveTokens(f, w, ms, es) && Casings(f, w, ms, cased)
    requires forall m :: m in ms ==> m.original != "" && BraceFree(m.original)
    requires InLine(ms) && MatchesOf(text, ms) && NoDoubleBrace(text)
    requires |es| == |ms| && forall i :: 0 <= i < |ms| ==> es[i].start == ms[i].start && es[i].end == ms[i].end
    ensures |cased| == |ms|
    ensures Placed(|text|, 0, TokenPieces(es)) && Placed(|text|, 0, CasedPieces(ms, cased))
    ensures DetokenizeAll(Assemble(text, 0, TokenPieces(es)), w.tokenToOrig) == Assemble(text, 0, CasedPieces(ms, cased))
  {
    hide Sound, AllHaveTokens, InLine, MatchesOf, NoDoubleBrace, DetokenizeAll, Assemble, Placed, Detokenizer.Detokenize, FirstSeen,
      KeepsBraces, PlainValues, AllEligible, ALL_TYPES, Eligible, Braced, BraceFree, GoodFills, DistinctTokens, ResolveAll;
    var items, ps := w.tokenToOrig, TokenPieces(es);
    LinedUp(text, ms, ps);
    LinedUp(text, ms, CasedPieces(ms, cased));
    VaultEligible(f, w);
    VaultPlainFor(f, w, ms, es, cased);
    TokensGood(f, w, ms, es);
    SameLoop(Assemble(text, 0, ps), items);
    DetokenizeAssembled(text, ps, items, ALL_TYPES);
    forall i | 0 <= i < |ms| ensures ResolveAll(ps, items, ALL_TYPES)[i] == CasedPieces(ms, cased)[i] {
      SpanResolves(f, w, ms, es, cased, i);
    }
    assert ResolveAll(ps, items, ALL_TYPES) == CasedPieces(ms, cased);
  }

  lemma {:induction false} SpanResolves(f: char -> char, w: VaultState, ms: seq<Match>, es: seq<TokenEntity>, cased: seq<string>, i: nat)
    requires AllHaveTokens(f, w, ms, es) && Casings(f, w, ms, cased) && i < |ms|
    requires AllEligible(w.tokenToOrig) && DistinctTokens(w.tokenToOrig)
    ensures |es| == |ms| && |cased| == |ms|
    ensures ResolveAll(TokenPieces(es), w.tokenToOrig, ALL_TYPES)[i].fill == Val(cased[i])
  {
    hide Key, Eligible, Braced, BraceFree, DistinctTokens, ResolveAll, ALL_TYPES, Lower;
    var ps := TokenPieces(es);
    assert HasToken(f, w, ms[i], es[i].token) && FirstSeen(f, w, ms[i].ty, ms[i].original, cased[i]);
    var b := Binding(es[i].token, cased[i]);
    assert b in w.tokenToOrig && ps[i].fill == Tok(b.token) && Eligible(b.token, ALL_TYPES);
    ResolvedFill(ps, w.tokenToOrig, ALL_TYPES, i);
  }

  lemma {:induction false} SentIs(f: char -> char, calls: seq<Call>, rejected: string -> bool, i: nat)
    requires i < |calls| && MatchesOf(calls[i].text, calls[i].candidates)
    ensures var ps := TokenPieces(Entities(f, Chosen(calls[i].candidates, rejected), VaultAfter(f, calls[..i], rejected)));
      Placed(|calls[i].text|, 0, ps) && SentText(f, calls, rejected, i) == Assemble(calls[i].text, 0, ps)
  {
    hide MatchesOf, Chosen, VaultAfter, Assemble, Placed, InLine, Entities;
    ChosenInLine(calls[i].text, calls[i].candidates, rejected);
    LinedUp(calls[i].text, Chosen(calls[i].candidates, rejected),
      TokenPieces(Entities(f, Chosen(calls[i].candidates, rejected), VaultAfter(f, calls[..i], rejected))));
  }

  lemma {:induction false} ChosenPlain(call: Call, rejected: string -> bool)
    requires MatchesOf(call.text, call.candidates) && PlainCall(call, rejected)
    ensures var ms := Chosen(call.candidates, rejected);
      && InLine(ms) && MatchesOf(call.text, ms) && NoDoubleBrace(call.text)
      && forall m :: m in ms ==> m.original != "" && BraceFree(m.original)
  {
    hide Chosen, InLine, BraceFree;
    ChosenInLine(call.text, call.candidates, rejected);
    forall m | m in Chosen(call.candidates, rejected) ensures m.original != "" {
      assert MatchOf(call.text, m);
    }
  }

  /** The browser's round trip. A call without "{{" and with brace-free matches, in any
      session, its text read back with the vault as any later call left it: the text
      verbatim outside the spans, and in each span the casing its value was first seen in. */
  lemma {:induction false} BrowserReadsBack(f: char -> char, calls: seq<Call>, rejected: string -> bool, i: nat) returns (cased: seq<string>)
    requires KeepsBraces(f) && i < |calls|
    requires MatchesOf(calls[i].text, calls[i].candidates) && PlainCall(calls[i], rejected)
    ensures Casings(f, VaultAfter(f, calls, rejected), Chosen(calls[i].candidates, rejected), cased)
    ensures Placed(|calls[i].text|, 0, CasedPieces(Chosen(calls[i].candidates, rejected), cased))
    ensures DetokenizeAll(SentText(f, calls, rejected, i), VaultAfter(f, calls, rejected).tokenToOrig) ==
      Assemble(calls[i].text, 0, CasedPieces(Chosen(calls[i].candidates, rejected), cased))
  {
    hide Sound, Grows, PlainCall, Assigned, Chosen, AllHaveTokens, VaultAfter, DetokenizeAll, Assemble, Placed,
      SentText, Casings, InLine, MatchesOf, NoDoubleBrace, KeepsBraces, BraceFree;
    var call := calls[i];
    var ms, before, after := Chosen(call.candidates, rejected), VaultAfter(f, calls[..i], rejected), VaultAfter(f, calls, rejected);
    SessionKeeps(f, calls, rejected);
    CallTokens(f, calls, rejected, i);
    ChosenPlain(call, rejected);
    cased := CasingsOf(f, after, ms, Entities(f, ms, before));
    SentIs(f, calls, rejected, i);
    ReadBack(f, call.text, ms, Entities(f, ms, before), after, cased);
  }

  // ------------------------------------------------------------------- letter case

  lemma {:induction false} LowerAppend(f: char -> char, a: string, b: string)
    ensures Lower(f, a + b) == Lower(f, a) + Lower(f, b)
  {
  }

  /** Spans restored up to letter case give the text up to letter case. */
  lemma {:induction false} AssembleUpToCase(f: char -> char, text: string, cursor: nat, ms: seq<Match>, cased: seq<string>)
    requires |cased| == |ms| && Placed(|text|, cursor, CasedPieces(ms, cased)) && MatchesOf(text, ms)
    requires forall i :: 0 <= i < |ms| ==> Lower(f, cased[i]) == Lower(f, ms[i].original)
    ensures cursor <= |text| && Lower(f, Assemble(text, cursor, CasedPieces(ms, cased))) == Lower(f, text[cursor..])
    decreases |ms|
  {
    hide Lower;
    if ms != [] {
      var m := ms[0];
      assert m in ms && MatchOf(text, m) && CasedPieces(ms, cased)[1..] == CasedPieces(ms[1..], cased[1..]);
      AssembleUpToCase(f, text, m.end, ms[1..], cased[1..]);
      var rest := Assemble(text, m.end, CasedPieces(ms[1..], cased[1..]));
      LowerAppend(f, text[cursor..m.start], cased[0] + rest);
      LowerAppend(f, cased[0], rest);
      LowerAppend(f, text[cursor..m.start], m.original + text[m.end..]);
      LowerAppend(f, m.original, text[m.end..]);
      assert text[cursor..] == text[cursor..m.start] + (m.original + text[m.end..]);
    }
  }

  /** Spans restored at their own lengths give the text exactly when each is what stood
      there. */
  lemma {:induction false} AssembleExactly(text: string, cursor: nat, ms: seq<Match>, cased: seq<string>)
    requires |cased| == |ms| && Placed(|text|, cursor, CasedPieces(ms, cased)) && MatchesOf(text, ms)
    requires forall i :: 0 <= i < |ms| ==> |cased[i]| == |ms[i].original|
    ensures cursor <= |text|
    ensures Assemble(text, cursor, CasedPieces(ms, cased)) == text[cursor..] <==>
      forall i :: 0 <= i < |ms| ==> cased[i] == ms[i].original
    decreases |ms|
  {
    if ms != [] {
      var m := ms[0];
      assert m in ms && MatchOf(text, m) && CasedPieces(ms, cased)[1..] == CasedPieces(ms[1..], cased[1..]);
      AssembleExactly(text, m.end, ms[1..], cased[1..]);
      var rest := Assemble(text, m.end, CasedPieces(ms[1..], cased[1..]));
      assert text[cursor..] == text[cursor..m.start] + (m.original + text[m.end..]);
      SameHeads(text[cursor..m.start], cased[0], rest, m.original, text[m.end..]);
      if cased[0] == m.original && forall i :: 0 <= i < |ms[1..]| ==> cased[1..][i] == ms[1..][i].original {
        forall i | 0 <= i < |ms| ensures cased[i] == ms[i].original {
          if i > 0 { assert cased[1..][i - 1] == ms[1..][i - 1].original; }
        }
      }
    }
  }

  lemma {:induction false} SameHeads(gap: string, a: string, x: string, b: string, y: string)
    requires |a| == |b|
    ensures gap + (a + x) == gap + (b + y) <==> a == b && x == y
  {
    var s, t := gap + (a + x), gap + (b + y);
    assert s[|gap|..] == a + x && t[|gap|..] == b + y;
    assert (a + x)[..|a|] == a && (a + x)[|a|..] == x && (b + y)[..|b|] == b && (b + y)[|b|..] == y;
  }

  /** The text read back is the text up to letter case, and exactly the text if and only
      if every span stands in the casing its value was first seen in. */
  lemma {:induction false} BrowserRoundTripCase(f: char -> char, calls: seq<Call>, rejected: string -> bool, i: nat)
    requires KeepsBraces(f) && i < |calls|
    requires MatchesOf(calls[i].text, calls[i].candidates) && PlainCall(calls[i], rejected)
    ensures var text, ms := calls[i].text, Chosen(calls[i].candidates, rejected);
      var back := DetokenizeAll(SentText(f, calls, rejected, i), VaultAfter(f, calls, rejected).tokenToOrig);
      && Lower(f, back) == Lower(f, text)
      && (back == text <==>
            forall m :: m in ms ==> FirstSeen(f, VaultAfter(f, calls, rejected), m.ty, m.original, m.original))
  {
    hide PlainCall, VaultAfter, DetokenizeAll, Assemble, Placed, Lower, Chosen, SentText, FirstSeen, InLine, Sound, KeepsBraces, BraceFree, NoDoubleBrace;
    var text, ms, w := calls[i].text, Chosen(calls[i].candidates, rejected), VaultAfter(f, calls, rejected);
    var cased := BrowserReadsBack(f, calls, rejected, i);
    ChosenPlain(calls[i], rejected);
    SessionKeeps(f, calls, rejected);
    CasingsMatch(f, w, ms, cased);
    assert text[0..] == text;
    AssembleUpToCase(f, text, 0, ms, cased);
    AssembleExactly(text, 0, ms, cased);
    OwnCasings(f, w, ms, cased);
  }

  lemma {:induction false} CasingsMatch(f: char -> char, w: VaultState, ms: seq<Match>, cased: seq<string>)
    requires Casings(f, w, ms, cased)
    ensures forall i :: 0 <= i < |ms| ==> Lower(f, cased[i]) == Lower(f, ms[i].original) && |cased[i]| == |ms[i].original|
  {
    forall i | 0 <= i < |ms| ensures Lower(f, cased[i]) == Lower(f, ms[i].original) && |cased[i]| == |ms[i].original| {
      assert FirstSeen(f, w, ms[i].ty, ms[i].original, cased[i]);
      assert |Lower(f, cased[i])| == |Lower(f, ms[i].original)|;
    }
  }

  lemma {:induction false} OwnCasings(f: char -> char, w: VaultState, ms: seq<Match>, cased: seq<string>)
    requires Sound(f, w) && Casings(f, w, ms, cased)
    ensures (forall i :: 0 <= i < |ms| ==> cased[i] == ms[i].original) <==>
      forall m :: m in ms ==> FirstSeen(f, w, m.ty, m.original, m.original)
  {
    hide Sound, FirstSeen;
    if forall m :: m in ms ==> FirstSeen(f, w, m.ty, m.original, m.original) {
      forall i | 0 <= i < |ms| ensures cased[i] == ms[i].original {
        assert ms[i] in ms;
        FirstSeenUnique(f, w, ms[i].ty, ms[i].original, cased[i], ms[i].original);
      }
    }
    if forall i :: 0 <= i < |ms| ==> cased[i] == ms[i].original {
      forall m | m in ms ensures FirstSeen(f, w, m.ty, m.original, m.original) {
        var i :| 0 <= i < |ms| && ms[i] == m;
        assert FirstSeen(f, w, ms[i].ty, ms[i].original, cased[i]);
      }
    }
  }

  /** What every call of a session keeps: keys never share a token, each type's counter
      is the number of its keys, and no binding made earlier is lost or changed. */
  lemma {:induction false} SessionVaults(f: char -> char, calls: seq<Call>, rejected: string -> bool, i: nat)
    requires i <= |calls|
    ensures var v, w := VaultAfter(f, calls[..i], rejected), VaultAfter(f, calls, rejected);
      && (forall k, l :: k in w.keyToToken && l in w.keyToToken && w.keyToToken[k] == w.keyToToken[l] ==> k == l)
      && (forall ty :: Count(w, ty) == |KeysOf(w, ty)|)
      && v.tokenToOrig <= w.tokenToOrig
      && (forall k :: k in v.keyToToken ==> k in w.keyToToken && w.keyToToken[k] == v.keyToToken[k])
  {
    hide VaultAfter, KeysOf, Count, KeyHeld, EntryHeld;
    SessionKeeps(f, calls, rejected);
    SessionGrows(f, calls, rejected, i);
  }
}
