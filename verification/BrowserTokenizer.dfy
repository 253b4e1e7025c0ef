/** The browser's `tokenize` and `detokenize`: claiming matches by priority, splicing left
    to right, and reading a text back from any later vault. */
module BrowserTokenizer {
  import opened Intervals
  import opened Text
  import opened Detokenizer
  import opened Splicing
  import opened BrowserVault

  /** A match of one of the patterns, in the order the patterns are tried. */
  datatype Match = Match(ty: EntityType, original: string, start: nat, end: nat)

  datatype TokenEntity = TokenEntity(ty: EntityType, original: string, token: string, start: nat, end: nat)

  /** What a pattern can match: a non-empty stretch of the text, as it stands there. */
  predicate MatchOf(text: string, m: Match) {
    m.start < m.end <= |text| && m.original == text[m.start..m.end]
  }

  predicate MatchesOf(text: string, ms: seq<Match>) {
    forall m :: m in ms ==> MatchOf(text, m)
  }

  // ---------------------------------------------------------------------- claiming

  predicate MatchesOverlap(a: Match, b: Match) {
    Overlaps(a.start, a.end, b.start, b.end)
  }

  /** `rejected` is the filter on title-case phrases that are no names. */
  predicate Refused(m: Match, rejected: string -> bool) {
    m.ty == PERSON && rejected(m.original)
  }

  predicate OverlapsAny(m: Match, kept: seq<Match>) {
    exists k :: k in kept && MatchesOverlap(m, k)
  }

  /** The matches that are kept, in the order tried. */
  function Picked(ms: seq<Match>, rejected: string -> bool): seq<Match> {
    if ms == [] then []
    else
      var kept, m := Picked(ms[..|ms| - 1], rejected), ms[|ms| - 1];
      if OverlapsAny(m, kept) || Refused(m, rejected) then kept else kept + [m]
  }

  ghost predicate Disjoint(ms: seq<Match>) {
    forall i, j :: 0 <= i < j < |ms| ==> !MatchesOverlap(ms[i], ms[j])
  }

  lemma {:induction false} PickedSnoc(ms: seq<Match>, m: Match, rejected: string -> bool)
    ensures var kept := Picked(ms, rejected);
      Picked(ms + [m], rejected) == if OverlapsAny(m, kept) || Refused(m, rejected) then kept else kept + [m]
  {
    hide OverlapsAny, Refused;
    assert (ms + [m])[..|ms|] == ms;
  }

  lemma {:induction false} PickedDisjoint(ms: seq<Match>, rejected: string -> bool)
    ensures Disjoint(Picked(ms, rejected))
    ensures forall m :: m in Picked(ms, rejected) ==> m in ms && !Refused(m, rejected)
    decreases |ms|
  {
    hide Refused;
    if ms != [] {
      var init, m := ms[..|ms| - 1], ms[|ms| - 1];
      PickedDisjoint(init, rejected);
      var kept := Picked(init, rejected);
      forall i | 0 <= i < |kept| && !OverlapsAny(m, kept) ensures !MatchesOverlap(kept[i], m) {
        assert kept[i] in kept;
      }
    }
  }

  /** A match is left out only because the filter refuses it or because it overlaps a kept
      match that was tried before it. */
  lemma {:induction false} LeftOutIsBeaten(ms: seq<Match>, rejected: string -> bool, i: nat)
    requires i < |ms| && ms[i] !in Picked(ms, rejected)
    ensures (ms[i].ty == PERSON && rejected(ms[i].original)) ||
      exists k :: k in Picked(ms, rejected) && k in ms[..i] && ms[i].start < k.end && k.start < ms[i].end
  {
    hide Picked;
    LeftOut(ms, rejected, i);
  }

  lemma {:induction false} LeftOut(ms: seq<Match>, rejected: string -> bool, i: nat)
    requires i < |ms| && ms[i] !in Picked(ms, rejected)
    ensures Refused(ms[i], rejected) ||
      exists k :: k in Picked(ms, rejected) && k in ms[..i] && MatchesOverlap(ms[i], k)
    decreases |ms|
  {
    hide MatchesOverlap, Refused;
    var n := |ms| - 1;
    if i < n {
      LeftOut(ms[..n], rejected, i);
      assert ms[..n][..i] == ms[..i];
    } else {
      PickedDisjoint(ms[..n], rejected);
    }
  }

  function InsertByStart(m: Match, ms: seq<Match>): seq<Match> {
    if ms == [] || m.start < ms[0].start then [m] + ms else [ms[0]] + InsertByStart(m, ms[1..])
  }

  /** `rawMatches.sort((a, b) => a.start - b.start)` */
  function SortByStart(ms: seq<Match>): seq<Match> {
    if ms == [] then [] else InsertByStart(ms[|ms| - 1], SortByStart(ms[..|ms| - 1]))
  }

  /** In order, without overlap. */
  ghost predicate InLine(ms: seq<Match>) {
    forall i, j :: 0 <= i < j < |ms| ==> ms[i].end <= ms[j].start
  }

  lemma {:induction false} InsertedMembers(m: Match, ms: seq<Match>)
    ensures forall x :: x in InsertByStart(m, ms) <==> x == m || x in ms
    decreases |ms|
  {
    if ms != [] && m.start >= ms[0].start {
      InsertedMembers(m, ms[1..]);
      assert ms == [ms[0]] + ms[1..];
    }
  }

  lemma {:induction false} InsertedInLine(text: string, m: Match, ms: seq<Match>)
    requires InLine(ms) && MatchOf(text, m) && MatchesOf(text, ms) && !OverlapsAny(m, ms)
    ensures InLine(InsertByStart(m, ms))
    decreases |ms|
  {
    if ms != [] {
      assert ms[0] in ms && !MatchesOverlap(m, ms[0]) && MatchOf(text, ms[0]);
      if m.start < ms[0].start {
        assert m.end <= ms[0].start;
      } else {
        var rest := ms[1..];
        assert MatchesOf(text, rest) && !OverlapsAny(m, rest);
        InsertedInLine(text, m, rest);
        InsertedMembers(m, rest);
        var q := InsertByStart(m, rest);
        forall j | 0 <= j < |q| ensures ms[0].end <= q[j].start {
          assert q[j] in q;
        }
      }
    }
  }

  /** Claimed matches, sorted, lie side by side. */
  lemma {:induction false} SortedInLine(text: string, ms: seq<Match>)
    requires Disjoint(ms) && MatchesOf(text, ms)
    ensures InLine(SortByStart(ms)) && MatchesOf(text, SortByStart(ms))
    ensures forall m :: m in SortByStart(ms) <==> m in ms
    decreases |ms|
  {
    if ms != [] {
      hide InsertByStart, InLine, MatchesOverlap, MatchOf;
      var init, m := ms[..|ms| - 1], ms[|ms| - 1];
      assert ms == init + [m] && Disjoint(init) && MatchesOf(text, init) && m in ms;
      SortedInLine(text, init);
      assert !OverlapsAny(m, SortByStart(init)) by { Separate(init, m); }
      InsertedInLine(text, m, SortByStart(init));
      InsertedMembers(m, SortByStart(init));
    }
  }

  lemma {:induction false} Separate(ms: seq<Match>, m: Match)
    requires Disjoint(ms + [m])
    ensures !OverlapsAny(m, ms)
  {
    var all := ms + [m];
    forall k | k in ms ensures !MatchesOverlap(m, k) {
      var i :| 0 <= i < |ms| && ms[i] == k;
      assert !MatchesOverlap(all[i], all[|ms|]);
    }
  }

  /** The matches a call replaces, left to right. */
  function Chosen(ms: seq<Match>, rejected: string -> bool): seq<Match> {
    SortByStart(Picked(ms, rejected))
  }

  lemma {:induction false} ChosenInLine(text: string, ms: seq<Match>, rejected: string -> bool)
    requires MatchesOf(text, ms)
    ensures InLine(Chosen(ms, rejected)) && MatchesOf(text, Chosen(ms, rejected))
    ensures forall m :: m in Chosen(ms, rejected) <==> m in Picked(ms, rejected)
  {
    hide InLine, MatchOf, Disjoint;
    PickedDisjoint(ms, rejected);
    SortedInLine(text, Picked(ms, rejected));
  }

  // --------------------------------------------------------------------- assigning

  /** The vault after the matches are assigned tokens, left to right. */
  function Assigned(f: char -> char, ms: seq<Match>, v: VaultState): VaultState
    decreases |ms|
  {
    if ms == [] then v else Assigned(f, ms[1..], AssignToken(f, ms[0].ty, ms[0].original, v).1)
  }

  /** The matches with the tokens they are assigned. */
  function Entities(f: char -> char, ms: seq<Match>, v: VaultState): (es: seq<TokenEntity>)
    ensures |es| == |ms| && forall i :: 0 <= i < |ms| ==> es[i].start == ms[i].start && es[i].end == ms[i].end
    ensures forall i :: 0 <= i < |ms| ==> es[i].ty == ms[i].ty && es[i].original == ms[i].original
    decreases |ms|
  {
    if ms == [] then []
    else
      var (t, w) := AssignToken(f, ms[0].ty, ms[0].original, v);
      [TokenEntity(ms[0].ty, ms[0].original, t, ms[0].start, ms[0].end)] + Entities(f, ms[1..], w)
  }

  function TokenPieces(es: seq<TokenEntity>): (ps: seq<Piece>)
    ensures |ps| == |es| && forall i :: 0 <= i < |es| ==> ps[i] == Piece(es[i].start, es[i].end, Tok(es[i].token))
  {
    if es == [] then [] else [Piece(es[0].start, es[0].end, Tok(es[0].token))] + TokenPieces(es[1..])
  }

  lemma {:induction false} InLinePlaced(text: string, ms: seq<Match>, ps: seq<Piece>, cursor: nat)
    requires InLine(ms) && MatchesOf(text, ms) && |ps| == |ms| && cursor <= |text|
    requires forall i :: 0 <= i < |ms| ==> ps[i].start == ms[i].start && ps[i].end == ms[i].end
    requires ms != [] ==> cursor <= ms[0].start
    ensures Placed(|text|, cursor, ps)
    decreases |ms|
  {
    if ms != [] {
      assert ms[0] in ms && MatchOf(text, ms[0]);
      assert MatchesOf(text, ms[1..]);
      if |ms| > 1 { assert ms[0].end <= ms[1].start; }
      InLinePlaced(text, ms[1..], ps[1..], ms[0].end);
    }
  }

  // ------------------------------------------------------------------- the methods

  datatype TokenizeResult = TokenizeResult(original: string, tokenized: string, entities: seq<TokenEntity>)

  /** What `tokenize` is asked to return. */
  ghost predicate Tokenized(f: char -> char, text: string, chosen: seq<Match>, vault: VaultState, r: TokenizeResult, w: VaultState) {
    && r.original == text && r.entities == Entities(f, chosen, vault) && w == Assigned(f, chosen, vault)
    && Placed(|text|, 0, TokenPieces(r.entities))
    && r.tokenized == Assemble(text, 0, TokenPieces(r.entities))
  }

  /** Claim matches in order of priority: one is kept if none of its positions is
      claimed. */
  method Claim(text: string, candidates: seq<Match>, rejected: string -> bool) returns (rawMatches: seq<Match>)
    requires MatchesOf(text, candidates)
    ensures rawMatches == Picked(candidates, rejected)
  {
    hide Refused, Picked, MatchesOf, OverlapsAny;
    var claimed: set<nat> := {};
    rawMatches := [];
    PickedNone(rejected);
    for n := 0 to |candidates|
      invariant rawMatches == Picked(candidates[..n], rejected)
      invariant ClaimedBy(claimed, rawMatches)
    {
      var m := candidates[n];
      assert candidates[..n + 1] == candidates[..n] + [m];
      PickedSnoc(candidates[..n], m, rejected);
      CandidateShape(text, candidates, n);
      var overlaps := false;
      for i := m.start to m.end
        invariant overlaps <==> exists j: nat :: m.start <= j < i && j in claimed
      {
        if i in claimed { overlaps := true; }
      }
      ClaimedMeansOverlap(m, rawMatches, claimed);
      if overlaps || Refused(m, rejected) { continue; }
      ghost var before := claimed;
      for i := m.start to m.end
        invariant forall j: nat :: j in claimed <==> j in before || m.start <= j < i
      {
        claimed := claimed + {i};
      }
      rawMatches := rawMatches + [m];
    }
    assert candidates[..|candidates|] == candidates;
  }

  /** The claimed positions are those the kept matches cover. */
  ghost predicate ClaimedBy(claimed: set<nat>, kept: seq<Match>) {
    && (forall k :: k in kept ==> k.start < k.end)
    && forall i: nat :: i in claimed <==> exists k :: k in kept && k.start <= i < k.end
  }

  lemma {:induction false} PickedNone(rejected: string -> bool)
    ensures Picked([], rejected) == []
  {
  }

  lemma {:induction false} CandidateShape(text: string, ms: seq<Match>, n: nat)
    requires MatchesOf(text, ms) && n < |ms|
    ensures ms[n].start < ms[n].end
  {
    assert ms[n] in ms;
  }

  lemma {:induction false} ClaimedMeansOverlap(m: Match, kept: seq<Match>, claimed: set<nat>)
    requires m.start < m.end && ClaimedBy(claimed, kept)
    ensures (exists j: nat :: m.start <= j < m.end && j in claimed) <==> OverlapsAny(m, kept)
  {
    if k :| k in kept && MatchesOverlap(m, k) {
      var j := if m.start < k.start then k.start else m.start;
      assert m.start <= j < m.end && j in claimed;
    }
    if j: nat :| m.start <= j < m.end && j in claimed {
      var k :| k in kept && k.start <= j < k.end;
      assert MatchesOverlap(m, k);
    }
  }

  /** Replace the matches by their tokens, left to right. */
  method Splice(f: char -> char, text: string, rawMatches: seq<Match>, vault: VaultState)
    returns (r: TokenizeResult, w: VaultState)
    requires InLine(rawMatches) && MatchesOf(text, rawMatches)
    ensures Tokenized(f, text, rawMatches, vault, r, w)
  {
    hide AssignToken, MatchesOf, InLine, TokenPieces, Placed, Assemble, Entities, Assigned;
    ghost var all := Entities(f, rawMatches, vault);
    ghost var ps := TokenPieces(all);
    LinedUp(text, rawMatches, ps);

    var entities: seq<TokenEntity> := [];
    var cursor: nat := 0;
    var tokenized, currentVault := "", vault;
    for n := 0 to |rawMatches|
      invariant Placed(|text|, cursor, ps[n..])
      invariant entities + Entities(f, rawMatches[n..], currentVault) == all
      invariant Assigned(f, rawMatches[n..], currentVault) == Assigned(f, rawMatches, vault)
      invariant tokenized + Assemble(text, cursor, ps[n..]) == Assemble(text, 0, ps)
    {
      var m := rawMatches[n];
      AssembleNext(text, cursor, ps, n, tokenized);
      AssignNext(f, rawMatches, n, currentVault, entities);
      TokenPieceAt(all, n, entities, Entities(f, rawMatches[n..], currentVault));
      tokenized := tokenized + text[cursor..m.start];
      var (token, updatedVault) := AssignToken(f, m.ty, m.original, currentVault);
      currentVault := updatedVault;
      entities := entities + [TokenEntity(m.ty, m.original, token, m.start, m.end)];
      tokenized := tokenized + token;
      cursor := m.end;
    }
    AssembleEnd(text, cursor, ps[|rawMatches|..]);
    AssignEnd(f, rawMatches[|rawMatches|..], currentVault);
    tokenized := tokenized + text[cursor..];
    r, w := TokenizeResult(text, tokenized, entities), currentVault;
  }

  lemma {:induction false} AssembleNext(text: string, cursor: nat, ps: seq<Piece>, n: nat, built: string)
    requires n < |ps| && Placed(|text|, cursor, ps[n..])
    ensures cursor <= ps[n].start < ps[n].end <= |text| && Placed(|text|, ps[n].end, ps[n + 1..])
    ensures built + Assemble(text, cursor, ps[n..]) ==
      built + text[cursor..ps[n].start] + ps[n].fill.text + Assemble(text, ps[n].end, ps[n + 1..])
  {
    assert ps[n..][0] == ps[n] && ps[n..][1..] == ps[n + 1..];
  }

  lemma {:induction false} AssembleEnd(text: string, cursor: nat, ps: seq<Piece>)
    requires Placed(|text|, cursor, ps) && ps == []
    ensures cursor <= |text| && Assemble(text, cursor, ps) == text[cursor..]
  {
  }

  lemma {:induction false} AssignNext(f: char -> char, ms: seq<Match>, n: nat, v: VaultState, done: seq<TokenEntity>)
    requires n < |ms|
    ensures var (t, w) := AssignToken(f, ms[n].ty, ms[n].original, v);
      && Assigned(f, ms[n..], v) == Assigned(f, ms[n + 1..], w)
      && done + Entities(f, ms[n..], v) ==
         done + [TokenEntity(ms[n].ty, ms[n].original, t, ms[n].start, ms[n].end)] + Entities(f, ms[n + 1..], w)
      && Entities(f, ms[n..], v)[0].token == t
  {
    hide AssignToken;
    assert ms[n..][0] == ms[n] && ms[n..][1..] == ms[n + 1..];
  }

  lemma {:induction false} AssignEnd(f: char -> char, ms: seq<Match>, v: VaultState)
    requires ms == []
    ensures Entities(f, ms, v) == [] && Assigned(f, ms, v) == v
  {
  }

  lemma {:induction false} TokenPieceAt(all: seq<TokenEntity>, n: nat, before: seq<TokenEntity>, rest: seq<TokenEntity>)
    requires all == before + rest && |before| == n && rest != []
    ensures TokenPieces(all)[n] == Piece(rest[0].start, rest[0].end, Tok(rest[0].token))
  {
  }

  lemma {:induction false} LinedUp(text: string, ms: seq<Match>, ps: seq<Piece>)
    requires InLine(ms) && MatchesOf(text, ms) && |ps| == |ms|
    requires forall i :: 0 <= i < |ms| ==> ps[i].start == ms[i].start && ps[i].end == ms[i].end
    ensures Placed(|text|, 0, ps)
  {
    hide InLine, MatchesOf, Placed;
    InLinePlaced(text, ms, ps, 0);
  }

  method Tokenize(f: char -> char, text: string, vault: VaultState, candidates: seq<Match>, rejected: string -> bool)
    returns (r: TokenizeResult, w: VaultState)
    requires MatchesOf(text, candidates)
    ensures Tokenized(f, text, Chosen(candidates, rejected), vault, r, w)
  {
    hide MatchesOf, InLine, Tokenized, Picked, SortByStart;
    var rawMatches := Claim(text, candidates, rejected);
    ChosenInLine(text, candidates, rejected);
    r, w := Splice(f, text, SortByStart(rawMatches), vault);
  }

  /** `s.split("").join(rep)` */
  function BetweenAll(s: string, rep: string): string {
    if |s| <= 1 then s else [s[0]] + rep + BetweenAll(s[1..], rep)
  }

  /** `s.split(pat).join(rep)` */
  function SplitJoin(s: string, pat: string, rep: string): string {
    if pat == "" then BetweenAll(s, rep) else Replace(s, pat, rep)
  }

  /** What the browser's loop computes. */
  function DetokenizeAll(text: string, items: seq<Binding>): string
    decreases |items|
  {
    if items == [] then text else DetokenizeAll(SplitJoin(text, items[0].token, items[0].value), items[1..])
  }

  method Detokenized(tokenized: string, vault: VaultState) returns (result: string)
    ensures result == DetokenizeAll(tokenized, vault.tokenToOrig)
  {
    hide SplitJoin;
    var entries := vault.tokenToOrig;
    result := tokenized;
    for i := 0 to |entries|
      invariant DetokenizeAll(result, entries[i..]) == DetokenizeAll(tokenized, entries)
    {
      assert entries[i..][0] == entries[i] && entries[i..][1..] == entries[i + 1..];
      result := SplitJoin(result, entries[i].token, entries[i].value);
    }
  }
}
