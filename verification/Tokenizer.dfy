/** `run_tokenize` on the session store, and the round trip over a whole session. */
module Tokenizer {
  import opened Text
  import opened Tokens
  import opened Splicing
  import opened Spans
  import opened Minting
  import opened Vault
  import opened RedisStore

  function Normalize(entity: string): string {
    if entity == "MONEY" then "CURRENCY" else entity
  }

  /** The string whose hash names a value within a session. */
  function HashInput(sid: string, entity: string, value: string): string {
    sid + ":" + entity + ":" + value
  }

  predicate ColonFree(s: string) {
    ':' !in s
  }

  /** Session ids and entity types hold no colon, so the hash input determines
      session, type and value: `Digest` is as fine as the hash. */
  lemma {:induction false} HashInputInjective(sid: string, entity: string, value: string, sid': string, entity': string, value': string)
    requires ColonFree(sid) && ColonFree(sid') && ColonFree(entity) && ColonFree(entity')
    requires HashInput(sid, entity, value) == HashInput(sid', entity', value')
    ensures sid == sid' && entity == entity' && value == value'
  {
    assert HashInput(sid, entity, value) == sid + ":" + (entity + ":" + value);
    assert HashInput(sid', entity', value') == sid' + ":" + (entity' + ":" + value');
    NamesEndAtSeparator(':', sid, entity + ":" + value, sid', entity' + ":" + value');
    NamesEndAtSeparator(':', entity, value, entity', value');
  }

  // ------------------------------------------------------------- specification

  predicate AllWithin(n: nat, spans: seq<Span>) {
    forall s :: s in spans ==> Within(n, s)
  }

  function ValueOf(text: string, s: Span): string
    requires Within(|text|, s)
  {
    text[s.start..s.end]
  }

  function DigestOf(text: string, sid: string, s: Span): Digest
    requires Within(|text|, s)
  {
    Digest(sid, Normalize(s.entity), ValueOf(text, s))
  }

  /** The hashes a text mints, in the order the loop asks for them. */
  function DigestsOf(text: string, sid: string, spans: seq<Span>): (ds: seq<Digest>)
    requires AllWithin(|text|, spans)
    ensures |ds| == |spans| && forall i :: 0 <= i < |ds| ==> ds[i] == DigestOf(text, sid, spans[i])
  {
    if spans == [] then []
    else
      assert forall s :: s in spans[..|spans| - 1] ==> s in spans;
      DigestsOf(text, sid, spans[..|spans| - 1]) + [DigestOf(text, sid, spans[|spans| - 1])]
  }

  datatype EntityResult = EntityResult(entityType: string, token: string, original: string, start: nat, end: nat)

  function ResultOf(text: string, s: Span, token: string): EntityResult
    requires Within(|text|, s)
  {
    EntityResult(Normalize(s.entity), token, ValueOf(text, s), s.start, s.end)
  }

  /** What a run over some spans, right to left, answered with which tokens. */
  datatype Tokenized = Tokenized(text: string, entities: seq<EntityResult>, tokenMap: map<string, string>)

  /** The pieces to splice in, left to right, for spans listed right to left. */
  function PiecesOf(spans: seq<Span>, tokens: seq<string>): (ps: seq<Piece>)
    requires |spans| == |tokens|
    ensures |ps| == |spans|
    ensures forall i :: 0 <= i < |ps| ==>
      ps[i] == Piece(spans[|spans| - 1 - i].start, spans[|spans| - 1 - i].end, Tok(tokens[|spans| - 1 - i]))
  {
    if spans == [] then []
    else
      var n := |spans| - 1;
      [Piece(spans[n].start, spans[n].end, Tok(tokens[n]))] + PiecesOf(spans[..n], tokens[..n])
  }

  function EntitiesOf(text: string, spans: seq<Span>, tokens: seq<string>): (es: seq<EntityResult>)
    requires |spans| == |tokens| && AllWithin(|text|, spans)
    ensures |es| == |spans| && forall i :: 0 <= i < |es| ==> es[i] == ResultOf(text, spans[i], tokens[i])
  {
    if spans == [] then []
    else
      var n := |spans| - 1;
      assert forall s :: s in spans[..n] ==> s in spans;
      EntitiesOf(text, spans[..n], tokens[..n]) + [ResultOf(text, spans[n], tokens[n])]
  }

  function TokenMapOf(text: string, spans: seq<Span>, tokens: seq<string>): (m: map<string, string>)
    requires |spans| == |tokens| && AllWithin(|text|, spans)
  {
    if spans == [] then map[]
    else
      var n := |spans| - 1;
      assert forall s :: s in spans[..n] ==> s in spans;
      TokenMapOf(text, spans[..n], tokens[..n])[tokens[n] := ValueOf(text, spans[n])]
  }

  lemma {:induction false} TokenMapEntries(text: string, spans: seq<Span>, tokens: seq<string>)
    requires |spans| == |tokens| && AllWithin(|text|, spans)
    ensures TokenMapOf(text, spans, tokens).Keys == set t | t in tokens
    ensures forall t :: t in TokenMapOf(text, spans, tokens) ==>
      exists i :: 0 <= i < |tokens| && tokens[i] == t && TokenMapOf(text, spans, tokens)[t] == ValueOf(text, spans[i])
    decreases |spans|
  {
    if spans != [] {
      var n := |spans| - 1;
      assert forall s :: s in spans[..n] ==> s in spans;
      TokenMapEntries(text, spans[..n], tokens[..n]);
      assert tokens == tokens[..n] + [tokens[n]];
      var m, m' := TokenMapOf(text, spans, tokens), TokenMapOf(text, spans[..n], tokens[..n]);
      forall t | t in m
        ensures exists i :: 0 <= i < |tokens| && tokens[i] == t && m[t] == ValueOf(text, spans[i])
      {
        if t != tokens[n] {
          var i :| 0 <= i < n && tokens[..n][i] == t && m'[t] == ValueOf(text, spans[..n][i]);
          assert tokens[i] == t;
        }
      }
    }
  }

  ghost predicate RightToLeft(spans: seq<Span>) {
    forall i, j :: 0 <= i < j < |spans| ==> spans[j].end <= spans[i].start
  }

  lemma {:induction false} PiecesPlaced(n: nat, spans: seq<Span>, tokens: seq<string>, cursor: nat)
    requires |spans| == |tokens| && AllWithin(n, spans) && RightToLeft(spans) && cursor <= n
    requires forall i :: 0 <= i < |spans| ==> cursor <= spans[i].start
    ensures Placed(n, cursor, PiecesOf(spans, tokens))
    decreases |spans|
  {
    if spans != [] {
      var m := |spans| - 1;
      assert spans[m] in spans;
      AllWithinPrefix(n, spans, m);
      PiecesPlaced(n, spans[..m], tokens[..m], spans[m].end);
      assert PiecesOf(spans, tokens)[1..] == PiecesOf(spans[..m], tokens[..m]);
    }
  }

  lemma {:induction false} AllWithinPrefix(n: nat, spans: seq<Span>, m: nat)
    requires AllWithin(n, spans) && m <= |spans|
    ensures AllWithin(n, spans[..m])
  {
    assert forall s :: s in spans[..m] ==> s in spans;
  }

  /** The spans of a text with `tokens` in their place. */
  function Splice(text: string, spans: seq<Span>, tokens: seq<string>): Tokenized
    requires |spans| == |tokens| && AllWithin(|text|, spans) && RightToLeft(spans)
  {
    PiecesPlaced(|text|, spans, tokens, 0);
    Tokenized(Assemble(text, 0, PiecesOf(spans, tokens)),
              EntitiesOf(text, spans, tokens),
              TokenMapOf(text, spans, tokens))
  }

  /** The tokens a vault stores under some hashes. */
  function TokensUnder(v: Vault, ds: seq<Digest>): (ts: seq<string>)
    requires forall d :: d in ds ==> d in v.hashes
    ensures |ts| == |ds| && forall i :: 0 <= i < |ds| ==> ts[i] == v.hashes[ds[i]]
  {
    if ds == [] then [] else [v.hashes[ds[0]]] + TokensUnder(v, ds[1..])
  }

  ghost predicate AllMintable(spans: seq<Span>) {
    forall s :: s in spans ==> Mintable(Normalize(s.entity))
  }

  /** The vault after a text was tokenized. */
  function VaultAfter(v: Vault, sid: string, text: string, results: seq<Span>): Vault
    requires AllWithin(|text|, results)
  {
    DedupRightToLeft(results, |text|);
    MintAll(v, DigestsOf(text, sid, Dedup(results)))
  }

  /** The text, its entities and its token map, given the vault that holds its tokens. */
  function TokenizedWith(w: Vault, sid: string, text: string, results: seq<Span>): Tokenized
    requires AllWithin(|text|, results)
    requires forall d :: d in DigestsOf(text, sid, DedupWithin(text, results)) ==> d in w.hashes
  {
    var spans := DedupWithin(text, results);
    Splice(text, spans, TokensUnder(w, DigestsOf(text, sid, spans)))
  }

  function DedupWithin(text: string, results: seq<Span>): (spans: seq<Span>)
    requires AllWithin(|text|, results)
    ensures AllWithin(|text|, spans) && RightToLeft(spans)
    ensures forall s :: s in spans ==> s in results
  {
    DedupRightToLeft(results, |text|);
    DedupMembers(results);
    Dedup(results)
  }

  /** Every type the analyzer is asked for prints and reads back. */
  lemma {:induction false} AskedTypesMintable(results: seq<Span>)
    requires forall s :: s in results ==> KnownEntity(s.entity)
    ensures AllMintable(results)
  {
    hide KnownEntity, ShortOf, EntityOf;
    forall s | s in results ensures Mintable(Normalize(s.entity)) {
      ShortCodesInvert(s.entity);
      MoneyNotAsked();
    }
  }

  lemma {:induction false} MoneyNotAsked()
    ensures !KnownEntity("MONEY")
  {
  }

  lemma {:induction false} DigestsMintable(text: string, sid: string, spans: seq<Span>)
    requires AllWithin(|text|, spans) && AllMintable(spans)
    ensures forall d :: d in DigestsOf(text, sid, spans) ==> Mintable(d.entity)
  {
    hide Mintable;
    var ds := DigestsOf(text, sid, spans);
    forall d | d in ds
      ensures Mintable(d.entity)
    {
      var i :| 0 <= i < |ds| && ds[i] == d;
      assert spans[i] in spans;
    }
  }

  // -------------------------------------------------------------------- the loop

  lemma {:induction false} PrefixesRightToLeft(n: nat, spans: seq<Span>, i: nat)
    requires AllWithin(n, spans) && RightToLeft(spans) && i <= |spans|
    ensures AllWithin(n, spans[..i]) && RightToLeft(spans[..i])
  {
    AllWithinPrefix(n, spans, i);
  }

  lemma {:induction false} LastIsLeftmost(n: nat, spans: seq<Span>, s: Span)
    requires AllWithin(n, spans + [s]) && RightToLeft(spans + [s])
    ensures AllWithin(n, spans) && RightToLeft(spans) && Within(n, s)
    ensures forall i :: 0 <= i < |spans| ==> s.end <= spans[i].start
  {
    var all := spans + [s];
    assert all[|spans|] == s && s in all && all[..|spans|] == spans;
    PrefixesRightToLeft(n, all, |spans|);
    assert forall i :: 0 <= i < |spans| ==> spans[i] == all[i];
  }

  /** One more span, spliced in to the left of those before it. */
  lemma {:induction false} PiecesNext(text: string, spans: seq<Span>, tokens: seq<string>, s: Span, token: string)
    requires |spans| == |tokens|
    requires AllWithin(|text|, spans + [s]) && RightToLeft(spans + [s])
    ensures Placed(|text|, 0, PiecesOf(spans, tokens)) && Placed(|text|, 0, PiecesOf(spans + [s], tokens + [token]))
    ensures var t := Assemble(text, 0, PiecesOf(spans, tokens));
      && s.start < s.end <= |t|
      && Assemble(text, 0, PiecesOf(spans + [s], tokens + [token])) == t[..s.start] + token + t[s.end..]
  {
    hide Placed, Assemble;
    var p := Piece(s.start, s.end, Tok(token));
    assert PiecesOf(spans + [s], tokens + [token]) == [p] + PiecesOf(spans, tokens);
    LastIsLeftmost(|text|, spans, s);
    PiecesPlaced(|text|, spans, tokens, s.end);
    SpliceStep(text, p, PiecesOf(spans, tokens));
  }

  /** The results after one more span. */
  lemma {:induction false} SpliceNext(text: string, spans: seq<Span>, tokens: seq<string>, s: Span, token: string)
    requires |spans| == |tokens|
    requires AllWithin(|text|, spans + [s]) && RightToLeft(spans + [s])
    ensures AllWithin(|text|, spans) && RightToLeft(spans) && Within(|text|, s)
    ensures var r, r' := Splice(text, spans, tokens), Splice(text, spans + [s], tokens + [token]);
      && s.start < s.end <= |r.text| && r'.text == r.text[..s.start] + token + r.text[s.end..]
      && r'.entities == r.entities + [ResultOf(text, s, token)]
      && r'.tokenMap == r.tokenMap[token := ValueOf(text, s)]
  {
    var all := spans + [s];
    assert all[|spans|] == s && all[..|spans|] == spans && (tokens + [token])[..|spans|] == tokens;
    LastIsLeftmost(|text|, spans, s);
    PiecesNext(text, spans, tokens, s, token);
  }

  /** The loop's three results after as many spans as there are tokens. */
  ghost predicate SplicedSoFar(text: string, spans: seq<Span>, tokens: seq<string>, r: Tokenized) {
    && AllWithin(|text|, spans) && RightToLeft(spans) && |tokens| <= |spans|
    && (PrefixesRightToLeft(|text|, spans, |tokens|); r == Splice(text, spans[..|tokens|], tokens))
  }

  lemma {:induction false} SpliceStart(text: string, spans: seq<Span>)
    requires AllWithin(|text|, spans) && RightToLeft(spans)
    ensures SplicedSoFar(text, spans, [], Tokenized(text, [], map[]))
  {
    assert spans[..0] == [];
  }

  function WithSpan(text: string, r: Tokenized, e: EntityResult): Tokenized
    requires e.start <= e.end <= |r.text|
  {
    Tokenized(r.text[..e.start] + e.token + r.text[e.end..], r.entities + [e], r.tokenMap[e.token := e.original])
  }

  lemma {:induction false} SpliceTurn(text: string, spans: seq<Span>, tokens: seq<string>, r: Tokenized, token: string)
    requires SplicedSoFar(text, spans, tokens, r) && |tokens| < |spans|
    ensures Within(|text|, spans[|tokens|])
    ensures var e := ResultOf(text, spans[|tokens|], token);
      e.start <= e.end <= |r.text| && SplicedSoFar(text, spans, tokens + [token], WithSpan(text, r, e))
  {
    hide Splice;
    var i := |tokens|;
    assert spans[i] in spans;
    assert spans[..i + 1] == spans[..i] + [spans[i]];
    PrefixesRightToLeft(|text|, spans, i + 1);
    SpliceNext(text, spans[..i], tokens, spans[i], token);
  }

  /** The vault at each turn of the loop, and the tokens handed out so far. */
  lemma {:induction false} MintTurn(v: Vault, ds: seq<Digest>, i: nat)
    requires Sound(v) && i < |ds| && forall d :: d in ds ==> Mintable(d.entity)
    ensures Sound(MintAll(v, ds[..i])) && Grows(v, MintAll(v, ds[..i]))
    ensures MintAll(v, ds[..i + 1]) == MintToken(MintAll(v, ds[..i]), ds[i])
    ensures Grows(MintAll(v, ds[..i]), MintAll(v, ds[..i + 1]))
  {
    hide Mintable, MintToken, Sound, Grows;
    assert forall d :: d in ds[..i] ==> d in ds;
    assert ds[i] in ds;
    MintingAllKeeps(v, ds[..i]);
    assert ds[..i + 1] == ds[..i] + [ds[i]];
    MintAllAppend(v, ds[..i], ds[i]);
    MintingKeeps(MintAll(v, ds[..i]), ds[i]);
  }

  /** The vault minted the first `i` hashes and handed out their tokens. */
  ghost predicate MintedSoFar(v: Vault, w: Vault, ds: seq<Digest>, tokens: seq<string>) {
    && |tokens| <= |ds|
    && w == MintAll(v, ds[..|tokens|])
    && forall k :: 0 <= k < |tokens| ==> ds[k] in w.hashes && tokens[k] == w.hashes[ds[k]]
  }

  lemma {:induction false} MintedOneMore(v: Vault, w: Vault, ds: seq<Digest>, tokens: seq<string>)
    requires Sound(v) && |tokens| < |ds| && forall d :: d in ds ==> Mintable(d.entity)
    requires MintedSoFar(v, w, ds, tokens)
    ensures Sound(w)
    ensures var w' := MintToken(w, ds[|tokens|]);
            MintedSoFar(v, w', ds, tokens + [w'.hashes[ds[|tokens|]]])
  {
    hide Mintable, Sound, MintAll;
    MintTurn(v, ds, |tokens|);
  }

  lemma {:induction false} MintedThrough(v: Vault, w: Vault, ds: seq<Digest>, tokens: seq<string>)
    requires MintedSoFar(v, w, ds, tokens) && |tokens| == |ds|
    ensures w == MintAll(v, ds) && (forall d :: d in ds ==> d in w.hashes) && tokens == TokensUnder(w, ds)
  {
    hide MintAll;
    assert ds[..|tokens|] == ds;
  }

  /** Tokenizing a text took the vault from `v` to `w` and answered `r`. */
  ghost predicate TokenizedFrom(v: Vault, w: Vault, sid: string, text: string, results: seq<Span>, r: Tokenized)
    requires AllWithin(|text|, results)
  {
    && w == VaultAfter(v, sid, text, results)
    && (forall d :: d in DigestsOf(text, sid, DedupWithin(text, results)) ==> d in w.hashes)
    && r == TokenizedWith(w, sid, text, results)
  }

  lemma {:induction false} TokenizedAtLast(v: Vault, w: Vault, sid: string, text: string, results: seq<Span>, tokens: seq<string>, r: Tokenized)
    requires AllWithin(|text|, results)
    requires var spans := DedupWithin(text, results);
      && |tokens| == |spans| && MintedSoFar(v, w, DigestsOf(text, sid, spans), tokens)
      && SplicedSoFar(text, spans, tokens, r)
    ensures TokenizedFrom(v, w, sid, text, results, r)
  {
    hide Splice, MintAll;
    assert DedupWithin(text, results)[..|tokens|] == DedupWithin(text, results);
    MintedThrough(v, w, DigestsOf(text, sid, DedupWithin(text, results)), tokens);
  }

  /** Every kept span of the text, and nothing else, was replaced by a token of its type. */
  ghost predicate Masked(sid: string, text: string, results: seq<Span>, r: Tokenized)
    requires AllWithin(|text|, results)
  {
    exists tokens :: MaskedWith(sid, text, DedupWithin(text, results), tokens, r)
  }

  /** What is reported of a span: its place and value, its type with money counted as
      currency, and a token of that type, which the token map leads back from. */
  ghost predicate ReportsSpan(text: string, s: Span, e: EntityResult, tokenMap: map<string, string>) {
    && e.start == s.start < s.end == e.end <= |text| && e.original == text[s.start..s.end]
    && e.entityType == (if s.entity == "MONEY" then "CURRENCY" else s.entity)
    && e.token in tokenMap
    && exists n: nat :: e.token == "{{" + ShortOf(e.entityType) + "_" + NatText(n) + "}}"
  }

  /** A masked text reports every kept span, right to left, and nothing else. */
  lemma {:induction false} MaskedReports(sid: string, text: string, results: seq<Span>, r: Tokenized)
    requires AllWithin(|text|, results) && Masked(sid, text, results, r)
    ensures var spans := DedupWithin(text, results);
      |r.entities| == |spans| && forall k :: 0 <= k < |spans| ==> ReportsSpan(text, spans[k], r.entities[k], r.tokenMap)
  {
    hide Dedup, ReportsSpan, TokensFit;
    var spans := DedupWithin(text, results);
    var tokens :| MaskedWith(sid, text, spans, tokens, r);
    forall k | 0 <= k < |spans| ensures ReportsSpan(text, spans[k], r.entities[k], r.tokenMap) {
      SpanReported(sid, text, spans, tokens, r, k);
    }
  }

  lemma {:induction false} SpanReported(sid: string, text: string, spans: seq<Span>, tokens: seq<string>, r: Tokenized, k: nat)
    requires AllWithin(|text|, spans) && RightToLeft(spans) && MaskedWith(sid, text, spans, tokens, r) && k < |spans|
    ensures ReportsSpan(text, spans[k], r.entities[k], r.tokenMap)
  {
    hide ShortOf, NatText, RightToLeft, Assemble;
    TokenMapEntries(text, spans, tokens);
    assert spans[k] in spans && tokens[k] in tokens;
    var n: nat :| tokens[k] == TokenFor(DigestOf(text, sid, spans[k]), n);
  }

  ghost predicate MaskedWith(sid: string, text: string, spans: seq<Span>, tokens: seq<string>, r: Tokenized)
    requires AllWithin(|text|, spans) && RightToLeft(spans)
  {
    |tokens| == |spans| && r == Splice(text, spans, tokens) && TokensFit(sid, text, spans, tokens)
  }

  /** The tokens so far are of the types of the spans they stand for. */
  ghost predicate TokensFit(sid: string, text: string, spans: seq<Span>, tokens: seq<string>) {
    && |tokens| <= |spans|
    && forall k :: 0 <= k < |tokens| ==> Within(|text|, spans[k]) && IsTokenFor(DigestOf(text, sid, spans[k]), tokens[k])
  }

  lemma {:induction false} TokenFitsNext(sid: string, text: string, spans: seq<Span>, tokens: seq<string>, token: string)
    requires TokensFit(sid, text, spans, tokens) && |tokens| < |spans| && Within(|text|, spans[|tokens|])
    requires IsTokenFor(DigestOf(text, sid, spans[|tokens|]), token)
    ensures TokensFit(sid, text, spans, tokens + [token])
  {
    hide IsTokenFor, DigestOf;
  }

  lemma {:induction false} MaskedAtLast(sid: string, text: string, results: seq<Span>, tokens: seq<string>, r: Tokenized)
    requires AllWithin(|text|, results)
    requires var spans := DedupWithin(text, results);
      |tokens| == |spans| && SplicedSoFar(text, spans, tokens, r) && TokensFit(sid, text, spans, tokens)
    ensures Masked(sid, text, results, r)
  {
    hide Splice, TokensFit;
    var spans := DedupWithin(text, results);
    assert spans[..|tokens|] == spans;
    assert MaskedWith(sid, text, spans, tokens, r);
  }

  twostate predicate TokenizedBy(store: SessionStore, sid: string, text: string, results: seq<Span>, r: Tokenized)
    requires AllWithin(|text|, results)
    reads store
  {
    ConfigLive(store.KeysOf(sid), store.now) && Sound(old(store.Contents(sid))) && AllMintable(results) ==>
      TokenizedFrom(old(store.Contents(sid)), store.Contents(sid), sid, text, results, r)
  }

  /** Sound so far, nothing lost since `v`. */
  ghost predicate KeptFrom(v: Vault, w: Vault) {
    Sound(w) && Grows(v, w)
  }

  /** One turn of the loop up to the store call: the entity found and its token. */
  method TokenizeSpan(store: SessionStore, sid: string, text: string, result: Span,
                      ghost watched: bool, ghost v: Vault, ghost ds: seq<Digest>, ghost tokens: seq<string>)
    returns (r: Result<EntityResult>)
    requires store.Valid() && Within(|text|, result)
    requires |tokens| < |ds| && ds[|tokens|] == DigestOf(text, sid, result)
    requires watched ==> Sound(v) && forall d :: d in ds ==> Mintable(d.entity)
    requires watched && ConfigLive(store.KeysOf(sid), store.now) ==>
               MintedSoFar(v, store.Contents(sid), ds, tokens) && KeptFrom(v, store.Contents(sid))
    modifies store
    ensures store.Valid() && store.OthersUntouched(sid) && store.Counts(r.Ok?)
    ensures r.Ok? ==> r.value == ResultOf(text, result, r.value.token) && IsTokenFor(DigestOf(text, sid, result), r.value.token)
    ensures watched && ConfigLive(store.KeysOf(sid), store.now) ==> KeptFrom(v, store.Contents(sid))
    ensures r.Ok? && watched && ConfigLive(store.KeysOf(sid), store.now) ==>
              MintedSoFar(v, store.Contents(sid), ds, tokens + [r.value.token])
  {
    ghost var w := store.Contents(sid);
    if watched && ConfigLive(store.KeysOf(sid), store.now) { MintedOneMore(v, w, ds, tokens); }
    assert watched ==> Mintable(ds[|tokens|].entity);
    hide Sound, Mintable, MintedSoFar, Grows, MintToken, View, Outlived, IsTokenFor;
    var originalValue := text[result.start..result.end];
    var entityType := result.entity;
    if entityType == "MONEY" { entityType := "CURRENCY"; }
    var short := ShortOf(entityType);
    var valHash := Digest(sid, entityType, originalValue);
    assert valHash == ds[|tokens|];
    var token := store.GetOrCreateTokenForHash(sid, valHash, entityType, short);
    if watched && ConfigLive(store.KeysOf(sid), store.now) { GrowsTransitive(v, w, store.Contents(sid)); }
    if token.Raised? { return Raised; }
    return Ok(EntityResult(entityType, token.value, originalValue, result.start, result.end));
  }

  method RunTokenize(store: SessionStore, sid: string, text: string, results: seq<Span>)
    returns (r: Result<Tokenized>)
    requires store.Valid() && AllWithin(|text|, results)
    modifies store
    ensures store.Valid() && store.OthersUntouched(sid) && store.Counts(r.Ok?)
    ensures r.Ok? ==> TokenizedBy(store, sid, text, results, r.value) && Masked(sid, text, results, r.value)
    ensures AllMintable(results) ==> store.Kept(sid)
  {
    hide Sound, Mintable, AllMintable, MintedSoFar, SplicedSoFar, KeptFrom, TokenizedFrom, View, Outlived, Dedup, Grows,
      IsTokenFor, TokensFit, Masked, RightToLeft, Healthy;
    var deduped := AnalyzeSpans(results);
    assert deduped == DedupWithin(text, results);
    ghost var v, ds := store.Contents(sid), DigestsOf(text, sid, deduped);
    ghost var watched := Sound(v) && AllMintable(results);
    if watched { WatchedStart(v, text, sid, results); }
    SpliceStart(text, deduped);
    NoTokens(sid, text, deduped);
    var entityResults: seq<EntityResult> := [];
    var newTokenMap: map<string, string> := map[];
    var tokenized := text;
    ghost var tokens: seq<string> := [];
    for i := 0 to |deduped|
      invariant store.Valid() && store.OthersUntouched(sid) && store.Counts(true)
      invariant |tokens| == i
      invariant SplicedSoFar(text, deduped, tokens, Tokenized(tokenized, entityResults, newTokenMap))
      invariant TokensFit(sid, text, deduped, tokens)
      invariant watched && ConfigLive(store.KeysOf(sid), store.now) ==>
                  MintedSoFar(v, store.Contents(sid), ds, tokens) && KeptFrom(v, store.Contents(sid))
    {
      assert deduped[i] in deduped;
      var entity := TokenizeSpan(store, sid, text, deduped[i], watched, v, ds, tokens);
      if watched && ConfigLive(store.KeysOf(sid), store.now) { KeptFromIsKept(v, store.Contents(sid)); }
      if entity.Raised? { return Raised; }
      var e := entity.value;
      SpliceTurn(text, deduped, tokens, Tokenized(tokenized, entityResults, newTokenMap), e.token);
      TokenFitsNext(sid, text, deduped, tokens, e.token);
      newTokenMap := newTokenMap[e.token := e.original];
      entityResults := entityResults + [e];
      tokenized := tokenized[..e.start] + e.token + tokenized[e.end..];
      tokens := tokens + [e.token];
    }
    r := Ok(Tokenized(tokenized, entityResults, newTokenMap));
    MaskedAtLast(sid, text, results, tokens, r.value);
    if watched && ConfigLive(store.KeysOf(sid), store.now) {
      TokenizedAtLast(v, store.Contents(sid), sid, text, results, tokens, r.value);
      KeptFromIsKept(v, store.Contents(sid));
    }
  }

  lemma {:induction false} KeptFromIsKept(v: Vault, w: Vault)
    requires KeptFrom(v, w)
    ensures Sound(w) && Grows(v, w)
  {
  }

  lemma {:induction false} NoTokens(sid: string, text: string, spans: seq<Span>)
    ensures TokensFit(sid, text, spans, [])
  {
  }

  lemma {:induction false} WatchedStart(v: Vault, text: string, sid: string, results: seq<Span>)
    requires Sound(v) && AllWithin(|text|, results) && AllMintable(results)
    ensures var ds := DigestsOf(text, sid, DedupWithin(text, results));
      (forall d :: d in ds ==> Mintable(d.entity)) && MintedSoFar(v, v, ds, []) && KeptFrom(v, v)
  {
    hide Sound, Mintable, Dedup;
    var spans := DedupWithin(text, results);
    assert AllMintable(spans);
    DigestsMintable(text, sid, spans);
    GrowsItself(v);
  }
}
