/** What comes back when a session's texts are detokenized: for every role, and
    after any further messages of the session. */
module SessionRoundTrip {
  import opened Text
  import opened Tokens
  import opened Detokenizer
  import opened Splicing
  import opened Spans
  import opened Minting
  import opened Vault
  import opened Tokenizer

  /** A text and the spans the analyzer reports in it. */
  datatype RawMessage = RawMessage(text: string, results: seq<Span>)

  type Message = m: RawMessage | AllWithin(|m.text|, m.results) witness RawMessage("", [])

  /** No "{{" in the text, no brace in a value that is replaced. */
  ghost predicate PlainMessage(m: Message) {
    NoDoubleBrace(m.text) && forall s :: s in DedupWithin(m.text, m.results) ==> BraceFree(ValueOf(m.text, s))
  }

  /** Tokenize the message and merge its token map into the stored one. */
  function Recorded(v: Vault, sid: string, m: Message): Vault
  {
    var spans := DedupWithin(m.text, m.results);
    MintAllHolds(v, DigestsOf(m.text, sid, spans));
    MergeTokens(VaultAfter(v, sid, m.text, m.results), Answer(v, sid, m).tokenMap)
  }

  /** What `run_tokenize` answers on vault `v`. */
  function Answer(v: Vault, sid: string, m: Message): Tokenized
  {
    MintAllHolds(v, DigestsOf(m.text, sid, DedupWithin(m.text, m.results)));
    TokenizedWith(VaultAfter(v, sid, m.text, m.results), sid, m.text, m.results)
  }

  lemma {:induction false} MintAllHolds(v: Vault, ds: seq<Digest>)
    ensures forall d :: d in v.hashes ==> d in MintAll(v, ds).hashes
    ensures forall d :: d in MintAll(v, ds).hashes ==> d in v.hashes || d in ds
    ensures forall d :: d in ds ==> d in MintAll(v, ds).hashes
    decreases |ds|
  {
    hide TokenFor;
    if ds != [] {
      MintAllHolds(MintToken(v, ds[0]), ds[1..]);
    }
  }

  // ------------------------------------------------------------------- one message

  /** The spans' tokens in the order the loop minted them. */
  function MintedTokens(v: Vault, sid: string, m: Message): (ts: seq<string>)
    ensures |ts| == |DedupWithin(m.text, m.results)|
  {
    var ds := DigestsOf(m.text, sid, DedupWithin(m.text, m.results));
    MintAllHolds(v, ds);
    TokensUnder(MintAll(v, ds), ds)
  }

  /** The vault holds the `i`-th span's token under its hash, and the way back. */
  ghost predicate HoldsSpan(w: Vault, sid: string, text: string, s: Span, t: string)
    requires Within(|text|, s)
  {
    var d := DigestOf(text, sid, s);
    d in w.hashes && w.hashes[d] == t && t in w.tokens && w.tokens[t] == d.value
  }

  lemma {:induction false} TokenMapUndoes(u: Vault, sid: string, m: Message, i: nat)
    requires Sound(u)
    requires var ds := DigestsOf(m.text, sid, DedupWithin(m.text, m.results));
      && i < |ds| && forall d :: d in ds ==> d in u.hashes
    ensures var spans := DedupWithin(m.text, m.results);
      var ts := TokensUnder(u, DigestsOf(m.text, sid, spans));
      var tm := TokenMapOf(m.text, spans, ts);
      ts[i] in tm && tm[ts[i]] == ValueOf(m.text, spans[i])
  {
    hide Sound;
    var spans := DedupWithin(m.text, m.results);
    var ds := DigestsOf(m.text, sid, spans);
    var ts := TokensUnder(u, ds);
    TokensInjective(u);
    TokenMapEntries(m.text, spans, ts);
    var t, tm := ts[i], TokenMapOf(m.text, spans, ts);
    assert t in ts;
    var j :| 0 <= j < |ts| && ts[j] == t && tm[t] == ValueOf(m.text, spans[j]);
    assert ds[i] in ds && ds[j] in ds;
    assert ds[i] == ds[j];
  }

  /** Once recorded, a message's tokens are stored and the reversal map undoes them. */
  lemma {:induction false} RecordedHolds(v: Vault, sid: string, m: Message, i: nat)
    requires Sound(v) && AllMintable(m.results) && i < |DedupWithin(m.text, m.results)|
    ensures HoldsSpan(Recorded(v, sid, m), sid, m.text, DedupWithin(m.text, m.results)[i], MintedTokens(v, sid, m)[i])
  {
    var spans := DedupWithin(m.text, m.results);
    var ds := DigestsOf(m.text, sid, spans);
    SpansMintable(m);
    DigestsMintable(m.text, sid, spans);
    hide Mintable, Sound, AllMintable, TokenFor, NoDoubleBrace, MintAll, Dedup;
    MintAllHolds(v, ds);
    MintingAllKeeps(v, ds);
    TokenMapUndoes(MintAll(v, ds), sid, m, i);
    assert ds[i] in ds;
  }

  lemma {:induction false} HoldsLater(w: Vault, w': Vault, sid: string, text: string, s: Span, t: string)
    requires Within(|text|, s) && HoldsSpan(w, sid, text, s, t) && Grows(w, w')
    ensures HoldsSpan(w', sid, text, s, t)
  {
  }

  lemma {:induction false} SpansMintable(m: Message)
    requires AllMintable(m.results)
    ensures AllMintable(DedupWithin(m.text, m.results))
  {
  }

  lemma {:induction false} RecordingKeeps(v: Vault, sid: string, m: Message)
    requires Sound(v) && AllMintable(m.results)
    ensures Sound(Recorded(v, sid, m)) && Grows(v, Recorded(v, sid, m))
  {
    var spans := DedupWithin(m.text, m.results);
    var ds := DigestsOf(m.text, sid, spans);
    var u, ts := MintAll(v, ds), MintedTokens(v, sid, m);
    SpansMintable(m);
    DigestsMintable(m.text, sid, spans);
    hide Mintable, Sound, AllMintable, TokenFor, Grows;
    MintAllHolds(v, ds);
    MintingAllKeeps(v, ds);
    var added := Answer(v, sid, m).tokenMap;
    TokenMapEntries(m.text, spans, ts);
    forall t | t in added
      ensures exists d :: d in u.hashes && u.hashes[d] == t && added[t] == d.value
    {
      var j :| 0 <= j < |ts| && ts[j] == t && added[t] == ValueOf(m.text, spans[j]);
      assert ds[j] in ds;
      assert u.hashes[ds[j]] == t;
    }
    MergingKeeps(u, added);
    GrowsTransitive(v, u, Recorded(v, sid, m));
  }

  // ------------------------------------------------------------------ what a role sees

  /** `items` lists the entries of the stored map, in some order. */
  ghost predicate Enumerates(items: seq<Binding>, m: map<string, string>) {
    && DistinctTokens(items)
    && (forall b :: b in items ==> b.token in m && m[b.token] == b.value)
    && (forall t :: t in m ==> Binding(t, m[t]) in items)
  }

  /** The spans of allowed types read as they were, the others as their tokens. */
  function RoleFill(text: string, s: Span, token: string, allowed: set<string>): Fill
    requires Within(|text|, s)
  {
    if Normalize(s.entity) in allowed then Val(ValueOf(text, s)) else Tok(token)
  }

  function RolePieces(text: string, spans: seq<Span>, tokens: seq<string>, allowed: set<string>): (ps: seq<Piece>)
    requires |spans| == |tokens| && AllWithin(|text|, spans)
    ensures |ps| == |spans|
    ensures forall i :: 0 <= i < |ps| ==>
      var s, t := spans[|spans| - 1 - i], tokens[|spans| - 1 - i];
      ps[i] == Piece(s.start, s.end, RoleFill(text, s, t, allowed))
  {
    if spans == [] then []
    else
      var n := |spans| - 1;
      AllWithinPrefix(|text|, spans, n);
      [Piece(spans[n].start, spans[n].end, RoleFill(text, spans[n], tokens[n], allowed))]
      + RolePieces(text, spans[..n], tokens[..n], allowed)
  }

  /** The vault holds every span of a message, under these tokens. */
  ghost predicate HoldsAll(w: Vault, sid: string, text: string, spans: seq<Span>, ts: seq<string>) {
    |ts| == |spans| && forall i :: 0 <= i < |spans| ==> Within(|text|, spans[i]) && HoldsSpan(w, sid, text, spans[i], ts[i])
  }

  ghost predicate PlainSpans(text: string, spans: seq<Span>) {
    forall s :: s in spans ==> Within(|text|, s) && BraceFree(ValueOf(text, s))
  }

  /** A held message's tokens are bound to its own values; the vault's other tokens are
      not in it. */
  lemma {:induction false} VaultPlainFor(w: Vault, sid: string, text: string, spans: seq<Span>, ts: seq<string>,
                                         items: seq<Binding>, allowed: set<string>)
    requires HoldsAll(w, sid, text, spans, ts) && PlainSpans(text, spans)
    requires Sound(w) && Enumerates(items, w.tokens)
    ensures |ts| == |spans| && PlainValues(PiecesOf(spans, ts), items, allowed)
  {
    hide Eligible, Braced, BraceFree, Sound, HoldsAll, PlainSpans, Enumerates;
    assert |ts| == |spans| by { HoldsEach(w, sid, text, spans, ts); }
    var ps := PiecesOf(spans, ts);
    forall b | b in items
      ensures PlainFor(ps, b)
    {
      EntryBraced(w, items, b);
      if p :| p in ps && p.fill == Tok(b.token) {
        var k :| 0 <= k < |ps| && ps[k] == p;
        OwnValue(w, sid, text, spans, ts, items, b, |spans| - 1 - k);
      }
    }
  }

  lemma {:induction false} HoldsEach(w: Vault, sid: string, text: string, spans: seq<Span>, ts: seq<string>)
    requires HoldsAll(w, sid, text, spans, ts)
    ensures |ts| == |spans|
  {
    hide HoldsSpan;
  }

  /** An entry for a span's token holds the span's own value. */
  lemma {:induction false} OwnValue(w: Vault, sid: string, text: string, spans: seq<Span>, ts: seq<string>,
                                    items: seq<Binding>, b: Binding, i: nat)
    requires HoldsAll(w, sid, text, spans, ts) && PlainSpans(text, spans) && Enumerates(items, w.tokens)
    requires |ts| == |spans| && i < |spans| && b in items && ts[i] == b.token
    ensures b.value != [] && BraceFree(b.value)
  {
    hide BraceFree, DistinctTokens;
    assert spans[i] in spans && HoldsSpan(w, sid, text, spans[i], ts[i]);
    assert b.value == ValueOf(text, spans[i]);
  }

  lemma {:induction false} EntryBraced(w: Vault, items: seq<Binding>, b: Binding)
    requires Sound(w) && Enumerates(items, w.tokens) && b in items
    ensures Braced(b.token)
  {
    TokensReadBack(w);
    hide Eligible, Braced;
    var d :| d in w.hashes && w.hashes[d] == b.token && w.tokens[b.token] == d.value;
    assert ReadsBack(w.hashes[d], d.entity);
  }

  lemma {:induction false} EligibleIsAllowed(w: Vault, d: Digest, allowed: set<string>)
    requires Sound(w) && d in w.hashes
    ensures Braced(w.hashes[d]) && (Eligible(w.hashes[d], allowed) <==> d.entity in allowed)
  {
    TokensReadBack(w);
    assert ReadsBack(w.hashes[d], d.entity);
  }

  /** One span of a held message, after the loop. */
  lemma {:induction false} SpanResolves(text: string, spans: seq<Span>, ts: seq<string>, items: seq<Binding>, allowed: set<string>, i: nat)
    requires AllWithin(|text|, spans) && |spans| == |ts| && i < |spans| && Within(|text|, spans[i])
    requires DistinctTokens(items) && Binding(ts[i], ValueOf(text, spans[i])) in items
    requires Eligible(ts[i], allowed) <==> Normalize(spans[i].entity) in allowed
    ensures ResolveAll(PiecesOf(spans, ts), items, allowed)[|spans| - 1 - i].fill == RoleFill(text, spans[i], ts[i], allowed)
  {
    hide Eligible, ResolveAll, DistinctTokens;
    FillResolves(PiecesOf(spans, ts), items, allowed, |spans| - 1 - i, ts[i], ValueOf(text, spans[i]));
  }

  lemma {:induction false} HeldSpanFacts(w: Vault, sid: string, text: string, s: Span, t: string, items: seq<Binding>, allowed: set<string>)
    requires Within(|text|, s) && HoldsSpan(w, sid, text, s, t) && Sound(w) && Enumerates(items, w.tokens)
    ensures Braced(t) && (Eligible(t, allowed) <==> Normalize(s.entity) in allowed)
    ensures Binding(t, ValueOf(text, s)) in items && DistinctTokens(items)
  {
    hide Sound, Braced, Eligible;
    EligibleIsAllowed(w, DigestOf(text, sid, s), allowed);
    HeldIsListed(w, sid, text, s, t, items);
  }

  lemma {:induction false} HeldIsListed(w: Vault, sid: string, text: string, s: Span, t: string, items: seq<Binding>)
    requires Within(|text|, s) && HoldsSpan(w, sid, text, s, t) && Enumerates(items, w.tokens)
    ensures var d := DigestOf(text, sid, s);
            d in w.hashes && w.hashes[d] == t && Binding(t, d.value) in items && DistinctTokens(items)
  {
  }

  lemma {:induction false} FillResolves(ps: seq<Piece>, items: seq<Binding>, allowed: set<string>, k: nat, t: string, value: string)
    requires k < |ps| && ps[k].fill == Tok(t) && DistinctTokens(items) && Binding(t, value) in items
    ensures ResolveAll(ps, items, allowed)[k].fill == if Eligible(t, allowed) then Val(value) else Tok(t)
  {
    hide Eligible, ResolveAll;
    ResolvedFill(ps, items, allowed, k);
    var b := Binding(t, value);
    assert b in items && b.token == t;
  }

  /** A held message, after the loop, for a role. */
  lemma {:induction false} HeldMessageResolves(w: Vault, sid: string, text: string, spans: seq<Span>, ts: seq<string>,
                            items: seq<Binding>, allowed: set<string>)
    requires AllWithin(|text|, spans) && RightToLeft(spans) && NoDoubleBrace(text)
    requires HoldsAll(w, sid, text, spans, ts) && PlainSpans(text, spans)
    requires Sound(w) && Enumerates(items, w.tokens)
    ensures |ts| == |spans|
    ensures var ps, rs := PiecesOf(spans, ts), RolePieces(text, spans, ts, allowed);
            && Placed(|text|, 0, ps) && Placed(|text|, 0, rs)
            && Detokenize(Assemble(text, 0, ps), items, allowed) == Assemble(text, 0, rs)
  {
    hide Sound, Enumerates, Assemble, Detokenize, NoDoubleBrace, PlainValues, PlainSpans, RightToLeft, AllWithin, Placed,
      GoodFill, ResolveAll, HoldsSpan;
    var ps, rs := PiecesOf(spans, ts), RolePieces(text, spans, ts, allowed);
    PiecesPlaced(|text|, spans, ts, 0);
    VaultPlainFor(w, sid, text, spans, ts, items, allowed);
    var qs := ResolveAll(ps, items, allowed);
    forall k | 0 <= k < |ps|
      ensures qs[k] == rs[k] && GoodFill(ps[k].fill)
    {
      HeldSpanResolves(w, sid, text, spans, ts, items, allowed, |spans| - 1 - k);
    }
    DetokenizeAssembled(text, ps, items, allowed);
    assert qs == rs;
  }

  lemma {:induction false} HeldSpanResolves(w: Vault, sid: string, text: string, spans: seq<Span>, ts: seq<string>,
                                            items: seq<Binding>, allowed: set<string>, i: nat)
    requires AllWithin(|text|, spans) && HoldsAll(w, sid, text, spans, ts) && i < |spans|
    requires Sound(w) && Enumerates(items, w.tokens)
    ensures |ts| == |spans| && Within(|text|, spans[i]) && GoodFill(Tok(ts[i]))
    ensures ResolveAll(PiecesOf(spans, ts), items, allowed)[|spans| - 1 - i].fill == RoleFill(text, spans[i], ts[i], allowed)
  {
    hide Sound, Enumerates, Eligible, Braced, HoldsSpan, ResolveAll, RoleFill, DistinctTokens;
    HeldSpanFacts(w, sid, text, spans[i], ts[i], items, allowed);
    SpanResolves(text, spans, ts, items, allowed, i);
  }

  /** Detokenizing a recorded message, however much the session's vault has grown
      since and in whatever order the vault is walked, shows the role the message with
      exactly the spans of its allowed types restored. */
  lemma {:induction false} RoleSeesMessage(v: Vault, sid: string, m: Message, w: Vault, items: seq<Binding>, allowed: set<string>)
    requires Sound(v) && AllMintable(m.results) && PlainMessage(m)
    requires Grows(Recorded(v, sid, m), w) && Sound(w) && Enumerates(items, w.tokens)
    ensures var rs := RolePieces(m.text, DedupWithin(m.text, m.results), MintedTokens(v, sid, m), allowed);
            && Placed(|m.text|, 0, rs)
            && Detokenize(Answer(v, sid, m).text, items, allowed) == Assemble(m.text, 0, rs)
  {
    hide Sound, Enumerates, Grows, HoldsSpan, Recorded, Detokenize, NoDoubleBrace, BraceFree, AllMintable, Assemble, Placed, RightToLeft;
    var spans, ts := DedupWithin(m.text, m.results), MintedTokens(v, sid, m);
    AnswerIs(v, sid, m);
    HeldLater(v, sid, m, w);
    HeldMessageResolves(w, sid, m.text, spans, ts, items, allowed);
  }

  lemma {:induction false} AnswerIs(v: Vault, sid: string, m: Message)
    ensures var spans, ts := DedupWithin(m.text, m.results), MintedTokens(v, sid, m);
      Placed(|m.text|, 0, PiecesOf(spans, ts)) && Answer(v, sid, m).text == Assemble(m.text, 0, PiecesOf(spans, ts))
  {
    hide Assemble, Placed, MintAll, Dedup;
    PiecesPlaced(|m.text|, DedupWithin(m.text, m.results), MintedTokens(v, sid, m), 0);
  }

  lemma {:induction false} HeldLater(v: Vault, sid: string, m: Message, w: Vault)
    requires Sound(v) && AllMintable(m.results) && PlainMessage(m) && Grows(Recorded(v, sid, m), w)
    ensures var spans := DedupWithin(m.text, m.results);
      HoldsAll(w, sid, m.text, spans, MintedTokens(v, sid, m)) && PlainSpans(m.text, spans)
  {
    hide Sound, Grows, HoldsSpan, Recorded, NoDoubleBrace, BraceFree, AllMintable, MintedTokens, RightToLeft;
    var spans, ts := DedupWithin(m.text, m.results), MintedTokens(v, sid, m);
    forall i | 0 <= i < |spans|
      ensures Within(|m.text|, spans[i]) && HoldsSpan(w, sid, m.text, spans[i], ts[i])
    {
      assert spans[i] in spans;
      RecordedHolds(v, sid, m, i);
      HoldsLater(Recorded(v, sid, m), w, sid, m.text, spans[i], ts[i]);
    }
  }

  // ------------------------------------------------------------------ a whole session

  function RecordAll(v: Vault, sid: string, ms: seq<Message>): Vault
    decreases |ms|
  {
    if ms == [] then v else RecordAll(Recorded(v, sid, ms[0]), sid, ms[1..])
  }

  ghost predicate MintableHistory(ms: seq<Message>) {
    forall m :: m in ms ==> AllMintable(m.results)
  }

  lemma {:induction false} RecordAllKeeps(v: Vault, sid: string, ms: seq<Message>)
    requires Sound(v) && MintableHistory(ms)
    ensures Sound(RecordAll(v, sid, ms)) && Grows(v, RecordAll(v, sid, ms))
    decreases |ms|
  {
    GrowsItself(v);
    hide Sound, Grows, Recorded, AllMintable;
    if ms != [] {
      assert ms[0] in ms;
      RecordingKeeps(v, sid, ms[0]);
      RecordAllKeeps(Recorded(v, sid, ms[0]), sid, ms[1..]);
      GrowsTransitive(v, Recorded(v, sid, ms[0]), RecordAll(v, sid, ms));
    }
  }

  lemma {:induction false} RecordAllAppend(v: Vault, sid: string, ms: seq<Message>, m: Message)
    ensures RecordAll(v, sid, ms + [m]) == Recorded(RecordAll(v, sid, ms), sid, m)
    ensures TextSent(v, sid, ms + [m], |ms|) == Answer(RecordAll(v, sid, ms), sid, m).text
    decreases |ms|
  {
    hide Recorded, Answer;
    if ms == [] {
      assert [m][1..] == [] && ms + [m] == [m];
    } else {
      assert (ms + [m])[0] == ms[0] && (ms + [m])[1..] == ms[1..] + [m];
      RecordAllAppend(Recorded(v, sid, ms[0]), sid, ms[1..], m);
    }
  }

  lemma {:induction false} TextSentPrefix(v: Vault, sid: string, ms: seq<Message>, more: seq<Message>, i: nat)
    requires i < |ms|
    ensures TextSent(v, sid, ms + more, i) == TextSent(v, sid, ms, i)
    decreases |ms|
  {
    hide Recorded, Answer;
    assert (ms + more)[0] == ms[0] && (ms + more)[1..] == ms[1..] + more;
    if i > 0 {
      TextSentPrefix(Recorded(v, sid, ms[0]), sid, ms[1..], more, i - 1);
    }
  }

  /** The tokenized text of a session's `i`-th message. */
  function TextSent(v: Vault, sid: string, ms: seq<Message>, i: nat): string
    requires i < |ms|
    decreases |ms|
  {
    if i == 0 then Answer(v, sid, ms[0]).text
    else TextSent(Recorded(v, sid, ms[0]), sid, ms[1..], i - 1)
  }

  ghost predicate TypesAllowed(m: Message, allowed: set<string>) {
    forall s :: s in m.results ==> Normalize(s.entity) in allowed
  }

  lemma {:induction false} RecordedReadsBack(v: Vault, sid: string, m: Message, w: Vault, items: seq<Binding>, allowed: set<string>)
    requires Sound(v) && AllMintable(m.results) && PlainMessage(m) && TypesAllowed(m, allowed)
    requires Grows(Recorded(v, sid, m), w) && Sound(w) && Enumerates(items, w.tokens)
    ensures Detokenize(Answer(v, sid, m).text, items, allowed) == m.text
  {
    hide Sound, AllMintable, Enumerates, Grows, Recorded, Answer, Detokenize;
    RoleSeesMessage(v, sid, m, w, items, allowed);
    var spans, ts := DedupWithin(m.text, m.results), MintedTokens(v, sid, m);
    var ps := RolePieces(m.text, spans, ts, allowed);
    forall p | p in ps
      ensures p.start <= p.end <= |m.text| && p.fill.text == m.text[p.start..p.end]
    {
      var k :| 0 <= k < |ps| && ps[k] == p;
      var s := spans[|spans| - 1 - k];
      assert s in spans && Within(|m.text|, s) && s in m.results;
    }
    AssembleOriginal(m.text, 0, ps);
  }

  /** After any sequence of messages in a session, and however its vault grew since, a
      message without "{{" and with brace-free values, whatever the others hold, detokenizes
      from its tokenized text to exactly itself with the map the session then holds, in any
      order of that map, for a role allowed its entity types. */
  lemma {:induction false} SessionReadsBack(v: Vault, sid: string, ms: seq<Message>, i: nat, w: Vault, items: seq<Binding>, allowed: set<string>)
    requires Sound(v) && MintableHistory(ms) && i < |ms| && PlainMessage(ms[i])
    requires Grows(RecordAll(v, sid, ms), w) && Sound(w)
    requires Enumerates(items, w.tokens) && TypesAllowed(ms[i], allowed)
    ensures Detokenize(TextSent(v, sid, ms, i), items, allowed) == ms[i].text
    decreases |ms|
  {
    hide Sound, Grows, Recorded, Answer, PlainMessage, AllMintable, Enumerates, TypesAllowed, Detokenize;
    assert ms[0] in ms;
    RecordingKeeps(v, sid, ms[0]);
    var u, rest := Recorded(v, sid, ms[0]), ms[1..];
    if i == 0 {
      RecordAllKeeps(u, sid, rest);
      GrowsTransitive(u, RecordAll(u, sid, rest), w);
      RecordedReadsBack(v, sid, ms[0], w, items, allowed);
    } else {
      SessionReadsBack(u, sid, rest, i - 1, w, items, allowed);
    }
  }
}
