/** The chat endpoint as a pipeline of gates and effects. Every store command, every audit
    write and the model call may fail; nothing but a full pass reaches the model. */
module ChatPipeline {
  import opened Tokens
  import opened Detokenizer
  import opened Spans
  import opened Vault
  import opened RedisStore
  import opened Tokenizer
  import opened SessionRoundTrip

  /** What validating the Authorization header yields. */
  datatype Auth =
    | NoBearer
    | BadToken
    | Claims(sub: Option<string>, tenant: Option<string>, role: string, jti: string)

  /** `worst` is the rank of the worst injection finding in the content, if any. */
  datatype Turn = Turn(role: string, content: Message, worst: Option<nat>)

  datatype Sent = Sent(role: string, content: string)

  datatype Response =
    | Unauthorized | NotFound | Forbidden | Blocked | TokenizationFailed
    | Unavailable | Crashed | BadGateway
    | Completed(content: string)

  /** The answers that mean a step failed. */
  predicate IsFault(r: Response) {
    r.Crashed? || r.Unavailable? || r.TokenizationFailed? || r.BadGateway?
  }

  datatype AuditEvent =
    | AuthFailure
    | InjectionBlocked(severity: nat)
    | InjectionFlagged(severity: nat)
    | PiiDetected(count: nat)
    | ChatRequest

  /** What a request does to the world: audit records, and calls of the model with what it
      answered. */
  datatype Effect = Wrote(event: AuditEvent) | Called(payload: seq<Sent>, answer: Result<string>)

  // ------------------------------------------------------------------------- the gates

  datatype Gate = Refused(response: Response) | Open

  function TenantOf(t: Option<string>): string {
    if t.Some? then t.value else "default"
  }

  predicate Owns(auth: Auth, owner: Option<Owner>)
    requires auth.Claims?
  {
    owner.Some? && Some(owner.value.sub) == auth.sub && owner.value.tenant == TenantOf(auth.tenant)
  }

  predicate TokenOk(auth: Auth, revoked: set<string>) {
    auth.Claims? && (auth.jti == "" || auth.jti !in revoked)
  }

  /** The session gate, with the config read at one moment and the owner at another: an
      expired config is not found. */
  function SessionGate(auth: Auth, keys: Keys, configAt: nat, ownerAt: nat): Gate
    requires auth.Claims?
  {
    if !ConfigLive(keys, configAt) then Refused(NotFound)
    else if !Owns(auth, Read(keys.owner, ownerAt)) then Refused(Forbidden)
    else Open
  }

  predicate Blocks(t: Turn, blockAt: nat) {
    t.role == "user" && t.worst.Some? && blockAt <= t.worst.value
  }

  predicate AnyBlocks(turns: seq<Turn>, blockAt: nat) {
    exists i :: 0 <= i < |turns| && Blocks(turns[i], blockAt)
  }

  /** The first gate that refuses a request: authentication, revocation, session,
      ownership, prompt injection. */
  function Verdict(auth: Auth, revoked: set<string>, keys: Keys, configAt: nat, ownerAt: nat, turns: seq<Turn>, blockAt: nat): Gate {
    if !TokenOk(auth, revoked) then Refused(Unauthorized)
    else if SessionGate(auth, keys, configAt, ownerAt).Refused? then SessionGate(auth, keys, configAt, ownerAt)
    else if AnyBlocks(turns, blockAt) then Refused(Blocked)
    else Open
  }

  /** A verdict with the two reads somewhere in a stretch of time, in their order. */
  ghost predicate Judged(auth: Auth, revoked: set<string>, keys: Keys, from: nat, to: nat, turns: seq<Turn>, blockAt: nat, g: Gate) {
    exists t: nat, u: nat :: from <= t <= u <= to && Verdict(auth, revoked, keys, t, u, turns, blockAt) == g
  }

  ghost predicate SessionJudged(auth: Auth, keys: Keys, from: nat, to: nat, g: Gate)
    requires auth.Claims?
  {
    exists t: nat, u: nat :: from <= t <= u <= to && SessionGate(auth, keys, t, u) == g
  }

  /** A session that lives to the end is judged the same at any moment; one that was over
      at the start is not found. */
  lemma {:induction false} VerdictSettled(auth: Auth, revoked: set<string>, keys: Keys, from: nat, to: nat, turns: seq<Turn>, blockAt: nat, g: Gate)
    requires Outlived(keys, to) && Judged(auth, revoked, keys, from, to, turns, blockAt, g)
    ensures ConfigLive(keys, to) ==> g == Verdict(auth, revoked, keys, from, from, turns, blockAt)
    ensures !ConfigLive(keys, from) && TokenOk(auth, revoked) ==> g == Refused(NotFound)
  {
    hide AnyBlocks;
    var t: nat, u: nat :| from <= t <= u <= to && Verdict(auth, revoked, keys, t, u, turns, blockAt) == g;
  }

  // ----------------------------------------------------------------- injection findings

  predicate Flagged(t: Turn) {
    t.role == "user" && t.worst.Some?
  }

  /** The severity that ends up in the "flagged" record: the last flagged turn's. */
  function ReportedSeverity(turns: seq<Turn>): (r: Option<nat>)
    ensures r.None? <==> forall t :: t in turns ==> !Flagged(t)
  {
    if turns == [] then None
    else
      assert turns == turns[..|turns| - 1] + [turns[|turns| - 1]];
      if Flagged(turns[|turns| - 1]) then turns[|turns| - 1].worst
      else ReportedSeverity(turns[..|turns| - 1])
  }

  /** The severity the first blocking turn is refused with. */
  function BlockedSeverity(turns: seq<Turn>, blockAt: nat): nat {
    if turns == [] then 0
    else if Blocks(turns[0], blockAt) then turns[0].worst.value
    else BlockedSeverity(turns[1..], blockAt)
  }

  ghost predicate IsWorst(turns: seq<Turn>, severity: nat) {
    && (exists t :: t in turns && Flagged(t) && t.worst.value == severity)
    && forall t :: t in turns && Flagged(t) ==> t.worst.value <= severity
  }

  /** The `i`-th turn is the last flagged one. */
  ghost predicate LastFlagged(turns: seq<Turn>, i: nat) {
    i < |turns| && Flagged(turns[i]) && forall j :: i < j < |turns| ==> !Flagged(turns[j])
  }

  /** The reported severity is the worst one exactly when no earlier flagged turn ranks above
      the last. */
  lemma {:induction false} ReportedIsWorstExactly(turns: seq<Turn>, i: nat)
    requires LastFlagged(turns, i)
    ensures ReportedSeverity(turns) == turns[i].worst
    ensures IsWorst(turns, turns[i].worst.value) <==>
      forall j :: 0 <= j < i && Flagged(turns[j]) ==> turns[j].worst.value <= turns[i].worst.value
  {
    ReportedIsLast(turns, i);
    hide ReportedSeverity;
    assert turns[i] in turns;
    if IsWorst(turns, turns[i].worst.value) {
      assert forall j :: 0 <= j < i ==> turns[j] in turns;
    }
  }

  lemma {:induction false} ReportedIsLast(turns: seq<Turn>, i: nat)
    requires LastFlagged(turns, i)
    ensures ReportedSeverity(turns) == turns[i].worst
    decreases |turns|
  {
    if i < |turns| - 1 { ReportedIsLast(turns[..|turns| - 1], i); }
  }

  /** A medium finding followed by a low one, neither blocked at the high rank: "low" is
      recorded. */
  lemma {:induction false} MediumThenLow(m: Message)
    ensures var turns := [Turn("user", m, Some(2)), Turn("user", m, Some(1))];
      !AnyBlocks(turns, 3) && ReportedSeverity(turns) == Some(1) && IsWorst(turns, 2) && !IsWorst(turns, 1)
  {
    var turns := [Turn("user", m, Some(2)), Turn("user", m, Some(1))];
    assert turns[0] in turns && turns[1] in turns && Flagged(turns[0]) && Flagged(turns[1]);
  }

  // ---------------------------------------------------------------------- what is sent

  function Contents(turns: seq<Turn>): (ms: seq<Message>)
    ensures |ms| == |turns| && forall i :: 0 <= i < |ms| ==> ms[i] == turns[i].content
  {
    if turns == [] then [] else [turns[0].content] + Contents(turns[1..])
  }

  /** One tokenized message per input, in order. */
  ghost predicate PayloadOf(payload: seq<Sent>, v: Vault, sid: string, turns: seq<Turn>) {
    && |payload| == |turns|
    && forall i :: 0 <= i < |turns| ==>
         payload[i] == Sent(turns[i].role, TextSent(v, sid, Contents(turns), i))
  }

  /** The message with every kept span, and nothing else, replaced by a token. */
  ghost predicate MaskedTurn(sid: string, t: Turn, s: Sent) {
    s.role == t.role && exists r :: Masked(sid, t.content.text, t.content.results, r) && s.content == r.text
  }

  ghost predicate AllMasked(sid: string, payload: seq<Sent>, turns: seq<Turn>) {
    |payload| == |turns| && forall i :: 0 <= i < |turns| ==> MaskedTurn(sid, turns[i], payload[i])
  }

  lemma {:induction false} MaskedOneMore(sid: string, payload: seq<Sent>, turns: seq<Turn>, t: Turn, s: Sent)
    requires AllMasked(sid, payload, turns) && MaskedTurn(sid, t, s)
    ensures AllMasked(sid, payload + [s], turns + [t])
  {
    hide MaskedTurn;
  }

  /** How many spans the messages have replaced. */
  function EntityCount(turns: seq<Turn>): nat {
    if turns == [] then 0
    else
      var t := turns[|turns| - 1];
      EntityCount(turns[..|turns| - 1]) + |DedupWithin(t.content.text, t.content.results)|
  }

  lemma {:induction false} MaskedCount(sid: string, m: Message, r: Tokenized)
    requires Masked(sid, m.text, m.results, r)
    ensures |r.entities| == |DedupWithin(m.text, m.results)|
  {
    hide TokensFit, Dedup;
    var tokens :| MaskedWith(sid, m.text, DedupWithin(m.text, m.results), tokens, r);
  }

  lemma {:induction false} TurnMasked(sid: string, payload: seq<Sent>, done: seq<Turn>, t: Turn, r: Tokenized)
    requires AllMasked(sid, payload, done) && Masked(sid, t.content.text, t.content.results, r)
    ensures AllMasked(sid, payload + [Sent(t.role, r.text)], done + [t])
    ensures EntityCount(done + [t]) == EntityCount(done) + |r.entities|
  {
    hide Masked, AllMasked, Dedup;
    assert MaskedTurn(sid, t, Sent(t.role, r.text));
    MaskedOneMore(sid, payload, done, t, Sent(t.role, r.text));
    MaskedCount(sid, t.content, r);
    assert (done + [t])[..|done|] == done;
  }

  // -------------------------------------------------------------- what is left behind

  function FlagRecord(turns: seq<Turn>): seq<Effect> {
    var severity := ReportedSeverity(turns);
    if severity.Some? then [Wrote(InjectionFlagged(severity.value))] else []
  }

  function DetectRecord(count: nat): seq<Effect> {
    if count > 0 then [Wrote(PiiDetected(count))] else []
  }

  /** The course of a request past every gate: the findings and the detections are on
      record before the model is called. */
  function Course(turns: seq<Turn>, payload: seq<Sent>, answer: Result<string>): seq<Effect> {
    FlagRecord(turns) + (DetectRecord(EntityCount(turns)) + [Called(payload, answer), Wrote(ChatRequest)])
  }

  /** What an answer leaves behind: a refusal its record and nothing else, a completed one
      the whole course, a failure a part of either. */
  ghost predicate Leaves(auth: Auth, turns: seq<Turn>, blockAt: nat, es: seq<Effect>, r: Response) {
    match r
    case Unauthorized => es == if auth.NoBearer? then [] else [Wrote(AuthFailure)]
    case NotFound => es == []
    case Forbidden => es == [Wrote(AuthFailure)]
    case Blocked => es == [Wrote(InjectionBlocked(BlockedSeverity(turns, blockAt)))]
    case Completed(_) => exists p, a: Result<string> :: a.Ok? && es == Course(turns, p, a)
    case _ =>
      || es <= [Wrote(AuthFailure)] || es <= [Wrote(InjectionBlocked(BlockedSeverity(turns, blockAt)))]
      || exists p, a :: es <= Course(turns, p, a)
  }

  /** Every call of the model in it was made with every message masked. */
  ghost predicate CallsMasked(es: seq<Effect>, sid: string, turns: seq<Turn>) {
    forall e :: e in es && e.Called? ==> AllMasked(sid, e.payload, turns)
  }

  predicate NoCalls(es: seq<Effect>) {
    forall e :: e in es ==> !e.Called?
  }

  class Gateway {
    const store: SessionStore
    const blockAt: nat
    var revoked: set<string>
    var effects: seq<Effect>
    /** How many audit writes, denylist reads and model calls have failed. */
    ghost var failures: nat

    constructor (store: SessionStore, blockAt: nat)
      ensures this.store == store && this.blockAt == blockAt && effects == [] && revoked == {}
    {
      this.store := store;
      this.blockAt := blockAt;
      revoked, effects := {}, [];
      failures := 0;
    }

    /** The effects since a moment. */
    twostate function New(): seq<Effect>
      requires old(effects) <= effects
      reads this
    {
      effects[|old(effects)|..]
    }

    /** Something really failed, here or in the store, if `claimed` says so. */
    twostate predicate FailedIf(claimed: bool)
      reads this, store
    {
      && failures >= old(failures) && store.failed >= old(store.failed)
      && (claimed ==> failures > old(failures) || store.failed > old(store.failed))
    }

    /** An audit write: it may fail untried, or take effect and then fail. */
    method LogEvent(e: AuditEvent) returns (ok: bool)
      modifies this`effects, this`failures
      ensures effects == old(effects) || effects == old(effects) + [Wrote(e)]
      ensures ok ==> effects == old(effects) + [Wrote(e)]
      ensures FailedIf(!ok)
    {
      var done: bool := *;
      if done {
        effects := effects + [Wrote(e)];
        ok := *;
      } else {
        ok := false;
      }
      if !ok { failures := failures + 1; }
    }

    /** Validate the token and look its id up in the denylist. */
    method Authenticate(auth: Auth) returns (refusal: Option<Response>)
      modifies this`effects, this`failures
      ensures refusal.None? ==> TokenOk(auth, revoked) && effects == old(effects)
      ensures refusal.Some? ==> refusal.value.Unauthorized? || refusal.value.Crashed?
      ensures FailedIf(refusal == Some(Crashed))
      ensures refusal == Some(Unauthorized) ==>
                !TokenOk(auth, revoked) && effects == old(effects) + (if auth.NoBearer? then [] else [Wrote(AuthFailure)])
      ensures refusal == Some(Crashed) ==> effects == old(effects) || effects == old(effects) + [Wrote(AuthFailure)]
    {
      if auth.NoBearer? { return Some(Unauthorized); }
      if auth.BadToken? {
        var ok := LogEvent(AuthFailure);
        return Some(if ok then Unauthorized else Crashed);
      }
      if auth.jti != "" {
        var ok: bool := *;
        if !ok {
          failures := failures + 1;
          return Some(Crashed);
        }
        if auth.jti in revoked {
          ok := LogEvent(AuthFailure);
          return Some(if ok then Unauthorized else Crashed);
        }
      }
      refusal := None;
    }

    /** Load config and owner, and check that the caller owns the session. */
    method OpenSession(sid: string, auth: Auth) returns (refusal: Option<Response>)
      requires store.Valid() && auth.Claims?
      modifies store, this`effects, this`failures
      ensures store.Valid() && store.OthersUntouched(sid) && store.sessions == old(store.sessions)
      ensures refusal.None? ==> effects == old(effects) && ConfigLive(old(store.KeysOf(sid)), old(store.now))
      ensures refusal.Some? ==> refusal.value in {NotFound, Forbidden, Unavailable, Crashed}
      ensures FailedIf(refusal.Some? && IsFault(refusal.value))
      ensures refusal == Some(NotFound) ==> effects == old(effects)
      ensures refusal == Some(Forbidden) ==> effects == old(effects) + [Wrote(AuthFailure)]
      ensures refusal.Some? ==> effects == old(effects) || effects == old(effects) + [Wrote(AuthFailure)]
      ensures refusal.None? || !IsFault(refusal.value) ==>
                SessionJudged(auth, old(store.KeysOf(sid)), old(store.now), store.now,
                              if refusal.None? then Open else Refused(refusal.value))
    {
      var config := store.GetProviderConfig(sid);
      if config.Raised? { return Some(Unavailable); }
      ghost var configAt := store.now;
      var owner := store.GetSessionOwner(sid);
      if owner.Raised? { return Some(Unavailable); }
      ghost var gate := SessionGate(auth, store.KeysOf(sid), configAt, store.now);
      assert SessionJudged(auth, old(store.KeysOf(sid)), old(store.now), store.now, gate);
      if config.value.None? { return Some(NotFound); }
      if owner.value.None? || Some(owner.value.value.sub) != auth.sub || owner.value.value.tenant != TenantOf(auth.tenant) {
        var ok := LogEvent(AuthFailure);
        return Some(if ok then Forbidden else Crashed);
      }
      refusal := None;
    }

    /** Scan the user messages; refuse at the first that reaches the block severity, and
        otherwise record the severity of the last finding. */
    method GuardInjection(turns: seq<Turn>) returns (refusal: Option<Response>)
      modifies this`effects, this`failures
      ensures refusal.Some? ==> refusal.value.Blocked? || refusal.value.Crashed?
      ensures FailedIf(refusal == Some(Crashed))
      ensures refusal.None? ==> !AnyBlocks(turns, blockAt) && effects == old(effects) + FlagRecord(turns)
      ensures refusal == Some(Blocked) ==> AnyBlocks(turns, blockAt)
      ensures refusal.None? ==> forall t :: t in turns && t.role == "user" && t.worst.Some? ==> t.worst.value < blockAt
      ensures refusal == Some(Blocked) ==> exists t :: t in turns && t.role == "user" && t.worst.Some? && t.worst.value >= blockAt
      ensures refusal == Some(Blocked) ==> effects == old(effects) + [Wrote(InjectionBlocked(BlockedSeverity(turns, blockAt)))]
      ensures refusal == Some(Crashed) ==>
                || effects == old(effects) || effects == old(effects) + FlagRecord(turns)
                || effects == old(effects) + [Wrote(InjectionBlocked(BlockedSeverity(turns, blockAt)))]
    {
      var worst: Option<nat> := None;
      for i := 0 to |turns|
        invariant forall k :: 0 <= k < i ==> !Blocks(turns[k], blockAt)
        invariant worst == ReportedSeverity(turns[..i])
        invariant effects == old(effects) && FailedIf(false)
      {
        assert turns[..i + 1][..i] == turns[..i];
        if turns[i].role == "user" && turns[i].worst.Some? {
          if worst.None? || turns[i].worst.value != worst.value {
            worst := turns[i].worst;
          }
          if blockAt <= turns[i].worst.value {
            FirstBlocking(turns, blockAt, i);
            assert turns[i] in turns;
            var ok := LogEvent(InjectionBlocked(turns[i].worst.value));
            return Some(if ok then Blocked else Crashed);
          }
        }
      }
      assert turns[..|turns|] == turns;
      if worst.Some? {
        var ok := LogEvent(InjectionFlagged(worst.value));
        if !ok { return Some(Crashed); }
      }
      refusal := None;
    }

    /** Tokenize one message and merge its token map. */
    method TokenizeOne(sid: string, m: Message) returns (r: Tokenized, ok: bool)
      requires store.Valid()
      modifies store
      ensures store.Valid() && store.OthersUntouched(sid) && store.Counts(ok)
      ensures ok ==> Masked(sid, m.text, m.results, r)
      ensures AllMintable(m.results) ==> store.Kept(sid)
      ensures ok && ConfigLive(store.KeysOf(sid), store.now) && Sound(old(store.Contents(sid))) && AllMintable(m.results) ==>
                store.Contents(sid) == Recorded(old(store.Contents(sid)), sid, m) && r == Answer(old(store.Contents(sid)), sid, m)
    {
      hide Sound, Grows, AllMintable, TokenizedFrom, Recorded, Answer, Masked, View, Healthy;
      ghost var w := store.Contents(sid);
      ghost var watched := Sound(w) && AllMintable(m.results);
      var t := RunTokenize(store, sid, m.text, m.results);
      if t.Raised? { return Tokenized("", [], map[]), false; }
      ghost var u := store.Contents(sid);
      if watched && ConfigLive(store.KeysOf(sid), store.now) {
        TokenizedIsAnswer(w, u, sid, m, t.value);
        RecordingKeeps(w, sid, m);
      }
      ok := store.UpdateTokenMap(sid, t.value.tokenMap);
      r := t.value;
    }

    /** Tokenize every message and merge its token map; any failure refuses. */
    method TokenizeAll(sid: string, turns: seq<Turn>)
      returns (payload: seq<Sent>, entities: nat, ok: bool)
      requires store.Valid()
      modifies store
      ensures store.Valid() && store.OthersUntouched(sid) && store.Counts(ok)
      ensures ok ==> AllMasked(sid, payload, turns) && entities == EntityCount(turns)
      ensures MintableHistory(Contents(turns)) ==> store.Kept(sid)
      ensures ok && ConfigLive(store.KeysOf(sid), store.now) && Sound(old(store.Contents(sid))) && MintableHistory(Contents(turns)) ==>
                RecordedSoFar(old(store.Contents(sid)), store.Contents(sid), sid, turns, payload)
    {
      hide Sound, Grows, AllMintable, RecordedSoFar, MintableHistory, RecordAll, Masked, AllMasked, View, Healthy, Recorded, Answer,
        EntityCount, Contents;
      ghost var v := store.Contents(sid);
      ghost var watched := Sound(v) && MintableHistory(Contents(turns));
      payload := [];
      entities := 0;
      RecordedSoFarNone(v, sid);
      NoneMasked(sid);
      assert turns[..0] == [];
      if watched { SoundSoFar(v, sid, turns); GrowsItself(v); }
      for n := 0 to |turns|
        invariant store.Valid() && store.OthersUntouched(sid) && store.Counts(true)
        invariant AllMasked(sid, payload, turns[..n]) && entities == EntityCount(turns[..n])
        invariant watched && ConfigLive(store.KeysOf(sid), store.now) ==>
                    Grows(v, store.Contents(sid)) && RecordedSoFar(v, store.Contents(sid), sid, turns[..n], payload)
      {
        assert turns[..n + 1] == turns[..n] + [turns[n]];
        ghost var w := store.Contents(sid);
        if watched && ConfigLive(store.KeysOf(sid), store.now) { RecordedIs(v, w, sid, turns[..n], payload); }
        var r;
        r, ok := TokenizeOne(sid, turns[n].content);
        if watched && ConfigLive(store.KeysOf(sid), store.now) { GrowsTransitive(v, w, store.Contents(sid)); }
        if !ok { return; }
        if watched && ConfigLive(store.KeysOf(sid), store.now) {
          RecordedOneMore(v, w, sid, turns[..n], payload, turns[n]);
        }
        TurnMasked(sid, payload, turns[..n], turns[n], r);
        payload := payload + [Sent(turns[n].role, r.text)];
        entities := entities + |r.entities|;
      }
      assert turns[..|turns|] == turns;
      if watched && ConfigLive(store.KeysOf(sid), store.now) { RecordedIs(v, store.Contents(sid), sid, turns, payload); }
      ok := true;
    }

    /** Hand the payload to the model: the one step that leaves the gateway. */
    method RouteToLlm(payload: seq<Sent>) returns (r: Result<string>)
      modifies this`effects, this`failures
      ensures effects == old(effects) + [Called(payload, r)]
      ensures FailedIf(r.Raised?)
    {
      r :| true;
      if r.Raised? { failures := failures + 1; }
      effects := effects + [Called(payload, r)];
    }

    /** All gates in order. */
    method Admit(sid: string, auth: Auth, turns: seq<Turn>) returns (refusal: Option<Response>)
      requires store.Valid()
      modifies store, this`effects, this`failures
      ensures store.Valid() && store.OthersUntouched(sid) && store.sessions == old(store.sessions)
      ensures refusal.None? ==> effects == old(effects) + FlagRecord(turns)
      ensures refusal.None? ==> ConfigLive(old(store.KeysOf(sid)), old(store.now))
      ensures old(effects) <= effects && (refusal.Some? ==> NoCalls(New()))
      ensures FailedIf(refusal.Some? && IsFault(refusal.value))
      ensures refusal.None? ==> forall t :: t in turns && t.role == "user" && t.worst.Some? ==> t.worst.value < blockAt
      ensures refusal.Some? ==> !refusal.value.Completed? && Leaves(auth, turns, blockAt, New(), refusal.value)
      ensures refusal.None? || !IsFault(refusal.value) ==>
                Judged(auth, revoked, old(store.KeysOf(sid)), old(store.now), store.now, turns, blockAt,
                       if refusal.None? then Open else Refused(refusal.value))
    {
      hide AnyBlocks, ReportedSeverity, BlockedSeverity, ConfigLive, Owns, TokenOk, Healthy, FlagRecord;
      refusal := Authenticate(auth);
      if refusal.Some? {
        if !IsFault(refusal.value) { EarlyVerdict(auth, revoked, store.KeysOf(sid), store.now, turns, blockAt); }
        RefusalLeaves(auth, turns, blockAt, New(), refusal.value);
        return;
      }
      refusal := OpenSession(sid, auth);
      if refusal.Some? {
        if !IsFault(refusal.value) {
          SessionVerdict(auth, revoked, old(store.KeysOf(sid)), old(store.now), store.now, turns, blockAt, Refused(refusal.value));
        }
        RefusalLeaves(auth, turns, blockAt, New(), refusal.value);
        return;
      }
      SessionVerdict(auth, revoked, old(store.KeysOf(sid)), old(store.now), store.now, turns, blockAt, Open);
      refusal := GuardInjection(turns);
      FlagsCallNothing(turns);
      if refusal.Some? { RefusalLeaves(auth, turns, blockAt, New(), refusal.value); }
    }

    /** Record the detections, call the model and restore what the caller's role may see
        in its answer. */
    method Forward(sid: string, payload: seq<Sent>, entities: nat, allowed: set<string>) returns (response: Response)
      requires store.Valid()
      modifies store, this`effects, this`failures
      ensures store.Valid() && store.OthersUntouched(sid) && store.sessions == old(store.sessions)
      ensures response.Completed? || IsFault(response)
      ensures FailedIf(IsFault(response))
      ensures exists a :: Outcome(old(effects), effects, DetectRecord(entities), payload, a, response)
      ensures response.Completed? && ConfigLive(store.KeysOf(sid), store.now) ==>
                exists a: Result<string>, items :: a.Ok? && effects == old(effects) + DetectRecord(entities) + [Called(payload, a), Wrote(ChatRequest)]
                  && Enumerates(items, store.Contents(sid).tokens) && response.content == Detokenize(a.value, items, allowed)
    {
      hide Detokenize, View, Healthy, Enumerates;
      ghost var e0 := effects;
      if entities > 0 {
        var ok := LogEvent(PiiDetected(entities));
        if !ok {
          assert Outcome(e0, effects, DetectRecord(entities), payload, Raised, Crashed);
          return Crashed;
        }
      }
      assert effects == e0 + DetectRecord(entities);
      var answer := RouteToLlm(payload);
      assert Outcome(e0, effects, DetectRecord(entities), payload, answer, Crashed);
      if answer.Raised? {
        assert Outcome(e0, effects, DetectRecord(entities), payload, answer, BadGateway);
        return BadGateway;
      }
      var tokenMap := store.GetTokenMap(sid);
      if tokenMap.Raised? { return Crashed; }
      var items := ListTokenMap(tokenMap.value);
      var detokenized := RunDetokenize(answer.value, items, allowed);
      var ok := LogEvent(ChatRequest);
      if !ok {
        assert Outcome(e0, effects, DetectRecord(entities), payload, answer, Crashed);
        return Crashed;
      }
      assert effects == e0 + DetectRecord(entities) + [Called(payload, answer), Wrote(ChatRequest)];
      assert Outcome(e0, effects, DetectRecord(entities), payload, answer, Completed(detokenized));
      assert ConfigLive(store.KeysOf(sid), store.now) ==> Enumerates(items, store.Contents(sid).tokens);
      return Completed(detokenized);
    }

    /** Past the gates: mask and record every message, then forward them. `before` is the
        effect log from before the gates, which have added the findings. */
    method Serve(sid: string, auth: Auth, turns: seq<Turn>, allowed: set<string>, ghost before: seq<Effect>) returns (response: Response)
      requires store.Valid() && effects == before + FlagRecord(turns)
      modifies store, this`effects, this`failures
      ensures store.Valid() && store.OthersUntouched(sid)
      ensures response.Completed? || IsFault(response)
      ensures FailedIf(IsFault(response))
      ensures before <= effects && Leaves(auth, turns, blockAt, effects[|before|..], response)
      ensures CallsMasked(effects[|before|..], sid, turns)
      ensures MintableHistory(Contents(turns)) ==> store.Kept(sid)
      ensures ConfigLive(store.KeysOf(sid), store.now) && Sound(old(store.Contents(sid))) && MintableHistory(Contents(turns)) ==>
                AllRecorded(effects[|before|..], old(store.Contents(sid)), store.Contents(sid), sid, turns)
      ensures response.Completed? && ConfigLive(store.KeysOf(sid), store.now) ==>
                exists p, a: Result<string>, items :: a.Ok? && effects[|before|..] == Course(turns, p, a)
                  && Enumerates(items, store.Contents(sid).tokens) && response.content == Detokenize(a.value, items, allowed)
    {
      hide Sound, Grows, MintableHistory, RecordedSoFar, View, Detokenize, Enumerates, AllMasked, FlagRecord, DetectRecord, EntityCount,
        Leaves, Outcome, Course, CallsMasked, AllRecorded;
      ghost var v := store.Contents(sid);
      if Sound(v) { GrowsItself(v); }
      var payload, entities, ok := TokenizeAll(sid, turns);
      if !ok {
        assert effects[|before|..] == FlagRecord(turns);
        PartOfCourse(auth, turns, blockAt, TokenizationFailed);
        FlagsCallNothing(turns);
        NoCallsTrivially(FlagRecord(turns), v, store.Contents(sid), sid, turns);
        return TokenizationFailed;
      }
      ghost var w, e1 := store.Contents(sid), effects;
      assert MintableHistory(Contents(turns)) ==> store.Kept(sid);
      response := Forward(sid, payload, entities, allowed);
      assert store.Contents(sid) == w;
      ghost var a :| Outcome(e1, effects, DetectRecord(entities), payload, a, response);
      CourseTaken(auth, turns, blockAt, before, e1, effects, sid, payload, a, response, v, store.Contents(sid));
      if response.Completed? && ConfigLive(store.KeysOf(sid), store.now) {
        ghost var b: Result<string>, items :| b.Ok? && effects == e1 + DetectRecord(entities) + [Called(payload, b), Wrote(ChatRequest)]
          && Enumerates(items, store.Contents(sid).tokens) && response.content == Detokenize(b.value, items, allowed);
        CourseIs(turns, before, e1, effects, payload, b);
      }
    }

    /** The chat endpoint. */
    method ChatCompletions(sid: string, auth: Auth, turns: seq<Turn>, allowed: set<string>) returns (response: Response)
      requires store.Valid()
      modifies store, this`effects, this`failures
      ensures store.Valid() && store.OthersUntouched(sid)
      // What it leaves behind, and in which order.
      ensures old(effects) <= effects && Leaves(auth, turns, blockAt, New(), response)
      // The model is called only past every gate, on a session that had not expired, and
      // with every message masked.
      ensures CallsMasked(New(), sid, turns)
      ensures !NoCalls(New()) ==>
                && ConfigLive(old(store.KeysOf(sid)), old(store.now))
                && Judged(auth, revoked, old(store.KeysOf(sid)), old(store.now), store.now, turns, blockAt, Open)
      // An answer that reports a failure is one in which a step failed.
      ensures FailedIf(IsFault(response))
      // An answer that reports no failure is the verdict of the gates.
      ensures !IsFault(response) ==>
                Judged(auth, revoked, old(store.KeysOf(sid)), old(store.now), store.now, turns, blockAt,
                       if response.Completed? then Open else Refused(response))
      // Whatever failed, the session's vault stays sound and loses nothing.
      ensures MintableHistory(Contents(turns)) ==> store.Kept(sid)
      // Whatever left was recorded, message by message.
      ensures ConfigLive(store.KeysOf(sid), store.now) && Sound(old(store.Contents(sid))) && MintableHistory(Contents(turns)) ==>
                AllRecorded(New(), old(store.Contents(sid)), store.Contents(sid), sid, turns)
      // What the caller reads is the model's answer detokenized for its role.
      ensures response.Completed? && ConfigLive(store.KeysOf(sid), store.now) ==>
                exists p, a: Result<string>, items :: a.Ok? && New() == Course(turns, p, a)
                  && Enumerates(items, store.Contents(sid).tokens) && response.content == Detokenize(a.value, items, allowed)
      // The gates in the request's own terms: what getting past them implies,
      ensures !NoCalls(New()) || response.NotFound? || response.Forbidden? || response.Blocked? ==>
                auth.Claims? && (auth.jti == "" || auth.jti !in revoked)
      ensures !NoCalls(New()) || response.Blocked? ==>
                && old(store.KeysOf(sid)).owner.Some?
                && auth.sub == Some(old(store.KeysOf(sid)).owner.value.value.sub)
                && old(store.KeysOf(sid)).owner.value.value.tenant == (if auth.tenant.Some? then auth.tenant.value else "default")
      ensures !NoCalls(New()) ==> forall t :: t in turns && t.role == "user" && t.worst.Some? ==> t.worst.value < blockAt
      // what each refusal implies,
      ensures response.Unauthorized? ==> !auth.Claims? || (auth.jti != "" && auth.jti in revoked)
      ensures response.NotFound? ==> !ConfigLive(old(store.KeysOf(sid)), store.now)
      ensures response.Forbidden? && ConfigLive(old(store.KeysOf(sid)), store.now) ==>
                || old(store.KeysOf(sid)).owner.None?
                || auth.sub != Some(old(store.KeysOf(sid)).owner.value.value.sub)
                || old(store.KeysOf(sid)).owner.value.value.tenant != (if auth.tenant.Some? then auth.tenant.value else "default")
      ensures response.Blocked? ==>
                exists i :: 0 <= i < |turns| && turns[i].role == "user" && turns[i].worst.Some? && turns[i].worst.value >= blockAt
                  && New() == [Wrote(InjectionBlocked(turns[i].worst.value))]
                  && forall j :: 0 <= j < i && turns[j].role == "user" && turns[j].worst.Some? ==> turns[j].worst.value < blockAt
      // and which records stand before a call.
      ensures OnRecordFirst(turns, New())
      // A request that every gate should let through, and in which nothing failed, is answered.
      ensures failures == old(failures) && store.failed == old(store.failed) && ConfigLive(old(store.KeysOf(sid)), store.now)
                && auth.Claims? && (auth.jti == "" || auth.jti !in revoked)
                && old(store.KeysOf(sid)).owner.Some?
                && auth.sub == Some(old(store.KeysOf(sid)).owner.value.value.sub)
                && old(store.KeysOf(sid)).owner.value.value.tenant == (if auth.tenant.Some? then auth.tenant.value else "default")
                && (forall t :: t in turns && t.role == "user" && t.worst.Some? ==> t.worst.value < blockAt) ==>
                response.Completed?
    {
      hide Sound, Grows, MintableHistory, View, Verdict, Detokenize, Enumerates, FlagRecord, DetectRecord, EntityCount, ConfigLive,
        OnRecordFirst, Leaves, Judged, Course, CallsMasked, AllRecorded, Outlived, HoldsTokens;
      ghost var v, k0, t0 := store.Contents(sid), store.KeysOf(sid), store.now;
      assert Healthy(k0, t0);
      if Sound(v) { GrowsItself(v); }
      ghost var e0 := effects;
      var refusal := Admit(sid, auth, turns);
      if refusal.Some? {
        NoCallsTrivially(New(), v, store.Contents(sid), sid, turns);
        response := refusal.value;
      } else {
        ghost var judgedAt := store.now;
        response := Serve(sid, auth, turns, allowed, e0);
        LaterJudged(auth, revoked, k0, t0, judgedAt, store.now, turns, blockAt, Open);
      }
      OutlivedLater(k0, t0, store.now);
      if !NoCalls(New()) { JudgedMeans(auth, revoked, k0, t0, store.now, turns, blockAt, Open); }
      if !IsFault(response) {
        JudgedMeans(auth, revoked, k0, t0, store.now, turns, blockAt, if response.Completed? then Open else Refused(response));
      }
      LeavesMeans(auth, turns, blockAt, New(), response);
    }

    method ListTokenMap(m: map<string, string>) returns (items: seq<Binding>)
      ensures Enumerates(items, m)
    {
      items := [];
      var left := m;
      while left != map[]
        invariant forall t :: t in left ==> t in m && left[t] == m[t]
        invariant DistinctTokens(items)
        invariant forall b :: b in items ==> b.token in m && m[b.token] == b.value && b.token !in left
        invariant forall t :: t in m ==> t in left || Binding(t, m[t]) in items
        decreases |left|
      {
        assert left.Keys != {};
        var t :| t in left;
        items := items + [Binding(t, left[t])];
        left := left - {t};
      }
    }
  }

  // ----------------------------------------------------------------- effect bookkeeping

  /** Every payload that left is the messages recorded from `v` to `w`. */
  ghost predicate AllRecorded(es: seq<Effect>, v: Vault, w: Vault, sid: string, turns: seq<Turn>) {
    forall e :: e in es && e.Called? ==> RecordedSoFar(v, w, sid, turns, e.payload)
  }

  /** What forwarding adds: all of its effects when it completes, else some of the first. */
  ghost predicate Outcome(before: seq<Effect>, after: seq<Effect>, detect: seq<Effect>, payload: seq<Sent>, a: Result<string>, r: Response) {
    && before <= after
    && after[|before|..] <= detect + [Called(payload, a), Wrote(ChatRequest)]
    && (r.Completed? ==> a.Ok? && after[|before|..] == detect + [Called(payload, a), Wrote(ChatRequest)])
  }

  lemma {:induction false} FirstBlocking(turns: seq<Turn>, blockAt: nat, i: nat)
    requires i < |turns| && Blocks(turns[i], blockAt) && forall k :: 0 <= k < i ==> !Blocks(turns[k], blockAt)
    ensures BlockedSeverity(turns, blockAt) == turns[i].worst.value && AnyBlocks(turns, blockAt)
    decreases i
  {
    if i > 0 { FirstBlocking(turns[1..], blockAt, i - 1); }
  }

  lemma {:induction false} EarlyVerdict(auth: Auth, revoked: set<string>, keys: Keys, now: nat, turns: seq<Turn>, blockAt: nat)
    requires !TokenOk(auth, revoked)
    ensures Judged(auth, revoked, keys, now, now, turns, blockAt, Refused(Unauthorized))
  {
    assert Verdict(auth, revoked, keys, now, now, turns, blockAt) == Refused(Unauthorized);
  }

  lemma {:induction false} SessionVerdict(auth: Auth, revoked: set<string>, keys: Keys, from: nat, to: nat, turns: seq<Turn>, blockAt: nat, g: Gate)
    requires TokenOk(auth, revoked) && SessionJudged(auth, keys, from, to, g)
    ensures Judged(auth, revoked, keys, from, to, turns, blockAt,
                   if g.Refused? then g else if AnyBlocks(turns, blockAt) then Refused(Blocked) else Open)
  {
    hide AnyBlocks, SessionGate;
    var t: nat, u: nat :| from <= t <= u <= to && SessionGate(auth, keys, t, u) == g;
    assert Verdict(auth, revoked, keys, t, u, turns, blockAt)
        == if g.Refused? then g else if AnyBlocks(turns, blockAt) then Refused(Blocked) else Open;
  }

  /** A judgement in the terms of the request. */
  lemma {:induction false} JudgedMeans(auth: Auth, revoked: set<string>, keys: Keys, from: nat, to: nat, turns: seq<Turn>, blockAt: nat, g: Gate)
    requires Judged(auth, revoked, keys, from, to, turns, blockAt, g) && Outlived(keys, to)
    ensures g == Open || g == Refused(NotFound) || g == Refused(Forbidden) || g == Refused(Blocked) ==>
      auth.Claims? && (auth.jti == "" || auth.jti !in revoked)
    ensures g == Open || g == Refused(Blocked) ==>
      && keys.owner.Some? && auth.sub == Some(keys.owner.value.value.sub)
      && keys.owner.value.value.tenant == (if auth.tenant.Some? then auth.tenant.value else "default")
    ensures g == Open ==> forall t :: t in turns && t.role == "user" && t.worst.Some? ==> t.worst.value < blockAt
    ensures g == Refused(Unauthorized) ==> !auth.Claims? || (auth.jti != "" && auth.jti in revoked)
    ensures g == Refused(NotFound) ==> !ConfigLive(keys, to)
    ensures g == Refused(Forbidden) && ConfigLive(keys, to) ==>
      || keys.owner.None? || auth.sub != Some(keys.owner.value.value.sub)
      || keys.owner.value.value.tenant != (if auth.tenant.Some? then auth.tenant.value else "default")
    ensures g == Refused(Blocked) ==> exists t :: t in turns && t.role == "user" && t.worst.Some? && t.worst.value >= blockAt
  {
    var t: nat, u: nat :| from <= t <= u <= to && Verdict(auth, revoked, keys, t, u, turns, blockAt) == g;
    if g == Refused(Blocked) {
      var i :| 0 <= i < |turns| && Blocks(turns[i], blockAt);
      assert turns[i] in turns;
    }
    if g == Open {
      forall x | x in turns && x.role == "user" && x.worst.Some? ensures x.worst.value < blockAt {
        var i :| 0 <= i < |turns| && turns[i] == x;
        assert !Blocks(turns[i], blockAt);
      }
    }
  }

  /** Some message has a span that is replaced. */
  ghost predicate AnyEntity(turns: seq<Turn>) {
    exists t :: t in turns && DedupWithin(t.content.text, t.content.results) != []
  }

  /** A call of the model comes after the record of the findings, and right after the
      record of the detections. */
  ghost predicate OnRecordFirst(turns: seq<Turn>, es: seq<Effect>) {
    forall k :: 0 <= k < |es| && es[k].Called? ==>
      && (AnyEntity(turns) ==> k > 0 && es[k - 1].Wrote? && es[k - 1].event.PiiDetected? && es[k - 1].event.count > 0)
      && ((exists t :: t in turns && t.role == "user" && t.worst.Some?) ==> es[0].Wrote? && es[0].event.InjectionFlagged?)
      && (forall i: nat :: i < |turns| && LastFlagged(turns, i) && turns[i].worst.Some? ==> es[0] == Wrote(InjectionFlagged(turns[i].worst.value)))
  }

  lemma {:induction false} AnyEntityCounts(turns: seq<Turn>)
    ensures AnyEntity(turns) <==> EntityCount(turns) > 0
    decreases |turns|
  {
    hide Dedup;
    if turns != [] {
      var init, t := turns[..|turns| - 1], turns[|turns| - 1];
      AnyEntityCounts(init);
      assert turns == init + [t];
    }
  }

  lemma {:induction false} FlaggedReported(turns: seq<Turn>)
    ensures (exists t :: t in turns && t.role == "user" && t.worst.Some?) <==> ReportedSeverity(turns).Some?
  {
    var r := ReportedSeverity(turns);
    hide ReportedSeverity;
    if r.Some? {
      var t :| t in turns && Flagged(t);
    }
  }

  lemma {:induction false} LastReported(turns: seq<Turn>, i: nat)
    requires LastFlagged(turns, i)
    ensures ReportedSeverity(turns).Some? && turns[i].worst == ReportedSeverity(turns)
  {
    ReportedIsLast(turns, i);
  }

  /** The records before a call, in the terms of the request. */
  lemma {:induction false} CourseMeans(turns: seq<Turn>, es: seq<Effect>, p: seq<Sent>, a: Result<string>)
    requires es <= Course(turns, p, a)
    ensures OnRecordFirst(turns, es)
  {
    hide AnyEntity, EntityCount, ReportedSeverity, LastFlagged;
    AnyEntityCounts(turns);
    FlaggedReported(turns);
    forall i: nat | i < |turns| && LastFlagged(turns, i) ensures ReportedSeverity(turns).Some? && turns[i].worst == ReportedSeverity(turns) {
      LastReported(turns, i);
    }
    var flag, detect := FlagRecord(turns), DetectRecord(EntityCount(turns));
    assert es <= flag + (detect + [Called(p, a), Wrote(ChatRequest)]);
  }

  lemma {:induction false} OutlivedLater(k: Keys, t: nat, u: nat)
    requires Healthy(k, t) && t <= u
    ensures Outlived(k, u)
  {
    hide HoldsTokens;
  }

  /** What an answer leaves behind, in the terms of the request. */
  lemma {:induction false} LeavesMeans(auth: Auth, turns: seq<Turn>, blockAt: nat, es: seq<Effect>, r: Response)
    requires Leaves(auth, turns, blockAt, es, r)
    requires r.Blocked? ==> exists t :: t in turns && t.role == "user" && t.worst.Some? && t.worst.value >= blockAt
    ensures r.Blocked? ==>
      exists i :: 0 <= i < |turns| && turns[i].role == "user" && turns[i].worst.Some? && turns[i].worst.value >= blockAt
        && es == [Wrote(InjectionBlocked(turns[i].worst.value))]
        && forall j :: 0 <= j < i && turns[j].role == "user" && turns[j].worst.Some? ==> turns[j].worst.value < blockAt
    ensures OnRecordFirst(turns, es)
  {
    hide AnyEntity, BlockedSeverity, Course, ReportedSeverity, EntityCount;
    if r.Blocked? {
      var t :| t in turns && t.role == "user" && t.worst.Some? && t.worst.value >= blockAt;
      var i :| 0 <= i < |turns| && turns[i] == t;
      assert Blocks(turns[i], blockAt);
      FirstBlocked(turns, blockAt);
    } else if p, a :| es <= Course(turns, p, a) {
      CourseMeans(turns, es, p, a);
    }
  }

  lemma {:induction false} FirstBlocked(turns: seq<Turn>, blockAt: nat)
    requires AnyBlocks(turns, blockAt)
    ensures exists i :: (
      && 0 <= i < |turns| && turns[i].role == "user" && turns[i].worst.Some? && turns[i].worst.value >= blockAt
      && BlockedSeverity(turns, blockAt) == turns[i].worst.value
      && forall j :: 0 <= j < i && turns[j].role == "user" && turns[j].worst.Some? ==> turns[j].worst.value < blockAt)
  {
    var i := 0;
    while !Blocks(turns[i], blockAt)
      invariant 0 <= i < |turns| && forall j :: 0 <= j < i ==> !Blocks(turns[j], blockAt)
      decreases |turns| - i
    {
      i := i + 1;
    }
    FirstBlocking(turns, blockAt, i);
  }

  lemma {:induction false} LaterJudged(auth: Auth, revoked: set<string>, keys: Keys, from: nat, to: nat, later: nat, turns: seq<Turn>, blockAt: nat, g: Gate)
    requires Judged(auth, revoked, keys, from, to, turns, blockAt, g) && to <= later
    ensures Judged(auth, revoked, keys, from, later, turns, blockAt, g)
  {
    hide Verdict;
    var t: nat, u: nat :| from <= t <= u <= to && Verdict(auth, revoked, keys, t, u, turns, blockAt) == g;
  }

  /** A refusal's effects are its own. */
  lemma {:induction false} RefusalLeaves(auth: Auth, turns: seq<Turn>, blockAt: nat, es: seq<Effect>, r: Response)
    requires r.Unauthorized? ==> es == if auth.NoBearer? then [] else [Wrote(AuthFailure)]
    requires r.NotFound? ==> es == []
    requires r.Forbidden? ==> es == [Wrote(AuthFailure)]
    requires r.Blocked? ==> es == [Wrote(InjectionBlocked(BlockedSeverity(turns, blockAt)))]
    requires !r.Completed? && (es == [] || es == [Wrote(AuthFailure)] || es == FlagRecord(turns)
      || es == [Wrote(InjectionBlocked(BlockedSeverity(turns, blockAt)))])
    ensures Leaves(auth, turns, blockAt, es, r) && NoCalls(es)
  {
    hide BlockedSeverity, ReportedSeverity, EntityCount;
    FlagsCallNothing(turns);
    if es == FlagRecord(turns) && IsFault(r) { PartOfCourse(auth, turns, blockAt, r); }
  }

  lemma {:induction false} FlagsCallNothing(turns: seq<Turn>)
    ensures NoCalls(FlagRecord(turns))
  {
    hide ReportedSeverity;
  }

  lemma {:induction false} PartOfCourse(auth: Auth, turns: seq<Turn>, blockAt: nat, r: Response)
    requires IsFault(r)
    ensures Leaves(auth, turns, blockAt, FlagRecord(turns), r)
  {
    hide FlagRecord, DetectRecord, EntityCount, BlockedSeverity;
    assert FlagRecord(turns) <= Course(turns, [], Raised);
  }

  lemma {:induction false} NoCallsTrivially(es: seq<Effect>, v: Vault, w: Vault, sid: string, turns: seq<Turn>)
    requires NoCalls(es)
    ensures CallsMasked(es, sid, turns) && AllRecorded(es, v, w, sid, turns)
  {
    hide AllMasked, RecordedSoFar;
  }

  /** A request past the gates leaves its course, or the part it reached. */
  lemma {:induction false} CourseTaken(auth: Auth, turns: seq<Turn>, blockAt: nat, e0: seq<Effect>, e1: seq<Effect>, e2: seq<Effect>,
                                       sid: string, payload: seq<Sent>, a: Result<string>, r: Response, v: Vault, w: Vault)
    requires e1 == e0 + FlagRecord(turns) && AllMasked(sid, payload, turns) && (r.Completed? || IsFault(r))
    requires Outcome(e1, e2, DetectRecord(EntityCount(turns)), payload, a, r)
    ensures e0 <= e2 && Leaves(auth, turns, blockAt, e2[|e0|..], r) && CallsMasked(e2[|e0|..], sid, turns)
    ensures RecordedSoFar(v, w, sid, turns, payload) ==> AllRecorded(e2[|e0|..], v, w, sid, turns)
  {
    hide AllMasked, RecordedSoFar, EntityCount, BlockedSeverity, FlagRecord, DetectRecord, Outcome, Course;
    PartTaken(turns, e0, e1, e2, payload, a, r);
    CourseCalls(turns, payload, a);
    forall e | e in e2[|e0|..] && e.Called? ensures e == Called(payload, a) {
      var i :| 0 <= i < |e2[|e0|..]| && e2[|e0|..][i] == e;
      assert Course(turns, payload, a)[i] == e;
    }
  }

  lemma {:induction false} PartTaken(turns: seq<Turn>, e0: seq<Effect>, e1: seq<Effect>, e2: seq<Effect>,
                                     payload: seq<Sent>, a: Result<string>, r: Response)
    requires e1 == e0 + FlagRecord(turns) && Outcome(e1, e2, DetectRecord(EntityCount(turns)), payload, a, r)
    ensures e0 <= e2 && e2[|e0|..] <= Course(turns, payload, a)
    ensures r.Completed? ==> a.Ok? && e2[|e0|..] == Course(turns, payload, a)
  {
    hide EntityCount, FlagRecord, DetectRecord;
    var flag, rest := FlagRecord(turns), e2[|e1|..];
    assert e2 == e1 + rest && e2 == e0 + (flag + rest);
    assert e2[|e0|..] == flag + rest;
  }

  lemma {:induction false} CourseCalls(turns: seq<Turn>, payload: seq<Sent>, a: Result<string>)
    ensures forall e :: e in Course(turns, payload, a) && e.Called? ==> e == Called(payload, a)
  {
    hide EntityCount, ReportedSeverity;
  }

  lemma {:induction false} CourseIs(turns: seq<Turn>, e0: seq<Effect>, e1: seq<Effect>, e2: seq<Effect>, payload: seq<Sent>, a: Result<string>)
    requires e1 == e0 + FlagRecord(turns)
    requires e2 == e1 + DetectRecord(EntityCount(turns)) + [Called(payload, a), Wrote(ChatRequest)]
    ensures e0 <= e2 && e2[|e0|..] == Course(turns, payload, a)
  {
    hide FlagRecord, DetectRecord, EntityCount;
    assert e2 == e0 + Course(turns, payload, a);
  }

  // --------------------------------------------------------------- loop bookkeeping

  ghost predicate RecordedSoFar(v: Vault, w: Vault, sid: string, turns: seq<Turn>, payload: seq<Sent>) {
    w == RecordAll(v, sid, Contents(turns)) && PayloadOf(payload, v, sid, turns)
  }

  lemma {:induction false} NoneMasked(sid: string)
    ensures AllMasked(sid, [], []) && EntityCount([]) == 0
  {
  }

  lemma {:induction false} RecordedSoFarNone(v: Vault, sid: string)
    ensures RecordedSoFar(v, v, sid, [], [])
  {
  }

  lemma {:induction false} RecordedIs(v: Vault, w: Vault, sid: string, turns: seq<Turn>, payload: seq<Sent>)
    requires RecordedSoFar(v, w, sid, turns, payload)
    ensures w == RecordAll(v, sid, Contents(turns))
  {
  }

  lemma {:induction false} SoundSoFar(v: Vault, sid: string, turns: seq<Turn>)
    requires Sound(v) && MintableHistory(Contents(turns))
    ensures forall n :: 0 <= n <= |turns| ==> Sound(RecordAll(v, sid, Contents(turns[..n])))
    ensures forall n :: 0 <= n < |turns| ==> AllMintable(turns[n].content.results)
  {
    hide Sound, AllMintable, RecordAll;
    forall n | 0 <= n < |turns|
      ensures AllMintable(turns[n].content.results)
    {
      assert Contents(turns)[n] in Contents(turns);
    }
    forall n | 0 <= n <= |turns|
      ensures Sound(RecordAll(v, sid, Contents(turns[..n])))
    {
      forall m | m in Contents(turns[..n])
        ensures AllMintable(m.results)
      {
        var i :| 0 <= i < n && Contents(turns[..n])[i] == m;
      }
      RecordAllKeeps(v, sid, Contents(turns[..n]));
    }
  }

  lemma {:induction false} RecordedOneMore(v: Vault, w: Vault, sid: string, turns: seq<Turn>, payload: seq<Sent>, t: Turn)
    requires RecordedSoFar(v, w, sid, turns, payload)
    ensures RecordedSoFar(v, Recorded(w, sid, t.content), sid, turns + [t],
                          payload + [Sent(t.role, Answer(w, sid, t.content).text)])
  {
    hide RecordAll, TextSent, Recorded, Answer;
    ContentsAppend(turns, t);
    hide Contents;
    RecordAllAppend(v, sid, Contents(turns), t.content);
    forall i | 0 <= i < |turns|
      ensures TextSent(v, sid, Contents(turns) + [t.content], i) == TextSent(v, sid, Contents(turns), i)
    {
      TextSentPrefix(v, sid, Contents(turns), [t.content], i);
    }
  }

  lemma {:induction false} ContentsAppend(turns: seq<Turn>, t: Turn)
    ensures Contents(turns + [t]) == Contents(turns) + [t.content]
  {
    var l, r := Contents(turns + [t]), Contents(turns) + [t.content];
    assert |l| == |r|;
    assert forall j :: 0 <= j < |l| ==> l[j] == r[j];
  }

  lemma {:induction false} TokenizedIsAnswer(w: Vault, u: Vault, sid: string, m: Message, r: Tokenized)
    requires TokenizedFrom(w, u, sid, m.text, m.results, r)
    ensures r == Answer(w, sid, m) && MergeTokens(u, r.tokenMap) == Recorded(w, sid, m)
  {
    hide MintAll, Splice, Dedup;
  }

  /** Once the payload leaves, every token in it is stored under its hash and the
      stored map leads back to its value. */
  lemma {:induction false} SentTokensStored(v: Vault, sid: string, turns: seq<Turn>, i: nat, k: nat)
    requires Sound(v) && MintableHistory(Contents(turns)) && i < |turns|
    requires k < |DedupWithin(turns[i].content.text, turns[i].content.results)|
    ensures var m := turns[i].content;
      var before := RecordAll(v, sid, Contents(turns[..i]));
      HoldsSpan(RecordAll(v, sid, Contents(turns)), sid, m.text, DedupWithin(m.text, m.results)[k], MintedTokens(before, sid, m)[k])
  {
    var m, before := turns[i].content, RecordAll(v, sid, Contents(turns[..i]));
    hide Sound, AllMintable, HoldsSpan, MintedTokens, Grows, Recorded;
    SoundSoFar(v, sid, turns);
    RecordedHolds(before, sid, m, k);
    ContentsSplit(turns, i);
    RecordAllSplit(v, sid, Contents(turns[..i]), m, Contents(turns[i + 1..]));
    RecordAllKeeps(Recorded(before, sid, m), sid, Contents(turns[i + 1..])) by {
      RecordingKeeps(before, sid, m);
      ContentsAfter(turns, i);
    }
    HoldsLater(Recorded(before, sid, m), RecordAll(v, sid, Contents(turns)), sid, m.text,
               DedupWithin(m.text, m.results)[k], MintedTokens(before, sid, m)[k]);
  }

  lemma {:induction false} ContentsSplit(turns: seq<Turn>, i: nat)
    requires i < |turns|
    ensures Contents(turns) == Contents(turns[..i]) + ([turns[i].content] + Contents(turns[i + 1..]))
  {
    var l, r := Contents(turns), Contents(turns[..i]) + ([turns[i].content] + Contents(turns[i + 1..]));
    assert |l| == |r|;
    forall j | 0 <= j < |l|
      ensures l[j] == r[j]
    {
      if j > i { assert turns[i + 1..][j - i - 1] == turns[j]; }
    }
  }

  lemma {:induction false} ContentsAfter(turns: seq<Turn>, i: nat)
    requires i < |turns| && MintableHistory(Contents(turns))
    ensures MintableHistory(Contents(turns[i + 1..]))
  {
    hide AllMintable;
    var rest := Contents(turns[i + 1..]);
    forall m | m in rest
      ensures AllMintable(m.results)
    {
      var j :| 0 <= j < |rest| && rest[j] == m;
      assert Contents(turns)[i + 1 + j] == m;
    }
  }

  lemma {:induction false} RecordAllSplit(v: Vault, sid: string, a: seq<Message>, m: Message, b: seq<Message>)
    ensures RecordAll(v, sid, a + ([m] + b)) == RecordAll(Recorded(RecordAll(v, sid, a), sid, m), sid, b)
    decreases |a|
  {
    hide Recorded;
    var all := a + ([m] + b);
    if a == [] {
      assert all[0] == m && all[1..] == b;
    } else {
      assert all[0] == a[0] && all[1..] == a[1..] + ([m] + b);
      RecordAllSplit(Recorded(v, sid, a[0]), sid, a[1..], m, b);
    }
  }

  // ------------------------------------------------------------- sessions with failures

  /** A session's vault before its first request and after each: sound, and nothing lost,
      whatever the requests came to. */
  ghost predicate SessionRun(vs: seq<Vault>) {
    vs != [] && Sound(vs[0]) && forall i :: 0 < i < |vs| ==> Sound(vs[i]) && Grows(vs[i - 1], vs[i])
  }

  lemma {:induction false} RunGrows(vs: seq<Vault>, i: nat, j: nat)
    requires SessionRun(vs) && i <= j < |vs|
    ensures Sound(vs[i]) && Sound(vs[j]) && Grows(vs[i], vs[j])
    decreases j
  {
    hide Sound, Grows;
    if i == j {
      GrowsItself(vs[i]);
    } else {
      RunGrows(vs, i, j - 1);
      GrowsTransitive(vs[i], vs[j - 1], vs[j]);
    }
  }

  /** In a session any of whose requests may have failed anywhere: a message of a request
      whose payload left, without "{{" and with brace-free values, reads back from that
      payload to exactly itself with the map the session holds in the end. */
  lemma {:induction false} PayloadReadsBack(sid: string, vs: seq<Vault>, j: nat, turns: seq<Turn>, payload: seq<Sent>, k: nat,
                                            items: seq<Binding>, allowed: set<string>)
    requires SessionRun(vs) && j + 1 < |vs| && MintableHistory(Contents(turns))
    requires RecordedSoFar(vs[j], vs[j + 1], sid, turns, payload) && k < |turns|
    requires PlainMessage(turns[k].content) && TypesAllowed(turns[k].content, allowed)
    requires Enumerates(items, vs[|vs| - 1].tokens)
    ensures |payload| == |turns| && Detokenize(payload[k].content, items, allowed) == turns[k].content.text
  {
    hide Sound, Grows, MintableHistory, PlainMessage, TypesAllowed, Enumerates, Detokenize, TextSent, RecordAll, SessionRun;
    RunGrows(vs, j, j);
    RunGrows(vs, j + 1, |vs| - 1);
    SessionReadsBack(vs[j], sid, Contents(turns), k, vs[|vs| - 1], items, allowed);
  }

  /** If the model answers with the text it was sent for a message, a caller allowed the
      message's types reads the message itself. */
  lemma {:induction false} EchoReadsBack(sid: string, v: Vault, w: Vault, turns: seq<Turn>, payload: seq<Sent>, k: nat,
                                         items: seq<Binding>, allowed: set<string>, answer: string)
    requires Sound(v) && MintableHistory(Contents(turns)) && RecordedSoFar(v, w, sid, turns, payload) && k < |turns|
    requires PlainMessage(turns[k].content) && TypesAllowed(turns[k].content, allowed) && Enumerates(items, w.tokens)
    requires |payload| == |turns| && answer == payload[k].content
    ensures Detokenize(answer, items, allowed) == turns[k].content.text
  {
    hide Sound, Grows, MintableHistory, PlainMessage, TypesAllowed, Enumerates, Detokenize, TextSent, RecordAll;
    RecordAllKeeps(v, sid, Contents(turns));
    GrowsItself(w);
    SessionReadsBack(v, sid, Contents(turns), k, w, items, allowed);
  }
}
