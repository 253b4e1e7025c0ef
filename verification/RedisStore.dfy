/** The session store on Redis: every key carries a time to live, time passes
    between commands, and any command may fail before or after it took effect. */
module RedisStore {
  import opened Tokens
  import opened Minting
  import opened Vault

  const TTL := 3600

  datatype Result<+T> = Ok(value: T) | Raised

  /** A Redis value with the moment after which it no longer answers. */
  datatype Cell<+T> = Cell(value: T, expires: Option<nat>) {
    predicate Live(now: nat) {
      expires.Some? ==> now <= expires.value
    }

    /** Lives at least as long as something that expires at `e`. */
    predicate Outlives(e: nat) {
      expires.Some? ==> e <= expires.value
    }
  }

  datatype Config = Config(provider: string, model: string, apiKey: string, ollamaUrl: string)
  datatype Owner = Owner(sub: string, tenant: string)

  /** All keys of one session; the keys of another begin with another session id. */
  datatype Keys = Keys(
    provider: Option<Cell<Config>>,
    owner: Option<Cell<Owner>>,
    tokens: Option<Cell<map<string, string>>>,
    hashes: map<Digest, Cell<string>>,
    counters: map<string, Cell<nat>>)

  const NO_KEYS := Keys(None, None, None, map[], map[])

  // ------------------------------------------------------------- Redis commands

  function Read<T>(c: Option<Cell<T>>, now: nat): Option<T> {
    if c.Some? && c.value.Live(now) then Some(c.value.value) else None
  }

  /** The token map as it reads; none reads as empty. */
  function StoredMap(k: Keys, now: nat): map<string, string> {
    var data := Read(k.tokens, now);
    if data.Some? then data.value else map[]
  }

  function SetEx<T>(v: T, now: nat): Option<Cell<T>> {
    Some(Cell(v, Some(now + TTL)))
  }

  function GetHash(k: Keys, now: nat, d: Digest): Option<string> {
    if d in k.hashes && k.hashes[d].Live(now) then Some(k.hashes[d].value) else None
  }

  /** INCR keeps a live key's expiry and starts an expired or absent one at 1. */
  function IncrCounter(k: Keys, now: nat, entity: string): Cell<nat> {
    if entity in k.counters && k.counters[entity].Live(now) then
      Cell(k.counters[entity].value + 1, k.counters[entity].expires)
    else Cell(1, None)
  }

  function AfterIncr(k: Keys, now: nat, entity: string): Keys {
    k.(counters := k.counters[entity := IncrCounter(k, now, entity)])
  }

  function AfterExpire(k: Keys, now: nat, entity: string): Keys {
    if entity in k.counters && k.counters[entity].Live(now) then
      k.(counters := k.counters[entity := Cell(k.counters[entity].value, Some(now + TTL))])
    else k
  }

  /** SET NX EX: only an absent or expired hash is claimed. */
  function AfterClaim(k: Keys, now: nat, d: Digest, token: string): Keys {
    if GetHash(k, now, d).Some? then k else k.(hashes := k.hashes[d := Cell(token, Some(now + TTL))])
  }

  function AfterStore(k: Keys, now: nat, m: map<string, string>): Keys {
    k.(tokens := SetEx(m, now))
  }

  // ------------------------------------------------------------------- lifetimes

  predicate ConfigLive(k: Keys, now: nat) {
    k.provider.Some? && k.provider.value.Live(now)
  }

  /** Nothing of a session dies before its provider config does. */
  ghost predicate Outlived(k: Keys, now: nat) {
    k.provider.Some? ==>
      && k.provider.value.expires.Some?
      && var e := k.provider.value.expires.value;
      && e <= now + TTL
      && (k.owner.Some? ==> k.owner.value.Outlives(e))
      && (k.tokens.Some? ==> k.tokens.value.Outlives(e))
      && (forall d :: d in k.hashes ==> k.hashes[d].Outlives(e))
      && (forall x :: x in k.counters ==> k.counters[x].Outlives(e))
  }

  /** What the keys say, expired or not. */
  function View(k: Keys): Vault {
    Vault(map d | d in k.hashes :: k.hashes[d].value,
          map x | x in k.counters :: k.counters[x].value,
          if k.tokens.Some? then k.tokens.value.value else map[])
  }

  lemma {:induction false} CommandsOutlived(k: Keys, now: nat, x: string, d: Digest, token: string, m: map<string, string>)
    requires Outlived(k, now)
    ensures Outlived(AfterIncr(k, now, x), now)
    ensures Outlived(AfterExpire(k, now, x), now)
    ensures Outlived(AfterClaim(k, now, d, token), now)
    ensures Outlived(AfterStore(k, now, m), now)
  {
  }

  /** While the config lives, reads see everything ever written. */
  lemma {:induction false} ReadsSeeAll(k: Keys, now: nat)
    requires Outlived(k, now) && ConfigLive(k, now)
    ensures forall d :: GetHash(k, now, d) == if d in k.hashes then Some(View(k).hashes[d]) else None
    ensures forall x :: IncrCounter(k, now, x).value == Count(View(k).counters, x) + 1
    ensures k.tokens.Some? ==> Read(k.tokens, now) == Some(View(k).tokens)
    ensures k.owner.Some? ==> Read(k.owner, now) == Some(k.owner.value.value)
  {
  }

  lemma {:induction false} ViewAfterIncr(k: Keys, now: nat, x: string)
    requires Outlived(k, now) && ConfigLive(k, now)
    ensures View(AfterIncr(k, now, x)) == View(k).(counters := View(k).counters[x := Count(View(k).counters, x) + 1])
  {
    ReadsSeeAll(k, now);
    assert View(AfterIncr(k, now, x)).counters == View(k).counters[x := Count(View(k).counters, x) + 1];
  }

  lemma {:induction false} ViewAfterExpire(k: Keys, now: nat, x: string)
    ensures View(AfterExpire(k, now, x)) == View(k)
  {
    assert View(AfterExpire(k, now, x)).counters == View(k).counters;
  }

  lemma {:induction false} ViewAfterClaim(k: Keys, now: nat, d: Digest, token: string)
    requires Outlived(k, now) && ConfigLive(k, now)
    ensures View(AfterClaim(k, now, d, token))
         == if d in k.hashes then View(k) else View(k).(hashes := View(k).hashes[d := token])
  {
    ReadsSeeAll(k, now);
    assert View(AfterClaim(k, now, d, token)).hashes
        == if d in k.hashes then View(k).hashes else View(k).hashes[d := token];
  }

  lemma {:induction false} ViewAfterStore(k: Keys, now: nat, m: map<string, string>)
    ensures View(AfterStore(k, now, m)) == View(k).(tokens := m)
  {
  }

  /** A token of a hash's own entity type. */
  ghost predicate IsTokenFor(d: Digest, token: string) {
    exists n: nat :: token == TokenFor(d, n)
  }

  /** Under every hash, expired or not, stands a token of its type. */
  ghost predicate HoldsTokens(k: Keys) {
    forall d :: d in k.hashes ==> IsTokenFor(d, k.hashes[d].value)
  }

  ghost predicate Healthy(k: Keys, now: nat) {
    Outlived(k, now) && HoldsTokens(k)
  }

  lemma {:induction false} ClaimHoldsTokens(k: Keys, now: nat, d: Digest, token: string)
    requires HoldsTokens(k) && IsTokenFor(d, token)
    ensures HoldsTokens(AfterClaim(k, now, d, token))
  {
    hide IsTokenFor;
  }

  // ------------------------------------------------------------------- the store

  class SessionStore {
    var sessions: map<string, Keys>
    var now: nat
    /** How many commands have failed. */
    ghost var failed: nat

    constructor ()
      ensures Valid() && sessions == map[]
    {
      sessions := map[];
      now := 0;
      failed := 0;
    }

    function KeysOf(sid: string): Keys
      reads this`sessions
    {
      if sid in sessions then sessions[sid] else NO_KEYS
    }

    /** What a session's keys say, expired or not. */
    function Contents(sid: string): Vault
      reads this`sessions
    {
      View(KeysOf(sid))
    }

    ghost predicate Valid()
      reads this
    {
      forall sid :: Healthy(KeysOf(sid), now)
    }

    /** Time passes; the next command may fail. */
    method Wait() returns (ok: bool)
      requires Valid()
      modifies this`now, this`failed
      ensures now >= old(now) && Valid() && Counts(ok)
    {
      var d: nat :| true;
      now := now + d;
      ok := *;
      if !ok { failed := failed + 1; }
      assert forall sid :: Healthy(KeysOf(sid), old(now)) ==> Healthy(KeysOf(sid), now);
    }

    /** A step that says it failed is one in which a command did. */
    twostate predicate Counts(ok: bool)
      reads this
    {
      failed >= old(failed) && (!ok ==> failed > old(failed))
    }

    /** One write command: it may fail untried, or take effect and then fail. */
    method Write(sid: string, k: Keys) returns (ok: bool)
      requires Valid() && Healthy(k, now)
      modifies this
      ensures Valid() && now == old(now) && Counts(ok)
      ensures ok ==> KeysOf(sid) == k
      ensures KeysOf(sid) == k || KeysOf(sid) == old(KeysOf(sid))
      ensures sessions - {sid} == old(sessions) - {sid}
    {
      var done: bool := *;
      if done {
        sessions := sessions[sid := k];
        ok := *;
      } else {
        ok := false;
      }
      if !ok { failed := failed + 1; }
      assert sessions - {sid} == old(sessions) - {sid};
      forall s
        ensures Healthy(KeysOf(s), now)
      {
        assert Healthy(old(KeysOf(s)), now);
        assert s != sid ==> KeysOf(s) == old(KeysOf(s));
      }
    }

    method GetHashKey(sid: string, d: Digest) returns (r: Result<Option<string>>)
      requires Valid()
      modifies this`now, this`failed
      ensures Valid() && now >= old(now)
      ensures r.Ok? ==> r.value == GetHash(KeysOf(sid), now, d)
      ensures r.Ok? && r.value.Some? ==> IsTokenFor(d, r.value.value)
      ensures Counts(r.Ok?)
    {
      var ok := Wait();
      assert Healthy(KeysOf(sid), now);
      r := if ok then Ok(GetHash(KeysOf(sid), now, d)) else Raised;
    }

    /** The vault as one undisturbed minting call leaves it, should it return. */
    twostate predicate Minted(sid: string, d: Digest, token: string)
      reads this
    {
      ConfigLive(KeysOf(sid), now) && Sound(old(Contents(sid))) ==>
        Contents(sid) == MintToken(old(Contents(sid)), d) && token == Contents(sid).hashes[d]
    }

    /** No binding is lost and the vault stays sound, whether or not a call failed. */
    twostate predicate Kept(sid: string)
      reads this
    {
      ConfigLive(KeysOf(sid), now) && Sound(old(Contents(sid))) ==>
        Sound(Contents(sid)) && Grows(old(Contents(sid)), Contents(sid))
    }

    twostate predicate OthersUntouched(sid: string)
      reads this
    {
      && now >= old(now)
      && sessions - {sid} == old(sessions) - {sid}
      && KeysOf(sid).provider == old(KeysOf(sid)).provider
      && KeysOf(sid).owner == old(KeysOf(sid)).owner
    }

    /** INCR of an entity counter. */
    method Increment(sid: string, entity: string) returns (r: Result<nat>)
      requires Valid()
      modifies this
      ensures Valid() && OthersUntouched(sid)
      ensures KeysOf(sid).tokens == old(KeysOf(sid)).tokens
      ensures ConfigLive(KeysOf(sid), now) ==>
                && (r.Ok? ==> r.value == Count(old(Contents(sid)).counters, entity) + 1
                              && Contents(sid) == Counted(old(Contents(sid)), entity))
                && (Contents(sid) == Counted(old(Contents(sid)), entity) || Contents(sid) == old(Contents(sid)))
      ensures Counts(r.Ok?)
    {
      var ok := Wait();
      if !ok { return Raised; }
      var k := KeysOf(sid);
      var count := IncrCounter(k, now, entity).value;
      CommandsOutlived(k, now, entity, Digest("", "", ""), "", map[]);
      if ConfigLive(k, now) { ViewAfterIncr(k, now, entity); ReadsSeeAll(k, now); }
      ok := Write(sid, AfterIncr(k, now, entity));
      return if ok then Ok(count) else Raised;
    }

    /** EXPIRE of an entity counter. */
    method Refresh(sid: string, entity: string) returns (ok: bool)
      requires Valid()
      modifies this
      ensures Valid() && OthersUntouched(sid)
      ensures KeysOf(sid).tokens == old(KeysOf(sid)).tokens && Contents(sid) == old(Contents(sid))
      ensures Counts(ok)
    {
      ok := Wait();
      if !ok { return; }
      var k := KeysOf(sid);
      CommandsOutlived(k, now, entity, Digest("", "", ""), "", map[]);
      ViewAfterExpire(k, now, entity);
      ok := Write(sid, AfterExpire(k, now, entity));
    }

    /** SET NX EX of a hash; tells whether this caller won it. */
    method ClaimHash(sid: string, d: Digest, token: string) returns (r: Result<bool>)
      requires Valid() && IsTokenFor(d, token)
      modifies this
      ensures Valid() && OthersUntouched(sid)
      ensures KeysOf(sid).tokens == old(KeysOf(sid)).tokens
      ensures ConfigLive(KeysOf(sid), now) ==>
                var v := old(Contents(sid));
                var claimed := if d in v.hashes then v else v.(hashes := v.hashes[d := token]);
                && (r.Ok? ==> r.value == (d !in v.hashes) && Contents(sid) == claimed)
                && (Contents(sid) == claimed || Contents(sid) == v)
      ensures Counts(r.Ok?)
    {
      var ok := Wait();
      if !ok { return Raised; }
      var k := KeysOf(sid);
      var won := GetHash(k, now, d).None?;
      CommandsOutlived(k, now, "", d, token, map[]);
      ClaimHoldsTokens(k, now, d, token);
      if ConfigLive(k, now) { ViewAfterClaim(k, now, d, token); ReadsSeeAll(k, now); }
      ok := Write(sid, AfterClaim(k, now, d, token));
      return if ok then Ok(won) else Raised;
    }

    /** `get_or_create_token_for_hash`, with no other caller in between. */
    method GetOrCreateTokenForHash(sid: string, d: Digest, entity: string, short: string) returns (r: Result<string>)
      requires Valid() && entity == d.entity && short == ShortOf(entity)
      modifies this
      ensures Valid() && OthersUntouched(sid)
      ensures KeysOf(sid).tokens == old(KeysOf(sid)).tokens
      ensures r.Ok? ==> Minted(sid, d, r.value) && IsTokenFor(d, r.value)
      ensures Mintable(entity) ==> Kept(sid)
      ensures Counts(r.Ok?)
    {
      ghost var v := Contents(sid);
      if Sound(v) { TokensNonEmpty(v); }
      hide Sound, Grows, Mintable, ShortOf, MintOutcome;
      var existing := GetHashKey(sid, d);
      if existing.Raised? {
        if Sound(v) && Mintable(entity) { OutcomeKept(v, v, d); }
        return Raised;
      }
      ghost var live := ConfigLive(KeysOf(sid), now);
      if live { ReadsSeeAll(KeysOf(sid), now); }
      if existing.value.Some? && existing.value.value != "" {
        if Sound(v) && Mintable(entity) { OutcomeKept(v, v, d); }
        return Ok(existing.value.value);
      }
      assert live && Sound(v) ==> d !in v.hashes;
      r := MintFresh(sid, d, entity, short);
      if Sound(v) && Mintable(entity) && ConfigLive(KeysOf(sid), now) { OutcomeKept(v, Contents(sid), d); }
    }

    /** The path of a call whose first GET found nothing. */
    method MintFresh(sid: string, d: Digest, entity: string, short: string) returns (r: Result<string>)
      requires Valid() && entity == d.entity && short == ShortOf(entity)
      modifies this
      ensures Valid() && OthersUntouched(sid)
      ensures KeysOf(sid).tokens == old(KeysOf(sid)).tokens
      ensures r.Ok? ==> IsTokenFor(d, r.value)
      ensures var v := old(Contents(sid));
              ConfigLive(KeysOf(sid), now) && d !in v.hashes ==>
                && MintOutcome(v, Contents(sid), d)
                && (r.Ok? ==> Contents(sid) == MintToken(v, d) && r.value == Contents(sid).hashes[d])
      ensures Counts(r.Ok?)
    {
      hide ShortOf;
      var count := Increment(sid, entity);
      if count.Raised? { return Raised; }
      var ok := Refresh(sid, entity);
      if !ok { return Raised; }
      var token := Token(short, count.value);
      assert token == TokenFor(d, count.value);
      var won := ClaimHash(sid, d, token);
      if won.Raised? { return Raised; }
      if won.value { return Ok(token); }
      var winner := GetHashKey(sid, d);
      if winner.Raised? { return Raised; }
      return Ok(if winner.value.Some? && winner.value.value != "" then winner.value.value else token);
    }
  
    /** `update_token_map`: read, merge, write back. */
    method UpdateTokenMap(sid: string, added: map<string, string>) returns (ok: bool)
      requires Valid()
      modifies this
      ensures Valid() && OthersUntouched(sid)
      ensures KeysOf(sid) == old(KeysOf(sid)) || MergedAt(sid, added)
      ensures ok ==> MergedAt(sid, added)
      ensures ConfigLive(KeysOf(sid), now) ==>
                && (Contents(sid) == old(Contents(sid)) || Contents(sid) == MergeTokens(old(Contents(sid)), added))
                && (ok ==> Contents(sid) == MergeTokens(old(Contents(sid)), added))
      ensures Counts(ok)
    {
      var stored := GetTokenMap(sid);
      if stored.Raised? { return false; }
      ok := Wait();
      if !ok { return; }
      var k := KeysOf(sid);
      CommandsOutlived(k, now, "", Digest("", "", ""), "", stored.value + added);
      ViewAfterStore(k, now, stored.value + added);
      ok := Write(sid, AfterStore(k, now, stored.value + added));
      assert KeysOf(sid) == AfterStore(k, now, stored.value + added) ==> MergedAt(sid, added);
    }

    /** The map is the one that could be read at some moment of the call, overridden by the
        new entries; an expired one reads as empty. */
    twostate predicate MergedAt(sid: string, added: map<string, string>)
      reads this
    {
      exists t: nat, u: nat :: old(now) <= t <= u <= now &&
        KeysOf(sid) == AfterStore(old(KeysOf(sid)), u, StoredMap(old(KeysOf(sid)), t) + added)
    }

    method GetTokenMap(sid: string) returns (r: Result<map<string, string>>)
      requires Valid()
      modifies this`now, this`failed
      ensures Valid() && now >= old(now)
      ensures r.Ok? ==> r.value == StoredMap(KeysOf(sid), now)
      ensures r.Ok? && ConfigLive(KeysOf(sid), now) ==> r.value == Contents(sid).tokens
      ensures Counts(r.Ok?)
    {
      var ok := Wait();
      if !ok { return Raised; }
      var k := KeysOf(sid);
      if ConfigLive(k, now) { ReadsSeeAll(k, now); }
      return Ok(StoredMap(k, now));
    }

    method GetProviderConfig(sid: string) returns (r: Result<Option<Config>>)
      requires Valid()
      modifies this`now, this`failed
      ensures Valid() && now >= old(now)
      ensures r.Ok? ==> (r.value.Some? <==> ConfigLive(KeysOf(sid), now))
      ensures r.Ok? && r.value.Some? ==> KeysOf(sid).provider.value.value == r.value.value
      ensures Counts(r.Ok?)
    {
      var ok := Wait();
      r := if ok then Ok(Read(KeysOf(sid).provider, now)) else Raised;
    }

    method GetSessionOwner(sid: string) returns (r: Result<Option<Owner>>)
      requires Valid()
      modifies this`now, this`failed
      ensures Valid() && now >= old(now)
      ensures r.Ok? ==> r.value == Read(KeysOf(sid).owner, now)
      ensures Counts(r.Ok?)
    {
      var ok := Wait();
      r := if ok then Ok(Read(KeysOf(sid).owner, now)) else Raised;
    }

    /** Expires an hour after some moment of the call. */
    twostate predicate Hour<T>(new c: Cell<T>)
      reads this
    {
      c.expires.Some? && old(now) + 3600 <= c.expires.value <= now + 3600
    }

    /** `configure_session`: a fresh session id gets its provider config, once, and
        then its owner. */
    method ConfigureSession(sid: string, config: Config, owner: Owner) returns (ok: bool)
      requires Valid() && KeysOf(sid) == NO_KEYS
      modifies this
      ensures Valid() && now >= old(now)
      ensures sessions - {sid} == old(sessions) - {sid}
      ensures Contents(sid) == EMPTY_VAULT && Sound(Contents(sid))
      ensures KeysOf(sid).owner.Some? ==> KeysOf(sid).owner.value.value == owner && KeysOf(sid).provider.Some?
      ensures KeysOf(sid).provider.Some? ==> KeysOf(sid).provider.value.value == config
      ensures ok ==> KeysOf(sid).owner.Some? && Hour(KeysOf(sid).provider.value) && Hour(KeysOf(sid).owner.value)
      ensures Counts(ok)
    {
      EmptySound();
      ok := Wait();
      if !ok { return; }
      ok := Write(sid, NO_KEYS.(provider := SetEx(config, now)));
      if !ok { return; }
      assert sessions - {sid} == old(sessions) - {sid};
      ok := Wait();
      if !ok { return; }
      ok := Write(sid, KeysOf(sid).(owner := SetEx(owner, now)));
    }
  }
}
