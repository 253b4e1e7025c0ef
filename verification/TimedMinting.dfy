/** The minting protocol on keys that expire. As long as the session's provider
    config lives, every interleaving of timed commands is an interleaving of the
    timeless protocol, so its guarantees carry over. */
module TimedMinting {
  import opened Tokens
  import opened RedisStore
  import M = Minting

  datatype Progress =
    | Looking
    | Counting
    | Expiring(count: nat)
    | Claiming(count: nat)
    | Rereading(count: nat)
    | Done(token: string)

  datatype Call = Call(digest: M.Digest, at: Progress)

  /** One session's keys, the clock, and the calls running on them. */
  datatype World = World(keys: Keys, now: nat, calls: map<nat, Call>)

  datatype Action =
    | Elapse(ticks: nat)
    | WriteOwner(owner: Owner)
    | StoreTokens(tokens: map<string, string>)
    | Begin(id: nat, digest: M.Digest)
    | Advance(id: nat)

  /** A session starts when its provider config is written, once. */
  function Created(config: Config, now: nat): World {
    World(NO_KEYS.(provider := SetEx(config, now)), now, map[])
  }

  function SetCall(w: World, id: nat, at: Progress): World
    requires id in w.calls
  {
    w.(calls := w.calls[id := w.calls[id].(at := at)])
  }

  function AdvanceCall(w: World, id: nat): World
    requires id in w.calls
  {
    var d := w.calls[id].digest;
    match w.calls[id].at
    case Looking =>
      var existing := GetHash(w.keys, w.now, d);
      SetCall(w, id, if existing.Some? && existing.value != "" then Done(existing.value) else Counting)
    case Counting =>
      SetCall(w.(keys := AfterIncr(w.keys, w.now, d.entity)), id, Expiring(IncrCounter(w.keys, w.now, d.entity).value))
    case Expiring(n) =>
      SetCall(w.(keys := AfterExpire(w.keys, w.now, d.entity)), id, Claiming(n))
    case Claiming(n) =>
      var token := M.TokenFor(d, n);
      SetCall(w.(keys := AfterClaim(w.keys, w.now, d, token)), id,
              if GetHash(w.keys, w.now, d).Some? then Rereading(n) else Done(token))
    case Rereading(n) =>
      var winner := GetHash(w.keys, w.now, d);
      SetCall(w, id, Done(if winner.Some? && winner.value != "" then winner.value else M.TokenFor(d, n)))
    case Done(_) => w
  }

  function Apply(w: World, a: Action): World {
    match a
    case Elapse(ticks) => w.(now := w.now + ticks)
    case WriteOwner(owner) => w.(keys := w.keys.(owner := SetEx(owner, w.now)))
    case StoreTokens(m) => w.(keys := AfterStore(w.keys, w.now, m))
    case Begin(id, d) => if id in w.calls then w else w.(calls := w.calls[id := Call(d, Looking)])
    case Advance(id) => if id in w.calls then AdvanceCall(w, id) else w
  }

  function Run(w: World, schedule: seq<Action>): World
    decreases |schedule|
  {
    if schedule == [] then w else Run(Apply(w, schedule[0]), schedule[1..])
  }

  // ------------------------------------------------------------------ refinement

  /** A timed call stands where the timeless one does. */
  ghost predicate SameProgress(d: M.Digest, at: Progress, m: M.Progress) {
    match m
    case Looking => at == Looking
    case Counting => at == Counting
    case Expiring(n) => at == Expiring(n)
    case Claiming(n) => at == Claiming(n)
    case Rereading(n) => at == Rereading(n)
    case Done(n) => at == Done(M.TokenFor(d, n))
  }

  ghost predicate SameCall(w: World, s: M.State, id: nat)
    requires id in w.calls && id in s.calls
  {
    && w.calls[id].digest == s.calls[id].digest
    && SameProgress(s.calls[id].digest, w.calls[id].at, s.calls[id].at)
  }

  ghost predicate Refines(w: World, s: M.State) {
    && SameKeys(w.keys, s)
    && w.calls.Keys == s.calls.Keys
    && (forall id :: id in s.calls ==> SameCall(w, s, id))
  }

  function Timeless(a: Action): seq<M.Action> {
    match a
    case Begin(id, d) => [M.Begin(id, d)]
    case Advance(id) => [M.Advance(id)]
    case _ => []
  }

  function TimelessAll(schedule: seq<Action>): seq<M.Action> {
    if schedule == [] then [] else Timeless(schedule[0]) + TimelessAll(schedule[1..])
  }

  /** The config is written once, so it never outlives what came after it. */
  ghost predicate Born(w: World) {
    w.keys.provider.Some? && Outlived(w.keys, w.now)
  }

  lemma {:induction false} StepBorn(w: World, a: Action)
    requires Born(w)
    ensures Born(Apply(w, a)) && Apply(w, a).keys.provider == w.keys.provider && Apply(w, a).now >= w.now
  {
    hide M.TokenFor;
    var x, d, token, m := "", M.Digest("", "", ""), "", map[];
    match a
    case StoreTokens(tokens) => CommandsOutlived(w.keys, w.now, x, d, token, tokens);
    case Advance(id) =>
      if id in w.calls {
        var c := w.calls[id];
        if c.at.Claiming? {
          CommandsOutlived(w.keys, w.now, c.digest.entity, c.digest, M.TokenFor(c.digest, c.at.count), m);
        } else {
          CommandsOutlived(w.keys, w.now, c.digest.entity, c.digest, token, m);
        }
      }
    case _ =>
  }

  lemma {:induction false} TokenForNonEmpty(d: M.Digest, n: nat)
    ensures M.TokenFor(d, n) != ""
  {
  }

  ghost predicate SameKeys(k: Keys, s: M.State) {
    && View(k).counters == s.counters
    && k.hashes.Keys == s.hashes.Keys
    && (forall d :: d in s.hashes ==> k.hashes[d].value == M.TokenFor(d, s.hashes[d]))
  }

  lemma {:induction false} CreatedRefines(config: Config, start: nat)
    ensures Born(Created(config, start)) && Refines(Created(config, start), M.EMPTY)
  {
    assert View(Created(config, start).keys).counters == map[];
  }

  /** One caller moved, the others stand where they stood. */
  lemma {:induction false} MoverRefines(w: World, s: M.State, id: nat, w': World, s': M.State)
    requires Refines(w, s) && id in w.calls && id in w'.calls && id in s'.calls
    requires w'.calls == w.calls[id := w'.calls[id]] && s'.calls == s.calls[id := s'.calls[id]]
    requires SameCall(w', s', id) && SameKeys(w'.keys, s')
    ensures Refines(w', s')
  {
    forall j | j in s'.calls
      ensures SameCall(w', s', j)
    {
      if j != id { assert SameCall(w, s, j); }
    }
  }

  lemma {:induction false} CountingRefines(w: World, s: M.State, id: nat)
    requires Born(w) && ConfigLive(w.keys, w.now) && Refines(w, s) && id in w.calls && w.calls[id].at == Counting
    ensures Refines(AdvanceCall(w, id), M.AdvanceCall(s, id))
  {
    hide M.TokenFor;
    assert SameCall(w, s, id);
    var d := w.calls[id].digest;
    ReadsSeeAll(w.keys, w.now);
    ViewAfterIncr(w.keys, w.now, d.entity);
    MoverRefines(w, s, id, AdvanceCall(w, id), M.AdvanceCall(s, id));
  }

  lemma {:induction false} ClaimedKeys(k: Keys, now: nat, s: M.State, d: M.Digest, n: nat, s': M.State)
    requires Outlived(k, now) && ConfigLive(k, now) && SameKeys(k, s)
    requires s'.counters == s.counters && s'.hashes == if d in s.hashes then s.hashes else s.hashes[d := n]
    ensures SameKeys(AfterClaim(k, now, d, M.TokenFor(d, n)), s')
  {
    hide M.TokenFor;
    ReadsSeeAll(k, now);
    ViewAfterClaim(k, now, d, M.TokenFor(d, n));
  }

  lemma {:induction false} ClaimingRefines(w: World, s: M.State, id: nat)
    requires Born(w) && ConfigLive(w.keys, w.now) && Refines(w, s) && id in w.calls && w.calls[id].at.Claiming?
    ensures Refines(AdvanceCall(w, id), M.AdvanceCall(s, id))
  {
    hide M.TokenFor, View, Outlived;
    assert SameCall(w, s, id);
    var d, n := w.calls[id].digest, w.calls[id].at.count;
    assert GetHash(w.keys, w.now, d).Some? == (d in s.hashes) by { ReadsSeeAll(w.keys, w.now); }
    var w', s' := AdvanceCall(w, id), M.AdvanceCall(s, id);
    ClaimedKeys(w.keys, w.now, s, d, n, s');
    MoverRefines(w, s, id, w', s');
  }

  lemma {:induction false} ReadingRefines(w: World, s: M.State, id: nat)
    requires Born(w) && ConfigLive(w.keys, w.now) && Refines(w, s) && id in w.calls
    requires w.calls[id].at.Looking? || w.calls[id].at.Rereading?
    ensures Refines(AdvanceCall(w, id), M.AdvanceCall(s, id))
  {
    hide M.TokenFor;
    assert SameCall(w, s, id);
    var d := w.calls[id].digest;
    if d in s.hashes {
      TokenForNonEmpty(d, s.hashes[d]);
      assert GetHash(w.keys, w.now, d) == Some(M.TokenFor(d, s.hashes[d]));
    } else {
      assert GetHash(w.keys, w.now, d) == None;
    }
    MoverRefines(w, s, id, AdvanceCall(w, id), M.AdvanceCall(s, id));
  }

  lemma {:induction false} AdvanceRefines(w: World, s: M.State, id: nat)
    requires Born(w) && ConfigLive(w.keys, w.now) && Refines(w, s) && id in w.calls
    ensures Refines(AdvanceCall(w, id), M.AdvanceCall(s, id))
  {
    match w.calls[id].at
    case Counting => CountingRefines(w, s, id);
    case Expiring(n) =>
      hide M.TokenFor;
      assert SameCall(w, s, id);
      ViewAfterExpire(w.keys, w.now, w.calls[id].digest.entity);
      MoverRefines(w, s, id, AdvanceCall(w, id), M.AdvanceCall(s, id));
    case Claiming(n) => ClaimingRefines(w, s, id);
    case Done(_) =>
      hide M.TokenFor;
      assert SameCall(w, s, id);
    case _ => ReadingRefines(w, s, id);
  }

  lemma {:induction false} StepRefines(w: World, s: M.State, a: Action)
    requires Born(w) && ConfigLive(w.keys, w.now) && Refines(w, s)
    ensures Refines(Apply(w, a), M.Run(s, Timeless(a)))
  {
    hide M.TokenFor;
    match a
    case Begin(id, d) =>
      RunOne(s, M.Begin(id, d));
      BeginRefines(w, s, id, d);
    case Advance(id) =>
      RunOne(s, M.Advance(id));
      if id in w.calls { AdvanceRefines(w, s, id); }
    case StoreTokens(m) => ViewAfterStore(w.keys, w.now, m);
    case _ =>
  }

  lemma {:induction false} RunOne(s: M.State, a: M.Action)
    ensures M.Run(s, [a]) == M.Apply(s, a)
  {
    assert [a][1..] == [];
  }

  lemma {:induction false} BeginRefines(w: World, s: M.State, id: nat, d: M.Digest)
    requires Refines(w, s)
    ensures Refines(Apply(w, Begin(id, d)), M.Apply(s, M.Begin(id, d)))
  {
    hide SameKeys;
    var w', s' := Apply(w, Begin(id, d)), M.Apply(s, M.Begin(id, d));
    forall j | j in s'.calls
      ensures SameCall(w', s', j)
    {
      if j in s.calls { assert SameCall(w, s, j); }
    }
    assert SameKeys(w'.keys, s') by { SameKeysFrame(w.keys, s, s'); }
  }

  lemma {:induction false} SameKeysFrame(k: Keys, s: M.State, s': M.State)
    requires SameKeys(k, s) && s'.counters == s.counters && s'.hashes == s.hashes
    ensures SameKeys(k, s')
  {
  }

  lemma {:induction false} MRunConcat(s: M.State, a: seq<M.Action>, b: seq<M.Action>)
    ensures M.Run(s, a + b) == M.Run(M.Run(s, a), b)
    decreases |a|
  {
    if a == [] {
      assert a + b == b;
    } else {
      assert (a + b)[0] == a[0] && (a + b)[1..] == a[1..] + b;
      MRunConcat(M.Apply(s, a[0]), a[1..], b);
    }
  }

  /** While the config still lives at the end, the whole timed run refines the
      timeless run of the same calls. */
  lemma {:induction false} RunRefines(w: World, s: M.State, schedule: seq<Action>)
    requires Born(w) && Refines(w, s)
    ensures Born(Run(w, schedule))
    ensures Run(w, schedule).keys.provider == w.keys.provider && Run(w, schedule).now >= w.now
    ensures ConfigLive(Run(w, schedule).keys, Run(w, schedule).now) ==>
              Refines(Run(w, schedule), M.Run(s, TimelessAll(schedule)))
    decreases |schedule|
  {
    if schedule != [] {
      var a := schedule[0];
      var w1 := Apply(w, a);
      StepBorn(w, a);
      if ConfigLive(w.keys, w.now) {
        StepRefines(w, s, a);
        RunRefines(w1, M.Run(s, Timeless(a)), schedule[1..]);
        MRunConcat(s, Timeless(a), TimelessAll(schedule[1..]));
      } else {
        RunBorn(w1, schedule[1..]);
      }
    }
  }

  lemma {:induction false} RunBorn(w: World, schedule: seq<Action>)
    requires Born(w)
    ensures Born(Run(w, schedule))
    ensures Run(w, schedule).keys.provider == w.keys.provider && Run(w, schedule).now >= w.now
    decreases |schedule|
  {
    if schedule != [] {
      StepBorn(w, schedule[0]);
      RunBorn(Apply(w, schedule[0]), schedule[1..]);
    }
  }

  // ------------------------------------------------------------------ guarantees

  /** In every reachable state in which a session's provider config lives, no other
      key ever written for the session has expired. */
  lemma {:induction false} NothingExpiresFirst(config: Config, start: nat, schedule: seq<Action>)
    requires var w := Run(Created(config, start), schedule); ConfigLive(w.keys, w.now)
    ensures var w := Run(Created(config, start), schedule);
      && (w.keys.owner.Some? ==> w.keys.owner.value.Live(w.now))
      && (w.keys.tokens.Some? ==> w.keys.tokens.value.Live(w.now))
      && (forall d :: d in w.keys.hashes ==> w.keys.hashes[d].Live(w.now))
      && (forall x :: x in w.keys.counters ==> w.keys.counters[x].Live(w.now))
  {
    RunBorn(Created(config, start), schedule);
  }

  /** In every such state, for every interleaving of callers with each other and with
      the clock, finished calls hold equal tokens exactly for equal hashes. */
  lemma {:induction false} LiveTokensUnique(config: Config, start: nat, schedule: seq<Action>, i: nat, j: nat)
    requires var w := Run(Created(config, start), schedule);
      && ConfigLive(w.keys, w.now)
      && i in w.calls && w.calls[i].at.Done? && M.Mintable(w.calls[i].digest.entity)
      && j in w.calls && w.calls[j].at.Done? && M.Mintable(w.calls[j].digest.entity)
    ensures var w := Run(Created(config, start), schedule);
      w.calls[i].at.token == w.calls[j].at.token <==> w.calls[i].digest == w.calls[j].digest
  {
    hide M.TokenFor, M.Mintable, SameKeys, M.Run, Run;
    CreatedRefines(config, start);
    var w := Run(Created(config, start), schedule);
    var s := M.Run(M.EMPTY, TimelessAll(schedule));
    RunRefines(Created(config, start), M.EMPTY, schedule);
    assert SameCall(w, s, i) && SameCall(w, s, j);
    M.FinishedCallsAgree(TimelessAll(schedule), i, j);
  }
}
