/** The token minting protocol of one session, step by step: GET, INCR, EXPIRE,
    SET NX and a second GET, each one atomic, run by any number of callers in any
    interleaving while no key expires. */
module Minting {
  import opened Tokens

  /** The stable hash of (session, entity type, value). */
  datatype Digest = Digest(session: string, entity: string, value: string)

  /** Entity types whose short code reads back as themselves. */
  predicate Mintable(entity: string) {
    IsShort(ShortOf(entity)) && EntityOf(ShortOf(entity)) == entity
  }

  function TokenFor(d: Digest, n: nat): string {
    Token(ShortOf(d.entity), n)
  }

  /** Where a call stands; the number is the one its INCR returned, and in the end
      the one in the token it answers with. */
  datatype Progress =
    | Looking
    | Counting
    | Expiring(count: nat)
    | Claiming(count: nat)
    | Rereading(count: nat)
    | Done(count: nat)
  {
    predicate InFlight() {
      Expiring? || Claiming?
    }
  }

  datatype Call = Call(digest: Digest, at: Progress)

  /** A stored token is represented by its number: under hash `d` Redis holds the
      string `TokenFor(d, hashes[d])`. `lost` counts, per entity type, the claims that found the hash taken. */
  datatype State = State(
    hashes: map<Digest, nat>,
    counters: map<string, nat>,
    lost: map<string, nat>,
    calls: map<nat, Call>)

  const EMPTY := State(map[], map[], map[], map[])

  function Count(m: map<string, nat>, entity: string): nat {
    if entity in m then m[entity] else 0
  }

  datatype Action = Begin(id: nat, digest: Digest) | Advance(id: nat)

  function SetCall(s: State, id: nat, at: Progress): State
    requires id in s.calls
  {
    s.(calls := s.calls[id := s.calls[id].(at := at)])
  }

  /** One atomic Redis command of one caller. */
  function AdvanceCall(s: State, id: nat): State
    requires id in s.calls
  {
    var d := s.calls[id].digest;
    match s.calls[id].at
    case Looking =>
      if d in s.hashes then SetCall(s, id, Done(s.hashes[d])) else SetCall(s, id, Counting)
    case Counting =>
      var n := Count(s.counters, d.entity) + 1;
      SetCall(s.(counters := s.counters[d.entity := n]), id, Expiring(n))
    case Expiring(n) =>
      SetCall(s, id, Claiming(n))
    case Claiming(n) =>
      if d in s.hashes then
        SetCall(s.(lost := s.lost[d.entity := Count(s.lost, d.entity) + 1]), id, Rereading(n))
      else
        SetCall(s.(hashes := s.hashes[d := n]), id, Done(n))
    case Rereading(n) =>
      SetCall(s, id, Done(if d in s.hashes then s.hashes[d] else n))
    case Done(_) => s
  }

  function Apply(s: State, a: Action): State {
    match a
    case Begin(id, d) => if id in s.calls then s else s.(calls := s.calls[id := Call(d, Looking)])
    case Advance(id) => if id in s.calls then AdvanceCall(s, id) else s
  }

  /** A schedule names, step by step, which caller moves next. */
  function Run(s: State, schedule: seq<Action>): State
    decreases |schedule|
  {
    if schedule == [] then s else Run(Apply(s, schedule[0]), schedule[1..])
  }

  // ----------------------------------------------------------------- invariant

  /** Every stored number was counted out, and to one hash only. */
  ghost predicate NumbersDistinct(s: State) {
    && (forall d :: d in s.hashes ==> 1 <= s.hashes[d] <= Count(s.counters, d.entity))
    && (forall d, d' :: d in s.hashes && d' in s.hashes && d != d' && d.entity == d'.entity
          ==> s.hashes[d] != s.hashes[d'])
  }

  /** A number handed to a call still in flight is its own. */
  ghost predicate FlightOwn(s: State, id: nat)
    requires id in s.calls && s.calls[id].at.InFlight()
  {
    var n, entity := s.calls[id].at.count, s.calls[id].digest.entity;
    && 1 <= n <= Count(s.counters, entity)
    && (forall d :: d in s.hashes && d.entity == entity ==> s.hashes[d] != n)
    && (forall id' :: id' in s.calls && id' != id && s.calls[id'].at.InFlight() && s.calls[id'].digest.entity == entity
          ==> s.calls[id'].at.count != n)
  }

  ghost predicate CallOk(s: State, id: nat)
    requires id in s.calls
  {
    var c := s.calls[id];
    && (c.at.InFlight() ==> FlightOwn(s, id))
    && (c.at.Rereading? ==> c.digest in s.hashes)
    && (c.at.Done? ==> c.digest in s.hashes && s.hashes[c.digest] == c.at.count)
  }

  function Stored(s: State, entity: string): set<Digest> {
    set d | d in s.hashes && d.entity == entity
  }

  function Flying(s: State, entity: string): set<nat> {
    set id | id in s.calls && s.calls[id].at.InFlight() && s.calls[id].digest.entity == entity
  }

  /** Every number counted out is stored, lost or still in flight. */
  ghost predicate Accounted(s: State, entity: string) {
    Count(s.counters, entity) == |Stored(s, entity)| + Count(s.lost, entity) + |Flying(s, entity)|
  }

  ghost predicate Inv(s: State) {
    && NumbersDistinct(s)
    && (forall id :: id in s.calls ==> CallOk(s, id))
    && (forall entity :: Accounted(s, entity))
  }

  // ---------------------------------------------------------- each step keeps it

  lemma {:induction false} AccountedFrame(s: State, t: State, entity: string)
    requires Accounted(s, entity)
    requires t.hashes == s.hashes && t.counters == s.counters && t.lost == s.lost
    requires forall id :: id in t.calls && t.calls[id].at.InFlight() && t.calls[id].digest.entity == entity
                     <==> id in s.calls && s.calls[id].at.InFlight() && s.calls[id].digest.entity == entity
    ensures Accounted(t, entity)
  {
    assert Stored(t, entity) == Stored(s, entity);
    assert Flying(t, entity) == Flying(s, entity);
  }

  lemma {:induction false} BeginKeeps(s: State, id: nat, d: Digest)
    requires Inv(s) && id !in s.calls
    ensures Inv(Apply(s, Begin(id, d)))
  {
    var t := Apply(s, Begin(id, d));
    forall i | i in t.calls
      ensures CallOk(t, i)
    {
      if i != id { assert CallOk(s, i); }
    }
    forall entity
      ensures Accounted(t, entity)
    {
      assert Accounted(s, entity);
      AccountedFrame(s, t, entity);
    }
  }

  /** Steps that write nothing but the caller's own progress. */
  lemma {:induction false} QuietStepKeeps(s: State, id: nat, at: Progress)
    requires Inv(s) && id in s.calls
    requires at.InFlight() == s.calls[id].at.InFlight()
    requires at.InFlight() ==> at.count == s.calls[id].at.count
    requires at.Rereading? ==> s.calls[id].digest in s.hashes
    requires at.Done? ==> s.calls[id].digest in s.hashes && s.hashes[s.calls[id].digest] == at.count
    ensures Inv(SetCall(s, id, at))
  {
    var t := SetCall(s, id, at);
    forall i | i in t.calls
      ensures CallOk(t, i)
    {
      assert CallOk(s, i);
      if t.calls[i].at.InFlight() { FlightFrame(s, t, i); }
    }
    forall entity
      ensures Accounted(t, entity)
    {
      assert Accounted(s, entity);
      AccountedFrame(s, t, entity);
    }
  }

  /** A flying number stays its own while the store is untouched and nobody else
      takes off. */
  lemma {:induction false} FlightFrame(s: State, t: State, i: nat)
    requires i in s.calls && s.calls[i].at.InFlight() && FlightOwn(s, i)
    requires i in t.calls && t.calls[i].digest == s.calls[i].digest
    requires t.calls[i].at.InFlight() && t.calls[i].at.count == s.calls[i].at.count
    requires t.counters == s.counters
    requires forall d :: d in t.hashes && d.entity == s.calls[i].digest.entity ==>
      t.hashes[d] != s.calls[i].at.count || (d in s.hashes && s.hashes[d] == t.hashes[d])
    requires forall j :: j in t.calls && j != i && t.calls[j].at.InFlight() ==>
      && j in s.calls && s.calls[j].at.InFlight()
      && s.calls[j].at.count == t.calls[j].at.count && s.calls[j].digest == t.calls[j].digest
    ensures FlightOwn(t, i)
  {
  }

  lemma {:induction false} CountStepCalls(s: State, id: nat, i: nat)
    requires Inv(s) && id in s.calls && s.calls[id].at == Counting && i in s.calls
    ensures CallOk(AdvanceCall(s, id), i)
  {
    var t, e := AdvanceCall(s, id), s.calls[id].digest.entity;
    assert forall j :: j in s.calls ==> CallOk(s, j);
    assert forall x :: x != e ==> Count(t.counters, x) == Count(s.counters, x);
    if i != id {
      if s.calls[i].at.InFlight() { assert FlightOwn(s, i); }
    } else {
      assert forall j :: j in s.calls && s.calls[j].at.InFlight() ==> FlightOwn(s, j);
    }
  }

  lemma {:induction false} CountStepAccount(s: State, id: nat, x: string)
    requires id in s.calls && s.calls[id].at == Counting && Accounted(s, x)
    ensures Accounted(AdvanceCall(s, id), x)
  {
    var t := AdvanceCall(s, id);
    assert Stored(t, x) == Stored(s, x);
    if x == s.calls[id].digest.entity {
      assert id !in Flying(s, x);
      assert Flying(t, x) == Flying(s, x) + {id};
    } else {
      assert Flying(t, x) == Flying(s, x);
    }
  }

  lemma {:induction false} CountStepKeeps(s: State, id: nat)
    requires Inv(s) && id in s.calls && s.calls[id].at == Counting
    ensures Inv(AdvanceCall(s, id))
  {
    var t := AdvanceCall(s, id);
    forall i | i in t.calls
      ensures CallOk(t, i)
    {
      CountStepCalls(s, id, i);
    }
    forall x
      ensures Accounted(t, x)
    {
      assert Accounted(s, x);
      CountStepAccount(s, id, x);
    }
  }

  lemma {:induction false} LoseStepKeeps(s: State, id: nat)
    requires Inv(s) && id in s.calls && s.calls[id].at.Claiming? && s.calls[id].digest in s.hashes
    ensures Inv(AdvanceCall(s, id))
  {
    var t, e := AdvanceCall(s, id), s.calls[id].digest.entity;
    forall i | i in t.calls
      ensures CallOk(t, i)
    {
      assert CallOk(s, i);
      if t.calls[i].at.InFlight() { FlightFrame(s, t, i); }
    }
    assert forall x :: Count(t.lost, x) == if x == e then Count(s.lost, x) + 1 else Count(s.lost, x);
    forall x
      ensures Accounted(t, x)
    {
      assert Accounted(s, x);
      assert Stored(t, x) == Stored(s, x);
      Landing(s, t, id, x);
    }
  }

  lemma {:induction false} Landing(s: State, t: State, id: nat, entity: string)
    requires id in s.calls && s.calls[id].at.InFlight()
    requires t.calls.Keys == s.calls.Keys && t.calls[id].digest == s.calls[id].digest && !t.calls[id].at.InFlight()
    requires forall j :: j in s.calls && j != id ==> t.calls[j] == s.calls[j]
    ensures |Flying(t, entity)| == |Flying(s, entity)| - if entity == s.calls[id].digest.entity then 1 else 0
  {
    if entity == s.calls[id].digest.entity {
      assert id in Flying(s, entity);
      assert Flying(t, entity) == Flying(s, entity) - {id};
    } else {
      assert Flying(t, entity) == Flying(s, entity);
    }
  }

  lemma {:induction false} WinStepCalls(s: State, id: nat, i: nat)
    requires Inv(s) && id in s.calls && s.calls[id].at.Claiming? && s.calls[id].digest !in s.hashes && i in s.calls
    ensures CallOk(AdvanceCall(s, id), i)
  {
    var t := AdvanceCall(s, id);
    assert CallOk(s, i) && CallOk(s, id);
    if t.calls[i].at.InFlight() { FlightFrame(s, t, i); }
  }

  lemma {:induction false} WinStepAccount(s: State, id: nat, x: string)
    requires id in s.calls && s.calls[id].at.Claiming? && s.calls[id].digest !in s.hashes && Accounted(s, x)
    ensures Accounted(AdvanceCall(s, id), x)
  {
    var t, d := AdvanceCall(s, id), s.calls[id].digest;
    assert Stored(t, x) == if x == d.entity then Stored(s, x) + {d} else Stored(s, x);
    Landing(s, t, id, x);
  }

  lemma {:induction false} WinStepKeeps(s: State, id: nat)
    requires Inv(s) && id in s.calls && s.calls[id].at.Claiming? && s.calls[id].digest !in s.hashes
    ensures Inv(AdvanceCall(s, id))
  {
    var t := AdvanceCall(s, id);
    assert CallOk(s, id) && FlightOwn(s, id);
    assert NumbersDistinct(t);
    forall i | i in t.calls
      ensures CallOk(t, i)
    {
      WinStepCalls(s, id, i);
    }
    forall x
      ensures Accounted(t, x)
    {
      assert Accounted(s, x);
      WinStepAccount(s, id, x);
    }
  }

  lemma {:induction false} StepKeepsInv(s: State, a: Action)
    requires Inv(s)
    ensures Inv(Apply(s, a))
  {
    if a.Begin? {
      if a.id !in s.calls { BeginKeeps(s, a.id, a.digest); }
    } else if a.id in s.calls {
      var id, c := a.id, s.calls[a.id];
      assert CallOk(s, id);
      match c.at
      case Looking =>
        QuietStepKeeps(s, id, if c.digest in s.hashes then Done(s.hashes[c.digest]) else Counting);
      case Counting => CountStepKeeps(s, id);
      case Expiring(n) => QuietStepKeeps(s, id, Claiming(n));
      case Claiming(n) => if c.digest in s.hashes { LoseStepKeeps(s, id); } else { WinStepKeeps(s, id); }
      case Rereading(n) => QuietStepKeeps(s, id, Done(s.hashes[c.digest]));
      case Done(_) =>
    }
  }

  lemma {:induction false} RunKeepsInv(s: State, schedule: seq<Action>)
    requires Inv(s)
    ensures Inv(Run(s, schedule))
    decreases |schedule|
  {
    if schedule != [] {
      StepKeepsInv(s, schedule[0]);
      RunKeepsInv(Apply(s, schedule[0]), schedule[1..]);
    }
  }

  lemma {:induction false} EmptyInv()
    ensures Inv(EMPTY)
  {
    forall entity
      ensures Accounted(EMPTY, entity)
    {
      assert Stored(EMPTY, entity) == {} && Flying(EMPTY, entity) == {};
    }
  }

  // -------------------------------------------------------------- the guarantees

  /** Tokens of mintable types coincide only for the same type and number. */
  lemma {:induction false} TokensApart(d: Digest, n: nat, d': Digest, n': nat)
    requires Mintable(d.entity) && Mintable(d'.entity)
    ensures TokenFor(d, n) == TokenFor(d', n') <==> d.entity == d'.entity && n == n'
  {
    if TokenFor(d, n) == TokenFor(d', n') {
      TokenInjective(ShortOf(d.entity), n, ShortOf(d'.entity), n');
      assert d.entity == EntityOf(ShortOf(d.entity)) == d'.entity;
    }
  }

  /** Under every interleaving of any number of callers, two finished calls answer
      with the same token exactly when they asked about the same hash. */
  lemma {:induction false} FinishedCallsAgree(schedule: seq<Action>, i: nat, j: nat)
    requires var s := Run(EMPTY, schedule);
      && i in s.calls && s.calls[i].at.Done? && Mintable(s.calls[i].digest.entity)
      && j in s.calls && s.calls[j].at.Done? && Mintable(s.calls[j].digest.entity)
    ensures var s := Run(EMPTY, schedule);
      TokenFor(s.calls[i].digest, s.calls[i].at.count) == TokenFor(s.calls[j].digest, s.calls[j].at.count)
      <==> s.calls[i].digest == s.calls[j].digest
  {
    EmptyInv();
    RunKeepsInv(EMPTY, schedule);
    var s := Run(EMPTY, schedule);
    assert CallOk(s, i) && CallOk(s, j);
    TokensApart(s.calls[i].digest, s.calls[i].at.count, s.calls[j].digest, s.calls[j].at.count);
  }

  /** Under every interleaving each stored token belongs to one hash. */
  lemma {:induction false} StoredTokensApart(schedule: seq<Action>, d: Digest, d': Digest)
    requires var s := Run(EMPTY, schedule); d in s.hashes && d' in s.hashes
    requires Mintable(d.entity) && Mintable(d'.entity)
    ensures var s := Run(EMPTY, schedule);
      TokenFor(d, s.hashes[d]) == TokenFor(d', s.hashes[d']) <==> d == d'
  {
    EmptyInv();
    RunKeepsInv(EMPTY, schedule);
    var s := Run(EMPTY, schedule);
    TokensApart(d, s.hashes[d], d', s.hashes[d']);
  }

  /** Under every interleaving finished calls answered with the stored token, and
      every number counted out is stored, lost to a race or still in flight. */
  lemma {:induction false} EveryNumberAccounted(schedule: seq<Action>)
    ensures var s := Run(EMPTY, schedule);
      && (forall i :: i in s.calls && s.calls[i].at.Done?
            ==> s.calls[i].digest in s.hashes && s.hashes[s.calls[i].digest] == s.calls[i].at.count)
      && (forall entity :: Count(s.counters, entity)
            == |Stored(s, entity)| + Count(s.lost, entity) + |Flying(s, entity)|)
  {
    EmptyInv();
    RunKeepsInv(EMPTY, schedule);
    var s := Run(EMPTY, schedule);
    assert forall i :: i in s.calls ==> CallOk(s, i);
    forall entity
      ensures Count(s.counters, entity) == |Stored(s, entity)| + Count(s.lost, entity) + |Flying(s, entity)|
    {
      assert Accounted(s, entity);
    }
  }

  ghost predicate Extends(s: State, t: State) {
    && (forall d :: d in s.hashes ==> d in t.hashes && t.hashes[d] == s.hashes[d])
    && (forall i :: i in s.calls && s.calls[i].at.Done? ==> i in t.calls && t.calls[i] == s.calls[i])
    && (forall entity :: Count(s.counters, entity) <= Count(t.counters, entity))
  }

  /** Whatever runs afterwards, a stored token stays and a finished call keeps its
      answer; no counter goes down. */
  lemma {:induction false} NothingIsTakenBack(s: State, schedule: seq<Action>)
    ensures Extends(s, Run(s, schedule))
    decreases |schedule|
  {
    ExtendsItself(s);
    hide Apply, Extends;
    if schedule != [] {
      var t := Apply(s, schedule[0]);
      StepTakesNothingBack(s, schedule[0]);
      NothingIsTakenBack(t, schedule[1..]);
      ExtendsTransitive(s, t, Run(t, schedule[1..]));
    }
  }

  lemma {:induction false} ExtendsItself(s: State)
    ensures Extends(s, s)
  {
  }

  lemma {:induction false} StepTakesNothingBack(s: State, a: Action)
    ensures Extends(s, Apply(s, a))
  {
  }

  lemma {:induction false} ExtendsTransitive(s: State, t: State, u: State)
    requires Extends(s, t) && Extends(t, u)
    ensures Extends(s, u)
  {
    hide Count;
  }

  // --------------------------------------------------------------- a caller alone

  /** The number under hash `d` after one undisturbed call. */
  function MintedNumber(hashes: map<Digest, nat>, counters: map<string, nat>, d: Digest): nat {
    if d in hashes then hashes[d] else Count(counters, d.entity) + 1
  }

  function MintedCounters(hashes: map<Digest, nat>, counters: map<string, nat>, d: Digest): map<string, nat> {
    if d in hashes then counters else counters[d.entity := Count(counters, d.entity) + 1]
  }

  /** A fresh call left alone finishes after four commands, with the number and the
      store that `MintedNumber` and `MintedCounters` say. */
  lemma {:induction false} AloneIsMint(s: State, id: nat, d: Digest)
    requires id !in s.calls
    ensures var n := MintedNumber(s.hashes, s.counters, d);
            var t := Run(s, [Begin(id, d)] + Four(id));
            && t.hashes == s.hashes[d := n]
            && t.counters == MintedCounters(s.hashes, s.counters, d)
            && t.calls == s.calls[id := Call(d, Done(n))]
  {
    RunCons(s, Begin(id, d), Four(id));
    var s0 := s.(calls := s.calls[id := Call(d, Looking)]);
    if d in s.hashes {
      FirstStep(s0, id);
      var t := SetCall(s0, id, Done(s.hashes[d]));
      DoneStays(t, id, 3);
      assert s.hashes[d := s.hashes[d]] == s.hashes;
      assert t.calls == s.calls[id := Call(d, Done(s.hashes[d]))];
    } else {
      FreshSteps(s0, id);
      var n := Count(s.counters, d.entity) + 1;
      assert s0.calls[id := Call(d, Done(n))] == s.calls[id := Call(d, Done(n))];
    }
  }

  function Four(id: nat): seq<Action> {
    Advances(id, 4)
  }

  function Advances(id: nat, k: nat): seq<Action> {
    if k == 0 then [] else [Advance(id)] + Advances(id, k - 1)
  }

  lemma {:induction false} RunCons(s: State, a: Action, rest: seq<Action>)
    ensures Run(s, [a] + rest) == Run(Apply(s, a), rest)
  {
    assert ([a] + rest)[0] == a && ([a] + rest)[1..] == rest;
  }

  lemma {:induction false} FirstStep(s: State, id: nat)
    requires id in s.calls && s.calls[id].at.Looking? && s.calls[id].digest in s.hashes
    ensures Run(s, Four(id)) == Run(SetCall(s, id, Done(s.hashes[s.calls[id].digest])), Advances(id, 3))
  {
    RunCons(s, Advance(id), Advances(id, 3));
  }

  lemma {:induction false} DoneStays(s: State, id: nat, k: nat)
    requires id in s.calls && s.calls[id].at.Done?
    ensures Run(s, Advances(id, k)) == s
  {
    if k > 0 {
      RunCons(s, Advance(id), Advances(id, k - 1));
      DoneStays(s, id, k - 1);
    }
  }

  lemma {:induction false} FreshSteps(s: State, id: nat)
    requires id in s.calls && s.calls[id].at.Looking? && s.calls[id].digest !in s.hashes
    ensures var d := s.calls[id].digest;
            var n := Count(s.counters, d.entity) + 1;
            var t := Run(s, Four(id));
            && t.hashes == s.hashes[d := n]
            && t.counters == s.counters[d.entity := n]
            && t.calls == s.calls[id := Call(d, Done(n))]
  {
    var s1 := AdvanceCall(s, id);
    RunCons(s, Advance(id), Advances(id, 3));
    var s2 := AdvanceCall(s1, id);
    RunCons(s1, Advance(id), Advances(id, 2));
    var s3 := AdvanceCall(s2, id);
    RunCons(s2, Advance(id), Advances(id, 1));
    RunCons(s3, Advance(id), Advances(id, 0));
    assert Run(s, Four(id)) == AdvanceCall(s3, id);
  }
}
