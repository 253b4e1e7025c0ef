/** The waitlist's fixed-window rate limiter, per address. */
module RateLimiter {
  const RATE_LIMIT := 5
  const RATE_WINDOW_MS := 600000

  datatype Rec = Rec(count: nat, resetAt: int)

  type Hits = map<string, Rec>

  /** `!rec || now > rec.resetAt` */
  predicate Opens(hits: Hits, ip: string, now: int) {
    ip !in hits || now > hits[ip].resetAt
  }

  function Counted(hits: Hits, ip: string, now: int): Hits {
    hits[ip := if Opens(hits, ip, now) then Rec(1, now + RATE_WINDOW_MS) else hits[ip].(count := hits[ip].count + 1)]
  }

  predicate Admits(hits: Hits, ip: string, now: int) {
    Counted(hits, ip, now)[ip].count <= RATE_LIMIT
  }

  class Limiter {
    var hits: Hits

    constructor ()
      ensures hits == map[]
    {
      hits := map[];
    }

    method RateLimited(ip: string, now: int) returns (limited: bool, retryAfter: int)
      modifies this
      ensures hits == Counted(old(hits), ip, now)
      ensures limited <==> !Admits(old(hits), ip, now)
      ensures 0 <= retryAfter && (limited ==> hits[ip].resetAt <= now + retryAfter * 1000 < hits[ip].resetAt + 1000)
    {
      if ip !in hits || now > hits[ip].resetAt {
        hits := hits[ip := Rec(1, now + RATE_WINDOW_MS)];
        return false, 0;
      }
      var rec := hits[ip].(count := hits[ip].count + 1);
      hits := hits[ip := rec];
      if rec.count > RATE_LIMIT {
        return true, (rec.resetAt - now + 999) / 1000;
      }
      return false, 0;
    }
  }

  // -------------------------------------------------------------------------- runs

  datatype Request = Request(ip: string, now: int)

  function After(rs: seq<Request>): Hits {
    if rs == [] then map[] else Counted(After(rs[..|rs| - 1]), rs[|rs| - 1].ip, rs[|rs| - 1].now)
  }

  /** Whether the `i`-th request of a run is let through. */
  predicate Admitted(rs: seq<Request>, i: nat)
    requires i < |rs|
  {
    Admits(After(rs[..i]), rs[i].ip, rs[i].now)
  }

  /** How many requests of an address are let through at or after `from`, and not after
      `to`. */
  function Passed(rs: seq<Request>, ip: string, from: int, to: int): nat {
    if rs == [] then 0
    else
      var n := |rs| - 1;
      Passed(rs[..n], ip, from, to) + (if rs[n].ip == ip && from <= rs[n].now <= to && Admitted(rs, n) then 1 else 0)
  }

  ghost predicate ClockAscends(rs: seq<Request>) {
    forall i, j :: 0 <= i < j < |rs| ==> rs[i].now <= rs[j].now
  }

  // -------------------------------------------------------------------- independence

  function Own(rs: seq<Request>, ip: string): seq<Request> {
    if rs == [] then []
    else
      var own, r := Own(rs[..|rs| - 1], ip), rs[|rs| - 1];
      if r.ip == ip then own + [r] else own
  }

  /** What other addresses do changes nothing: an address's record, and the answer to its
      next request, are those of its own requests alone. */
  lemma {:induction false} Independent(rs: seq<Request>, ip: string, now: int)
    ensures ip in After(rs) <==> ip in After(Own(rs, ip))
    ensures ip in After(rs) ==> After(rs)[ip] == After(Own(rs, ip))[ip]
    ensures Admits(After(rs), ip, now) <==> Admits(After(Own(rs, ip)), ip, now)
    decreases |rs|
  {
    if rs != [] {
      var init, r := rs[..|rs| - 1], rs[|rs| - 1];
      Independent(init, ip, r.now);
      var own := Own(init, ip);
      assert (own + [r])[..|own|] == own;
    }
  }

  // --------------------------------------------------------------------------- bounds

  function Min(a: nat, b: nat): nat {
    if a <= b then a else b
  }

  /** The start of the address's current window. */
  function Start(hits: Hits, ip: string): int
    requires ip in hits
  {
    hits[ip].resetAt - RATE_WINDOW_MS
  }

  /** Where an address stands after a run: no request of its after its current window, and
      what that window has let through, in all and after its first instant, and together
      with what was let through in a window's length before it. */
  ghost predicate Standing(rs: seq<Request>, ip: string) {
    var hits := After(rs);
    if ip !in hits then forall from, to :: Passed(rs, ip, from, to) == 0
    else
      var s, c := Start(hits, ip), Min(hits[ip].count, RATE_LIMIT);
      && hits[ip].count >= 1
      && (exists r :: r in rs && r.now == s)
      && (forall from, to :: s + RATE_WINDOW_MS < from ==> Passed(rs, ip, from, to) == 0)
      && (forall from, to :: s < from ==> Passed(rs, ip, from, to) <= c - 1)
      && (forall from, to :: s <= from ==> Passed(rs, ip, from, to) <= c)
      && (forall from, to :: s - RATE_WINDOW_MS <= from ==> Passed(rs, ip, from, to) <= c + RATE_LIMIT - 1)
      && (forall from, to :: to <= from + RATE_WINDOW_MS ==> Passed(rs, ip, from, to) <= 2 * RATE_LIMIT - 1)
  }

  lemma {:induction false} PassedSnoc(rs: seq<Request>, r: Request, ip: string, from: int, to: int)
    ensures Passed(rs + [r], ip, from, to) ==
      Passed(rs, ip, from, to) + if r.ip == ip && from <= r.now <= to && Admits(After(rs), r.ip, r.now) then 1 else 0
    ensures After(rs + [r]) == Counted(After(rs), r.ip, r.now)
  {
    hide Admits, Counted;
    assert (rs + [r])[..|rs|] == rs;
  }

  lemma {:induction false} StandingStep(rs: seq<Request>, r: Request, ip: string)
    requires Standing(rs, ip) && forall q :: q in rs ==> q.now <= r.now
    ensures Standing(rs + [r], ip)
  {
    hide After, Passed;
    forall from, to ensures Passed(rs + [r], ip, from, to) ==
      Passed(rs, ip, from, to) + if r.ip == ip && from <= r.now <= to && Admits(After(rs), r.ip, r.now) then 1 else 0 {
      PassedSnoc(rs, r, ip, from, to);
    }
    PassedSnoc(rs, r, ip, 0, 0);
    assert r in rs + [r];
    if ip in After(rs) {
      var q :| q in rs && q.now == Start(After(rs), ip);
      assert q in rs + [r];
    }
  }

  lemma {:induction false} AlwaysStanding(rs: seq<Request>, ip: string)
    requires ClockAscends(rs)
    ensures Standing(rs, ip)
    decreases |rs|
  {
    if rs != [] {
      hide Standing;
      var init, r := rs[..|rs| - 1], rs[|rs| - 1];
      assert rs == init + [r];
      AlwaysStanding(init, ip);
      StandingStep(init, r, ip);
    }
  }

  /** Any stretch of a window's length lets at most nine requests of an address through,
      one less than two windows' worth. */
  lemma {:induction false} AtMostNine(rs: seq<Request>, ip: string, from: int)
    requires ClockAscends(rs)
    ensures Passed(rs, ip, from, from + RATE_WINDOW_MS) <= 2 * RATE_LIMIT - 1
  {
    AlwaysStanding(rs, ip);
    hide Passed, After;
  }

  /** The `i`-th request opens a window for its address. */
  predicate OpensAt(rs: seq<Request>, ip: string, i: nat) {
    i < |rs| && rs[i].ip == ip && Opens(After(rs[..i]), ip, rs[i].now)
  }

  /** A window once opened is the current one, or the current one opened after its end. */
  lemma {:induction false} WindowsApart(rs: seq<Request>, ip: string, i: nat)
    requires ClockAscends(rs) && OpensAt(rs, ip, i)
    ensures ip in After(rs)
    ensures var s := Start(After(rs), ip); s == rs[i].now || rs[i].now + RATE_WINDOW_MS < s
    decreases |rs|
  {
    var init, r := rs[..|rs| - 1], rs[|rs| - 1];
    if i < |rs| - 1 {
      assert init[..i] == rs[..i];
      WindowsApart(init, ip, i);
    }
  }

  /** Each window, from the request that opens it, lets at most five through. */
  lemma {:induction false} WindowBound(rs: seq<Request>, ip: string, i: nat)
    requires ClockAscends(rs) && OpensAt(rs, ip, i)
    ensures Passed(rs, ip, rs[i].now, rs[i].now + RATE_WINDOW_MS) <= RATE_LIMIT
    decreases |rs|
  {
    hide After, Standing, Passed, Opens;
    var init, r, from := rs[..|rs| - 1], rs[|rs| - 1], rs[i].now;
    assert rs == init + [r];
    AlwaysStanding(rs, ip);
    WindowsApart(rs, ip, i);
    if Start(After(rs), ip) == from {
      CurrentWindowBound(rs, ip, from);
    } else {
      if i == |rs| - 1 { LastOpens(rs, ip); }
      assert init[..i] == rs[..i];
      WindowBound(init, ip, i);
      LaterNotCounted(init, r, ip, from);
    }
  }

  lemma {:induction false} CurrentWindowBound(rs: seq<Request>, ip: string, from: int)
    requires Standing(rs, ip) && ip in After(rs) && Start(After(rs), ip) == from
    ensures Passed(rs, ip, from, from + RATE_WINDOW_MS) <= RATE_LIMIT
  {
    hide After, Passed;
  }

  lemma {:induction false} LastOpens(rs: seq<Request>, ip: string)
    requires rs != [] && OpensAt(rs, ip, |rs| - 1)
    ensures ip in After(rs) && Start(After(rs), ip) == rs[|rs| - 1].now
  {
  }

  lemma {:induction false} LaterNotCounted(rs: seq<Request>, r: Request, ip: string, from: int)
    requires ClockAscends(rs + [r]) && ip in After(rs + [r]) && from + RATE_WINDOW_MS < Start(After(rs + [r]), ip)
    ensures Passed(rs + [r], ip, from, from + RATE_WINDOW_MS) == Passed(rs, ip, from, from + RATE_WINDOW_MS)
  {
    AlwaysStanding(rs + [r], ip);
    hide After, Passed;
    PassedSnoc(rs, r, ip, from, from + RATE_WINDOW_MS);
    var q :| q in rs + [r] && q.now == Start(After(rs + [r]), ip);
    var k :| 0 <= k < |rs + [r]| && (rs + [r])[k] == q;
    assert q.now <= r.now;
  }

  /** Nine do happen: one request, four at the end of its window, five just after. */
  lemma {:induction false} NineHappen(ip: string) returns (rs: seq<Request>)
    ensures ClockAscends(rs) && Passed(rs, ip, 1, 1 + RATE_WINDOW_MS) == 2 * RATE_LIMIT - 1
  {
    hide After, Passed;
    var w := RATE_WINDOW_MS;
    rs := [Request(ip, 0)];
    assert rs == [] + [Request(ip, 0)];
    NoRequests(ip, 1, 1 + w);
    PassedSnoc([], Request(ip, 0), ip, 1, 1 + w);
    for i := 0 to 4
      invariant After(rs) == map[ip := Rec(1 + i, w)] && Passed(rs, ip, 1, 1 + w) == i
      invariant ClockAscends(rs) && forall r :: r in rs ==> r.now <= w
    {
      PassedSnoc(rs, Request(ip, w), ip, 1, 1 + w);
      rs := rs + [Request(ip, w)];
    }
    PassedSnoc(rs, Request(ip, w + 1), ip, 1, 1 + w);
    rs := rs + [Request(ip, w + 1)];
    for i := 0 to 4
      invariant After(rs) == map[ip := Rec(1 + i, 2 * w + 1)] && Passed(rs, ip, 1, 1 + w) == 5 + i
      invariant ClockAscends(rs) && forall r :: r in rs ==> r.now <= w + 1
    {
      PassedSnoc(rs, Request(ip, w + 1), ip, 1, 1 + w);
      rs := rs + [Request(ip, w + 1)];
    }
  }

  lemma {:induction false} NoRequests(ip: string, from: int, to: int)
    ensures After([]) == map[] && Passed([], ip, from, to) == 0
  {
  }

  /** Requests of one address, none more than ten minutes after the first. */
  ghost predicate InFirstWindow(rs: seq<Request>) {
    forall i :: 0 <= i < |rs| ==> rs[i].ip == rs[0].ip && rs[i].now <= rs[0].now + 600000
  }

  /** Of an address's requests within ten minutes of its first, the first five are let
      through; the next is let through then, or as soon as ten minutes have passed. */
  lemma {:induction false} FiveInTenMinutes(rs: seq<Request>, now: int)
    requires rs != [] && InFirstWindow(rs)
    ensures forall i :: 0 <= i < |rs| ==> (Admitted(rs, i) <==> i < 5)
    ensures Admits(After(rs), rs[0].ip, now) <==> |rs| < 5 || now > rs[0].now + 600000
    ensures rs[0].ip in After(rs) && After(rs)[rs[0].ip] == Rec(|rs|, rs[0].now + 600000)
    decreases |rs|
  {
    var n := |rs| - 1;
    var init := rs[..n];
    if n > 0 {
      FiveInTenMinutes(init, rs[n].now);
      forall i | 0 <= i < n ensures Admitted(rs, i) <==> i < 5 {
        assert init[..i] == rs[..i] && init[i] == rs[i];
        assert Admitted(init, i) <==> i < 5;
      }
    } else {
      assert init == [];
    }
  }
}
