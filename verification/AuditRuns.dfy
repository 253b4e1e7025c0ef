/** What the verifiers say about a log after any run of events: the daily verifier on
    the keys as left and on any list put in their place, the durable one on the mirror. */
module AuditRuns {
  import opened Tokens
  import opened AuditChain
  import opened AuditStore
  import opened AuditLog

  /** An entry of the day with an earlier one before it directly follows one: no other
      day's entry stands between two of the day's. */
  ghost predicate Contiguous(ls: seq<Link>, d: nat) {
    forall i, k :: 0 <= i < k < |ls| && ls[i].day == d && ls[k].day == d ==> ls[k - 1].day == d
  }

  ghost predicate DaysAscend(ls: seq<Link>) {
    forall i, j :: 0 <= i < j < |ls| ==> ls[i].day <= ls[j].day
  }

  /** The daily verifier's answer on the keys as a run leaves them. */
  function VerdictAfter(c: Crypto, es: seq<Event>, k: DayKey): Verdict {
    DayVerdict(c, ListAt(After(c, es).lists, k), HashAt(After(c, es).genesis, k), MarkAt(After(c, es).marks, k))
  }

  // ------------------------------------------------------------ one day of a chain

  lemma {:induction false} OfDayMembers(ls: seq<Link>, d: nat)
    ensures forall l :: l in OfDay(ls, d) <==> l in ls && l.day == d
    ensures |OfDay(ls, d)| <= |ls|
    ensures |OfDay(ls, d)| == |ls| ==> OfDay(ls, d) == ls
    decreases |ls|
  {
    if ls != [] {
      OfDayMembers(ls[..|ls| - 1], d);
      assert ls == ls[..|ls| - 1] + [ls[|ls| - 1]];
    }
  }

  lemma {:induction false} OfDayAppend(a: seq<Link>, b: seq<Link>, d: nat)
    ensures OfDay(a + b, d) == OfDay(a, d) + OfDay(b, d)
    decreases |b|
  {
    if b == [] {
      assert a + b == a;
    } else {
      var init, l := b[..|b| - 1], b[|b| - 1];
      OfDayAppend(a, init, d);
      assert a + b == (a + init) + [l] && b == init + [l];
      OfDaySnoc(a + init, l, d);
      OfDaySnoc(init, l, d);
    }
  }

  /** Where the day's first and last entries stand. */
  lemma {:induction false} DayBounds(ls: seq<Link>, d: nat) returns (first: nat, last: nat)
    requires OfDay(ls, d) != []
    ensures first <= last < |ls|
    ensures OfDay(ls[..first], d) == [] && OfDay(ls[..last + 1], d) == OfDay(ls, d)
    ensures ls[first] == OfDay(ls, d)[0] && ls[last] == OfDay(ls, d)[|OfDay(ls, d)| - 1]
    ensures ls[first].day == d && ls[last].day == d && (forall i :: last < i < |ls| ==> ls[i].day != d)
    decreases |ls|
  {
    var n := |ls| - 1;
    var init := ls[..n];
    assert ls == init + [ls[n]];
    if OfDay(init, d) == [] {
      first, last := n, n;
      assert ls[..n + 1] == ls;
    } else {
      first, last := DayBounds(init, d);
      assert init[..first] == ls[..first];
      if ls[n].day == d {
        last := n;
        assert ls[..n + 1] == ls;
      } else {
        assert init[..last + 1] == ls[..last + 1];
      }
    }
  }

  lemma {:induction false} ContiguousSnoc(ls: seq<Link>, l: Link, d: nat)
    ensures Contiguous(ls + [l], d) <==>
      Contiguous(ls, d) && (l.day == d && OfDay(ls, d) != [] ==> ls != [] && ls[|ls| - 1].day == d)
  {
    var all := ls + [l];
    LoggedDay(ls, d);
    hide OfDay;
    assert all[|ls|] == l && forall i :: 0 <= i < |ls| ==> all[i] == ls[i];
    if Contiguous(all, d) {
      forall i, k | 0 <= i < k < |ls| && ls[i].day == d && ls[k].day == d ensures ls[k - 1].day == d {
        assert all[i].day == d && all[k].day == d && all[k - 1] == ls[k - 1];
      }
      if l.day == d && OfDay(ls, d) != [] {
        var i :| 0 <= i < |ls| && ls[i].day == d;
        assert all[i].day == d && all[|ls| - 1] == ls[|ls| - 1];
      }
    }
  }

  lemma {:induction false} LoggedDay(ls: seq<Link>, d: nat)
    ensures OfDay(ls, d) != [] <==> exists i :: 0 <= i < |ls| && ls[i].day == d
  {
    OfDayMembers(ls, d);
    hide OfDay;
    if OfDay(ls, d) != [] {
      assert OfDay(ls, d)[0] in ls;
    }
    if i :| 0 <= i < |ls| && ls[i].day == d {
      assert ls[i] in OfDay(ls, d);
    }
  }

  /** The tip of the day's entries is the tip of the chain exactly when the chain ends
      on that day. */
  lemma {:induction false} DayTip(c: Crypto, ls: seq<Link>, d: nat)
    requires c.Sound() && Linked(c, ls, GENESIS) && OfDay(ls, d) != []
    ensures Tip(OfDay(ls, d), GENESIS) == Tip(ls, GENESIS) <==> ls[|ls| - 1].day == d
  {
    hide Linked, Crypto.Sound, OfDay;
    var first, last := DayBounds(ls, d);
    if last < |ls| - 1 {
      HashesDistinct(c, ls, last, |ls| - 1);
    }
  }

  /** A day's entries link up exactly when they are contiguous in the chain. */
  lemma {:induction false} DayLinkedWhenContiguous(c: Crypto, ls: seq<Link>, d: nat)
    requires c.Sound() && Linked(c, ls, GENESIS) && OfDay(ls, d) != []
    ensures Linked(c, OfDay(ls, d), OfDay(ls, d)[0].prev) <==> Contiguous(ls, d)
    decreases |ls|
  {
    var init, l := ls[..|ls| - 1], ls[|ls| - 1];
    assert ls == init + [l];
    hide Linked, Crypto.Sound, OfDay, Contiguous, Signed;
    LinkedSnoc(c, init, l, GENESIS);
    OfDaySnoc(init, l, d);
    ContiguousSnoc(init, l, d);
    var ds := OfDay(init, d);
    if ds != [] {
      DayLinkedWhenContiguous(c, init, d);
      DayTip(c, init, d);
      LinkedSnoc(c, ds, l, ds[0].prev);
    } else {
      LinkedNone(c, l.prev);
      LinkedSnoc(c, [], l, l.prev);
      NoneContiguous(init, d);
    }
  }

  lemma {:induction false} LinkedNone(c: Crypto, start: string)
    ensures Linked(c, [], start)
  {
  }

  lemma {:induction false} NoneContiguous(ls: seq<Link>, d: nat)
    requires OfDay(ls, d) == []
    ensures Contiguous(ls, d)
  {
    OfDayMembers(ls, d);
    assert forall i :: 0 <= i < |ls| ==> ls[i] in ls;
  }

  // --------------------------------------------------------------- the daily verifier

  /** Days whose events were not interleaved with another day's verify, with the exact
      count; no other day does. */
  lemma {:induction false} HonestDayVerifies(c: Crypto, es: seq<Event>, k: DayKey)
    requires c.Sound()
    ensures var ls := Chain(c, es, k.tenant);
      if Contiguous(ls, k.day) then VerdictAfter(c, es, k) == Accepted(|OfDay(ls, k.day)|)
      else VerdictAfter(c, es, k).Rejected?
  {
    var ls := Chain(c, es, k.tenant);
    DayAfter(c, es, k);
    ChainLinked(c, es, k.tenant);
    if OfDay(ls, k.day) == [] {
      NoneContiguous(ls, k.day);
    } else {
      DayGenesis(c, es, k);
      hide Linked, Crypto.Sound, OfDay, Contiguous, Walk, After, Chain, StoredAll;
      DayVerdictHonest(c, ls, k.day);
    }
  }

  /** Three events of one tenant on days 1, 2 and 1: nobody touched day 1, and it is
      rejected. */
  lemma {:induction false} BackAndForthRejected(c: Crypto, f: Fields, g: Fields, h: Fields)
    requires c.Sound() && f.tenantId == g.tenantId == h.tenantId
    ensures VerdictAfter(c, [Event(f, 1), Event(g, 2), Event(h, 1)], DayKey(f.tenantId, 1)).Rejected?
  {
    hide Crypto.Sound, Sign, VerdictAfter;
    var es := [Event(f, 1), Event(g, 2), Event(h, 1)];
    var t := f.tenantId;
    assert es[..2] == [Event(f, 1)] + [Event(g, 2)] && es == es[..2] + [Event(h, 1)] && [Event(f, 1)] == [] + [Event(f, 1)];
    ChainSnoc(c, [], Event(f, 1), t);
    ChainSnoc(c, [Event(f, 1)], Event(g, 2), t);
    ChainSnoc(c, es[..2], Event(h, 1), t);
    var ls := Chain(c, es, t);
    SignedDays(c, f, 1, Tip(ls[..0], GENESIS));
    SignedDays(c, g, 2, Tip(ls[..1], GENESIS));
    SignedDays(c, h, 1, Tip(ls[..2], GENESIS));
    assert ls[..0] == Chain(c, [], t) && ls[..1] == Chain(c, [Event(f, 1)], t) && ls[..2] == Chain(c, es[..2], t);
    assert ls[0].day == 1 && ls[1].day == 2 && ls[2].day == 1;
    HonestDayVerifies(c, es, DayKey(t, 1));
  }

  lemma {:induction false} SignedDays(c: Crypto, f: Fields, d: nat, prev: string)
    ensures Sign(c, f, d, prev).day == d
  {
    hide Body;
  }

  lemma {:induction false} DayVerdictHonest(c: Crypto, ls: seq<Link>, d: nat)
    requires c.Sound() && Linked(c, ls, GENESIS) && OfDay(ls, d) != []
    ensures var ds := OfDay(ls, d);
      var v := DayVerdict(c, StoredAll(ds), ds[0].prev, Some(Mark(|ds|, c.MarkMac(|ds|, Tip(ds, GENESIS)))));
      if Contiguous(ls, d) then v == Accepted(|ds|) else v.Rejected?
  {
    var ds := OfDay(ls, d);
    DaySigned(c, ls, d);
    hide Linked, Crypto.Sound, OfDay, Contiguous, Signed, Walk, StoredAll;
    DayLinkedWhenContiguous(c, ls, d);
    WalkHonest(c, ds, ds[0].prev);
    assert Tip(ds, ds[0].prev) == Tip(ds, GENESIS);
  }

  lemma {:induction false} DayAfter(c: Crypto, es: seq<Event>, k: DayKey)
    requires c.Sound()
    ensures DayFaithful(c, After(c, es), k, OfDay(Chain(c, es, k.tenant), k.day))
  {
    hide DayFaithful, After, Chain, OfDay, Crypto.Sound;
    RunIsFaithful(c, es, k.tenant);
    assert DayKey(k.tenant, k.day) == k;
  }

  lemma {:induction false} DaySigned(c: Crypto, ls: seq<Link>, d: nat)
    requires Linked(c, ls, GENESIS)
    ensures forall i :: 0 <= i < |OfDay(ls, d)| ==> Signed(c, OfDay(ls, d)[i])
  {
    hide Signed, OfDay;
    OfDayMembers(ls, d);
    forall i | 0 <= i < |OfDay(ls, d)| ensures Signed(c, OfDay(ls, d)[i]) {
      assert OfDay(ls, d)[i] in ls;
    }
  }

  /** The genesis a logged day starts from is the hash before its first entry. */
  lemma {:induction false} DayGenesis(c: Crypto, es: seq<Event>, k: DayKey)
    requires c.Sound() && OfDay(Chain(c, es, k.tenant), k.day) != []
    ensures HashAt(After(c, es).genesis, k) == OfDay(Chain(c, es, k.tenant), k.day)[0].prev
  {
    var ls := Chain(c, es, k.tenant);
    DayAfter(c, es, k);
    ChainLinked(c, es, k.tenant);
    hide After, Chain, OfDay, DayFaithful;
    var first, last := DayBounds(ls, k.day);
    LinkedAt(c, ls, first);
    if first > 0 {
      LinkedAt(c, ls, first - 1);
      SignedNotEmpty(c, ls[first - 1]);
    }
    RecordedGenesis(c, After(c, es), k, OfDay(ls, k.day));
  }

  lemma {:induction false} RecordedGenesis(c: Crypto, s: LogState, k: DayKey, ds: seq<Link>)
    requires DayFaithful(c, s, k, ds) && ds != [] && ds[0].prev != ""
    ensures HashAt(s.genesis, k) == ds[0].prev
  {
  }

  lemma {:induction false} SignedNotEmpty(c: Crypto, l: Link)
    requires c.Sound() && Signed(c, l)
    ensures l.hash != ""
  {
    hide Body;
  }

  /** With the genesis and the watermark as the run left them, any list whatever put in
      place of a logged day's is accepted exactly when it is that day's list, and the
      day was not interleaved with another. */
  lemma {:induction false} RedisTamperEvidence(c: Crypto, es: seq<Event>, k: DayKey, list: seq<Dict>)
    requires c.Sound() && OfDay(Chain(c, es, k.tenant), k.day) != []
    ensures var s := After(c, es);
      DayVerdict(c, list, HashAt(s.genesis, k), MarkAt(s.marks, k)).Accepted? <==>
        list == ListAt(s.lists, k) && Contiguous(Chain(c, es, k.tenant), k.day)
  {
    var s, ls := After(c, es), Chain(c, es, k.tenant);
    var ds := OfDay(ls, k.day);
    DayAfter(c, es, k);
    DayGenesis(c, es, k);
    HonestDayVerifies(c, es, k);
    ChainLinked(c, es, k.tenant);
    hide Crypto.Sound, Walk, After, Chain, OfDay, Linked, Contiguous, StoredAll, Stored;
    var verdict := DayVerdict(c, list, ds[0].prev, MarkAt(s.marks, k));
    if verdict.Accepted? {
      MarkPins(c, list, ds[0].prev, |ds|, Tip(ds, GENESIS));
      AcceptedIsTheDay(c, list, ls, k.day);
    }
  }

  /** A mark that vouches for anything is one that some event of the run wrote. */
  ghost predicate UnforgedMark(c: Crypto, es: seq<Event>, m: Mark) {
    forall n: nat, hash :: Vouches(c, m, n, hash) ==> exists j :: 0 <= j < |es| && WroteMark(c, es, j, m)
  }

  ghost predicate WroteMark(c: Crypto, es: seq<Event>, j: nat, m: Mark)
    requires j < |es|
  {
    MarkAt(After(c, es[..j + 1]).marks, es[j].Key()) == Some(m)
  }

  /** The tenant's chain just after event `j`, and how many of its entries are of that
      event's day. */
  function ChainThen(c: Crypto, es: seq<Event>, j: nat): seq<Link>
    requires j < |es|
  {
    Chain(c, es[..j + 1], es[j].fields.tenantId)
  }

  function CountThen(c: Crypto, es: seq<Event>, j: nat): nat
    requires j < |es|
  {
    |OfDay(ChainThen(c, es, j), es[j].day)|
  }

  /** List, genesis and mark as they could have stood just after event `j`: its mark, and
      as many of the newest entries of its tenant as its day then had. */
  ghost predicate StoodAfter(c: Crypto, es: seq<Event>, j: nat, list: seq<Dict>, start: string, m: Mark)
    requires j < |es|
  {
    && WroteMark(c, es, j, m)
    && |list| == CountThen(c, es, j)
    && EndsChain(list, ChainThen(c, es, j), start)
  }

  /** Any list, any genesis and any mark no signature of which was forged: accepted exactly
      when the three stood together just after some event of the run. So garbage and other
      lists' marks are refused, and going back to an earlier moment is all that passes. */
  lemma {:induction false} RedisReplayExactly(c: Crypto, es: seq<Event>, list: seq<Dict>, start: string, m: Mark)
    requires c.Sound() && UnforgedMark(c, es, m)
    ensures DayVerdict(c, list, start, Some(m)).Accepted? <==>
      exists j :: 0 <= j < |es| && StoodAfter(c, es, j, list, start, m)
  {
    hide Crypto.Sound, StoodAfter, WroteMark, Vouches, GoodEntry, DayVerdict;
    DayVerdictExactly(c, list, start, Some(m));
    if DayVerdict(c, list, start, Some(m)).Accepted? {
      assert Vouches(c, m, |list|, LastHash(list, start));
      var j :| 0 <= j < |es| && WroteMark(c, es, j, m);
      AcceptedStood(c, es, j, list, start, m);
    } else if j :| 0 <= j < |es| && StoodAfter(c, es, j, list, start, m) {
      StoodAccepted(c, es, j, list, start, m);
    }
  }

  lemma {:induction false} AcceptedStood(c: Crypto, es: seq<Event>, j: nat, list: seq<Dict>, start: string, m: Mark)
    requires c.Sound() && j < |es| && WroteMark(c, es, j, m) && DayVerdict(c, list, start, Some(m)).Accepted?
    ensures StoodAfter(c, es, j, list, start, m)
  {
    hide Crypto.Sound, DayVerdict, ChainThen, CountThen, EndsChain, Linked, Walk;
    MarkWritten(c, es, j);
    var ls := ChainThen(c, es, j);
    MarkPins(c, list, start, CountThen(c, es, j), Tip(ls, GENESIS));
    WalkBack(c, list, ls, start);
  }

  lemma {:induction false} StoodAccepted(c: Crypto, es: seq<Event>, j: nat, list: seq<Dict>, start: string, m: Mark)
    requires c.Sound() && j < |es| && StoodAfter(c, es, j, list, start, m)
    ensures DayVerdict(c, list, start, Some(m)).Accepted?
  {
    hide Crypto.Sound, ChainThen, CountThen, Linked, Walk, EndsChain, After, Crypto.MarkMac, Tip;
    MarkWritten(c, es, j);
    EndIsWalked(c, ChainThen(c, es, j), list, start);
  }

  lemma {:induction false} EndIsWalked(c: Crypto, ls: seq<Link>, list: seq<Dict>, start: string)
    requires Linked(c, ls, GENESIS) && EndsChain(list, ls, start) && list != []
    ensures Walk(c, list, start) == Reached(Tip(ls, GENESIS))
  {
    hide Linked, Walk, StoredAll, Signed;
    var n := |ls| - |list|;
    LinkedTail(c, ls, n);
    WalkHonest(c, ls[n..], start);
    assert Tip(ls[n..], start) == Tip(ls, GENESIS);
  }

  lemma {:induction false} LinkedTail(c: Crypto, ls: seq<Link>, n: nat)
    requires Linked(c, ls, GENESIS) && n <= |ls|
    ensures Linked(c, ls[n..], Tip(ls[..n], GENESIS)) && forall i :: n <= i < |ls| ==> Signed(c, ls[i])
  {
    hide Signed;
    forall i | 0 <= i < |ls| - n ensures ls[n..][i].prev == Tip(ls[n..][..i], Tip(ls[..n], GENESIS)) {
      assert ls[n..][..i] == ls[n..n + i];
    }
  }

  /** What event `j` wrote as the mark of its day, over a linked chain. */
  lemma {:induction false} MarkWritten(c: Crypto, es: seq<Event>, j: nat)
    requires c.Sound() && j < |es|
    ensures var ls := ChainThen(c, es, j);
      && Linked(c, ls, GENESIS) && CountThen(c, es, j) > 0
      && MarkAt(After(c, es[..j + 1]).marks, es[j].Key()) == Some(Mark(CountThen(c, es, j), c.MarkMac(CountThen(c, es, j), Tip(ls, GENESIS))))
  {
    var e, init, k := es[j], es[..j], es[j].Key();
    assert es[..j + 1] == init + [e];
    var ls := Chain(c, init, k.tenant);
    var l := Sign(c, e.fields, e.day, Tip(ls, GENESIS));
    SignedDays(c, e.fields, e.day, Tip(ls, GENESIS));
    ChainSnoc(c, init, e, k.tenant);
    OfDaySnoc(ls, l, e.day);
    DayAfter(c, es[..j + 1], k);
    ChainLinked(c, es[..j + 1], k.tenant);
    hide After, Chain, OfDay, Sign, Linked, Crypto.Sound, Crypto.MarkMac, StoredAll;
  }

  lemma {:induction false} MarkPins(c: Crypto, list: seq<Dict>, start: string, n: nat, tip: string)
    requires c.Sound() && DayVerdict(c, list, start, Some(Mark(n, c.MarkMac(n, tip)))).Accepted?
    ensures |list| == n && Walk(c, list, start) == Reached(tip)
  {
    hide Walk;
    var x := Walk(c, list, start).hash;
    var p := IntText(n) + ":";
    assert c.mac(p + x) == c.mac(p + tip);
    assert (p + x)[|p|..] == x && (p + tip)[|p|..] == tip;
  }

  lemma {:induction false} AcceptedIsTheDay(c: Crypto, list: seq<Dict>, ls: seq<Link>, d: nat)
    requires c.Sound() && Linked(c, ls, GENESIS) && OfDay(ls, d) != [] && |list| == |OfDay(ls, d)|
    requires Walk(c, list, OfDay(ls, d)[0].prev) == Reached(Tip(OfDay(ls, d), GENESIS))
    ensures list == StoredAll(OfDay(ls, d))
  {
    hide Walk, Linked, OfDay, Crypto.Sound, StoredAll, EndsChain, Tip;
    var ds := OfDay(ls, d);
    var first, last := DayBounds(ls, d);
    var p := ls[..last + 1];
    LinkedPrefix(c, ls, last + 1, GENESIS);
    TipOf(p, ds);
    WalkBack(c, list, p, ds[0].prev);
    EndsFrom(c, list, ls, last + 1, first);
    DayFillsSegment(ls, d, first, last);
    EndsWith(list, p, ds[0].prev);
  }

  lemma {:induction false} TipOf(p: seq<Link>, ds: seq<Link>)
    requires p != [] && ds != [] && p[|p| - 1] == ds[|ds| - 1]
    ensures Tip(p, GENESIS) == Tip(ds, GENESIS)
  {
  }

  lemma {:induction false} EndsWith(list: seq<Dict>, p: seq<Link>, start: string)
    requires EndsChain(list, p, start)
    ensures |list| <= |p| && list == StoredAll(p[|p| - |list|..])
  {
    hide StoredAll, Tip;
  }

  /** A list that starts where entry `first` does has all entries from there on. */
  lemma {:induction false} EndsFrom(c: Crypto, list: seq<Dict>, ls: seq<Link>, n: nat, first: nat)
    requires c.Sound() && Linked(c, ls, GENESIS) && first < n <= |ls| && EndsChain(list, ls[..n], ls[first].prev)
    ensures |list| == n - first
  {
    hide Linked, Crypto.Sound, StoredAll, Tip;
    assert ls[..n][..n - |list|] == ls[..n - |list|];
    PlaceDetermined(c, ls, first, n - |list|);
  }

  /** As many entries of a day as places from its first entry to its last fill them. */
  lemma {:induction false} DayFillsSegment(ls: seq<Link>, d: nat, first: nat, last: nat)
    requires first <= last < |ls| && OfDay(ls[..first], d) == [] && OfDay(ls[..last + 1], d) == OfDay(ls, d)
    requires |OfDay(ls, d)| == last + 1 - first
    ensures OfDay(ls, d) == ls[..last + 1][first..]
  {
    hide OfDay;
    var p := ls[..last + 1];
    assert p == p[..first] + p[first..] && p[..first] == ls[..first];
    OfDayAppend(p[..first], p[first..], d);
    OfDayMembers(p[first..], d);
  }

  // ------------------------------------------------------------- days in order

  lemma {:induction false} AscendingIsContiguous(ls: seq<Link>, d: nat)
    requires DaysAscend(ls)
    ensures Contiguous(ls, d)
  {
  }

  /** On a clock that never goes back every day verifies, with its exact count. */
  lemma {:induction false} EveryDayVerifies(c: Crypto, es: seq<Event>, k: DayKey)
    requires c.Sound() && DaysAscend(Chain(c, es, k.tenant))
    ensures VerdictAfter(c, es, k) == Accepted(|OfDay(Chain(c, es, k.tenant), k.day)|)
  {
    HonestDayVerifies(c, es, k);
    AscendingIsContiguous(Chain(c, es, k.tenant), k.day);
  }

  /** The day lists of days `0..n`, one after the other. */
  function DayLists(c: Crypto, es: seq<Event>, tenant: string, n: nat): seq<Dict> {
    if n == 0 then [] else DayLists(c, es, tenant, n - 1) + ListAt(After(c, es).lists, DayKey(tenant, n - 1))
  }

  lemma {:induction false} DayListsPrefix(c: Crypto, es: seq<Event>, tenant: string, n: nat, m: nat)
    requires c.Sound() && DaysAscend(Chain(c, es, tenant)) && DaysBelow(Chain(c, es, tenant), n, m)
    ensures DayLists(c, es, tenant, n) == StoredAll(Chain(c, es, tenant)[..m])
    decreases n
  {
    var ls := Chain(c, es, tenant);
    if n == 0 {
      Below(ls, 0, m);
      assert ls[..m] == [];
    } else {
      hide After, Chain, Crypto.Sound, StoredAll, OfDay, DaysAscend, DayLists, ListAt;
      var k := FirstOfDay(ls, n - 1);
      DayListsPrefix(c, es, tenant, n - 1, k);
      DayListsStep(c, es, tenant, n - 1, k, m);
    }
  }

  lemma {:induction false} DayListsStep(c: Crypto, es: seq<Event>, tenant: string, n: nat, k: nat, m: nat)
    requires c.Sound() && DaysBelow(Chain(c, es, tenant), n, k) && DaysBelow(Chain(c, es, tenant), n + 1, m)
    requires DayLists(c, es, tenant, n) == StoredAll(Chain(c, es, tenant)[..k])
    ensures DayLists(c, es, tenant, n + 1) == StoredAll(Chain(c, es, tenant)[..m])
  {
    var ls := Chain(c, es, tenant);
    assert k <= |ls| && m <= |ls|;
    hide After, Chain, Crypto.Sound, StoredAll, OfDay, DaysBelow, ListAt;
    DayListIs(c, es, tenant, n);
    DayIsSegment(ls, n, k, m);
    StoredAppend(ls[..k], ls[k..m]);
    Joined(ls, k, m);
  }

  lemma {:induction false} DayListIs(c: Crypto, es: seq<Event>, tenant: string, d: nat)
    requires c.Sound()
    ensures ListAt(After(c, es).lists, DayKey(tenant, d)) == StoredAll(OfDay(Chain(c, es, tenant), d))
  {
    hide After, Chain, Crypto.Sound, StoredAll, OfDay, ListAt;
    DayAfter(c, es, DayKey(tenant, d));
  }

  lemma {:induction false} Below(ls: seq<Link>, n: nat, m: nat)
    requires DaysBelow(ls, n, m)
    ensures n == 0 ==> m == 0
  {
    assert 0 < |ls| ==> ls[0].day >= 0;
  }

  lemma {:induction false} BelowNext(ls: seq<Link>, d: nat, k: nat, m: nat)
    requires DaysBelow(ls, d, k) && DaysBelow(ls, d + 1, m)
    ensures k <= m
  {
    assert m < |ls| ==> ls[m].day >= 0;
  }

  lemma {:induction false} Joined<T>(s: seq<T>, k: nat, m: nat)
    requires k <= m <= |s|
    ensures s[..k] + s[k..m] == s[..m]
  {
  }

  /** The first `m` entries, and no others, are of days before `n`. */
  ghost predicate DaysBelow(ls: seq<Link>, n: nat, m: nat) {
    m <= |ls| && forall i :: 0 <= i < |ls| ==> (ls[i].day < n <==> i < m)
  }

  lemma {:induction false} FirstOfDay(ls: seq<Link>, d: nat) returns (k: nat)
    requires DaysAscend(ls)
    ensures DaysBelow(ls, d, k)
  {
    k := 0;
    while k < |ls| && ls[k].day < d
      invariant k <= |ls| && forall i :: 0 <= i < k ==> ls[i].day < d
    {
      k := k + 1;
    }
  }

  lemma {:induction false} DayIsSegment(ls: seq<Link>, d: nat, k: nat, m: nat)
    requires DaysBelow(ls, d, k) && DaysBelow(ls, d + 1, m)
    ensures k <= m && OfDay(ls, d) == ls[k..m]
  {
    BelowNext(ls, d, k, m);
    var a, b, e := ls[..k], ls[k..m], ls[m..];
    Segments(ls, d, k, m);
    hide OfDay, DaysBelow;
    AllOrNone(a, d);
    AllOrNone(b, d);
    AllOrNone(e, d);
    OfDayAppend(a + b, e, d);
    OfDayAppend(a, b, d);
  }

  lemma {:induction false} Segments(ls: seq<Link>, d: nat, k: nat, m: nat)
    requires DaysBelow(ls, d, k) && DaysBelow(ls, d + 1, m) && k <= m
    ensures ls[..k] + ls[k..m] + ls[m..] == ls
    ensures forall l :: l in ls[..k] || l in ls[m..] ==> l.day != d
    ensures forall l :: l in ls[k..m] ==> l.day == d
  {
  }

  lemma {:induction false} AllOrNone(ls: seq<Link>, d: nat)
    ensures (forall l :: l in ls ==> l.day == d) ==> OfDay(ls, d) == ls
    ensures (forall l :: l in ls ==> l.day != d) ==> OfDay(ls, d) == []
  {
    OfDayMembers(ls, d);
    hide OfDay;
    var ds := OfDay(ls, d);
    assert 0 < |ds| ==> ds[0] in ds;
    if forall l :: l in ls ==> l.day == d {
      OfDayCounts(ls, d);
    }
  }

  lemma {:induction false} OfDayCounts(ls: seq<Link>, d: nat)
    requires forall l :: l in ls ==> l.day == d
    ensures |OfDay(ls, d)| == |ls|
    decreases |ls|
  {
    if ls != [] {
      var init := ls[..|ls| - 1];
      assert forall l :: l in init ==> l in ls;
      OfDayCounts(init, d);
    }
  }

  lemma {:induction false} StoredAppend(a: seq<Link>, b: seq<Link>)
    ensures StoredAll(a + b) == StoredAll(a) + StoredAll(b)
  {
    hide Stored;
    var x, y := StoredAll(a + b), StoredAll(a) + StoredAll(b);
    assert |x| == |y| && forall i :: 0 <= i < |x| ==> x[i] == y[i];
  }

  /** On such a clock the day lists, end to end, are the tenant's whole chain. */
  lemma {:induction false} DaysPartitionChain(c: Crypto, es: seq<Event>, tenant: string, n: nat)
    requires c.Sound() && DaysAscend(Chain(c, es, tenant))
    requires forall i :: 0 <= i < |Chain(c, es, tenant)| ==> Chain(c, es, tenant)[i].day < n
    ensures DayLists(c, es, tenant, n) == StoredAll(Chain(c, es, tenant))
  {
    var ls := Chain(c, es, tenant);
    hide Chain, Crypto.Sound, StoredAll, DayLists;
    DayListsPrefix(c, es, tenant, n, |ls|);
    assert ls[..|ls|] == ls;
  }

  /** The first logged day starts from the sentinel. */
  lemma {:induction false} FirstDayGenesis(c: Crypto, es: seq<Event>, tenant: string, d: nat)
    requires c.Sound() && DaysAscend(Chain(c, es, tenant)) && OfDay(Chain(c, es, tenant), d) != []
    requires forall e :: 0 <= e < d ==> OfDay(Chain(c, es, tenant), e) == []
    ensures HashAt(After(c, es).genesis, DayKey(tenant, d)) == GENESIS
  {
    var ls := Chain(c, es, tenant);
    DayGenesis(c, es, DayKey(tenant, d));
    ChainLinked(c, es, tenant);
    hide After, Chain, OfDay, Linked, Crypto.Sound, DaysAscend;
    FirstDayLinks(c, ls, d);
  }

  lemma {:induction false} FirstDayLinks(c: Crypto, ls: seq<Link>, d: nat)
    requires c.Sound() && Linked(c, ls, GENESIS) && DaysAscend(ls)
    requires OfDay(ls, d) != [] && forall f :: 0 <= f < d ==> OfDay(ls, f) == []
    ensures OfDay(ls, d)[0].prev == GENESIS
  {
    hide OfDay, Linked, Crypto.Sound, Signed;
    var first, last := DayBounds(ls, d);
    LinkedAt(c, ls, first);
    BeforeDay(ls, d, first);
    if first > 0 {
      InItsDay(ls, first - 1);
    }
  }

  /** A later logged day starts from the last hash of the logged day before it. */
  lemma {:induction false} GenesisLinksDays(c: Crypto, es: seq<Event>, tenant: string, e: nat, d: nat)
    requires c.Sound() && DaysAscend(Chain(c, es, tenant)) && e < d
    requires OfDay(Chain(c, es, tenant), d) != [] && OfDay(Chain(c, es, tenant), e) != []
    requires forall f :: e < f < d ==> OfDay(Chain(c, es, tenant), f) == []
    ensures HashAt(After(c, es).genesis, DayKey(tenant, d)) == HashAt(After(c, es).heads, DayKey(tenant, e))
  {
    var ls := Chain(c, es, tenant);
    DayGenesis(c, es, DayKey(tenant, d));
    DayAfter(c, es, DayKey(tenant, e));
    ChainLinked(c, es, tenant);
    hide After, Chain, OfDay, Linked, Crypto.Sound, StoredAll, DaysAscend;
    LaterDayLinks(c, ls, e, d);
  }

  lemma {:induction false} LaterDayLinks(c: Crypto, ls: seq<Link>, e: nat, d: nat)
    requires c.Sound() && Linked(c, ls, GENESIS) && DaysAscend(ls) && e < d
    requires OfDay(ls, d) != [] && OfDay(ls, e) != [] && forall f :: e < f < d ==> OfDay(ls, f) == []
    ensures OfDay(ls, d)[0].prev == Tip(OfDay(ls, e), GENESIS) && Tip(OfDay(ls, e), GENESIS) != ""
  {
    hide OfDay, Linked, Crypto.Sound, Signed;
    var first, last := DayBounds(ls, d);
    var first', last' := DayBounds(ls, e);
    LinkedAt(c, ls, first);
    LinkedAt(c, ls, last');
    SignedNotEmpty(c, ls[last']);
    BeforeDay(ls, d, first);
    Later(ls, last', first);
    InItsDay(ls, first - 1);
    assert ls[last'].day <= ls[first - 1].day;
  }

  lemma {:induction false} Later(ls: seq<Link>, i: nat, j: nat)
    requires DaysAscend(ls) && i < |ls| && j < |ls| && ls[i].day < ls[j].day
    ensures i < j
  {
  }

  lemma {:induction false} BeforeDay(ls: seq<Link>, d: nat, first: nat)
    requires DaysAscend(ls) && first < |ls| && ls[first].day == d && OfDay(ls[..first], d) == []
    ensures forall i :: 0 <= i < first ==> ls[i].day < d
  {
    OfDayMembers(ls[..first], d);
    hide OfDay;
    forall i | 0 <= i < first ensures ls[i].day < d {
      assert ls[i] in ls[..first];
    }
  }

  lemma {:induction false} InItsDay(ls: seq<Link>, i: nat)
    requires i < |ls|
    ensures OfDay(ls, ls[i].day) != []
  {
    OfDayMembers(ls, ls[i].day);
    assert ls[i] in OfDay(ls, ls[i].day);
  }

  // ------------------------------------------------------------- the durable mirror

  ghost predicate DistinctIds(es: seq<Event>) {
    forall i, j :: 0 <= i < j < |es| ==> es[i].fields.id != es[j].fields.id
  }

  /** Every tenant's rows are its chain, numbered from 1. */
  lemma {:induction false} MirrorHoldsChain(c: Crypto, es: seq<Event>, tenant: string)
    requires c.Sound() && DistinctIds(es)
    ensures Query(Mirrored(c, es), tenant) == RowsOf(Chain(c, es, tenant))
    decreases |es|
  {
    if es == [] {
      assert Query([], tenant) == [] && RowsOf([]) == [];
    } else {
      var init, e := es[..|es| - 1], es[|es| - 1];
      assert es == init + [e];
      hide Crypto.Sound, Query, Mirrored, RowsOf, Chain, Sign;
      MirrorHoldsChain(c, init, tenant);
      MirrorHoldsChain(c, init, e.fields.tenantId);
      MirrorStep(c, init, e, tenant);
    }
  }

  lemma {:induction false} MirrorStep(c: Crypto, es: seq<Event>, e: Event, tenant: string)
    requires c.Sound() && DistinctIds(es + [e])
    requires Query(Mirrored(c, es), tenant) == RowsOf(Chain(c, es, tenant))
    requires Query(Mirrored(c, es), e.fields.tenantId) == RowsOf(Chain(c, es, e.fields.tenantId))
    ensures Query(Mirrored(c, es + [e]), tenant) == RowsOf(Chain(c, es + [e], tenant))
  {
    var s := After(c, es);
    var r := RowOf(NextLink(c, s, e), NextNumber(s, e));
    NextRow(c, es, e);
    hide Crypto.Sound, Query, Mirrored, Chain, Sign, After, NextLink, NextNumber, Logged, RowsOf, RowOf, DistinctIds;
    NoClash(c, es, e, r);
    AfterSnoc(c, es, e);
    ChainSnoc(c, es, e, tenant);
    hide Clashes;
    QuerySnoc(Mirrored(c, es), r, tenant);
    if tenant == e.fields.tenantId {
      AppendRow(c, Chain(c, es, tenant), e, r);
    }
  }

  lemma {:induction false} AppendRow(c: Crypto, ls: seq<Link>, e: Event, r: Row)
    requires r == RowOf(Sign(c, e.fields, e.day, Tip(ls, GENESIS)), |ls| + 1) && r.seqNo == |ls| + 1
    ensures InsertRow(r, RowsOf(ls)) == RowsOf(ls + [Sign(c, e.fields, e.day, Tip(ls, GENESIS))])
  {
    RowsNumbered(ls);
    hide RowsOf, RowOf, Sign;
    InsertLast(r, RowsOf(ls));
    RowsOfSnoc(ls, Sign(c, e.fields, e.day, Tip(ls, GENESIS)));
  }

  lemma {:induction false} RowsNumbered(ls: seq<Link>)
    ensures forall r :: r in RowsOf(ls) ==> 1 <= r.seqNo <= |ls|
  {
  }

  lemma {:induction false} QuerySnoc(table: seq<Row>, r: Row, tenant: string)
    ensures Query(table + [r], tenant) ==
      if r.fields.tenantId == tenant then InsertRow(r, Query(table, tenant)) else Query(table, tenant)
  {
    hide InsertRow;
    assert (table + [r])[..|table|] == table;
  }

  lemma {:induction false} NextRow(c: Crypto, es: seq<Event>, e: Event)
    requires c.Sound()
    ensures var s, ls := After(c, es), Chain(c, es, e.fields.tenantId);
      var r := RowOf(NextLink(c, s, e), NextNumber(s, e));
      && r == RowOf(Sign(c, e.fields, e.day, Tip(ls, GENESIS)), |ls| + 1)
      && r.fields == e.fields && r.seqNo == |ls| + 1
  {
    RunIsFaithful(c, es, e.fields.tenantId);
    hide Crypto.Sound, After, Chain, DayFaithful;
  }

  lemma {:induction false} MirrorIds(c: Crypto, es: seq<Event>)
    ensures forall r :: r in Mirrored(c, es) ==> exists i :: 0 <= i < |es| && es[i].fields.id == r.fields.id
    decreases |es|
  {
    if es != [] {
      var init, e := es[..|es| - 1], es[|es| - 1];
      MirrorIds(c, init);
      var r := RowOf(NextLink(c, After(c, init), e), NextNumber(After(c, init), e));
      assert r.fields == e.fields;
      hide Clashes, RowOf, NextLink, NextNumber, After;
      forall x | x in Mirrored(c, es) ensures exists i :: 0 <= i < |es| && es[i].fields.id == x.fields.id {
        if x in Mirrored(c, init) {
          var i :| 0 <= i < |init| && init[i].fields.id == x.fields.id;
          assert es[i] == init[i];
        } else {
          assert x == r;
        }
      }
    }
  }

  lemma {:induction false} NoClash(c: Crypto, es: seq<Event>, e: Event, r: Row)
    requires DistinctIds(es + [e]) && r.fields == e.fields
    requires Query(Mirrored(c, es), e.fields.tenantId) == RowsOf(Chain(c, es, e.fields.tenantId))
    requires r.seqNo == |Chain(c, es, e.fields.tenantId)| + 1
    ensures !Clashes(Mirrored(c, es), r)
  {
    hide Mirrored, Chain, Query, RowsOf;
    var rows := Mirrored(c, es);
    MirrorIds(c, es);
    QueryMembers(rows, e.fields.tenantId);
    RowsNumbered(Chain(c, es, e.fields.tenantId));
    forall k | 0 <= k < |rows| ensures !Clash(rows[k], r) {
      var x := rows[k];
      assert x in rows;
      var i :| 0 <= i < |es| && es[i].fields.id == x.fields.id;
      assert (es + [e])[i] == es[i] && (es + [e])[|es|] == e;
    }
  }

  /** What a run signed is one honest chain for each tenant, so that the durable
      verifier's guarantees apply to it. */
  lemma {:induction false} RunIsHonest(c: Crypto, es: seq<Event>)
    ensures HonestChains(c, t => Chain(c, es, t))
  {
    hide Linked, Chain;
    forall t ensures Linked(c, Chain(c, es, t), GENESIS)
      ensures forall i :: 0 <= i < |Chain(c, es, t)| ==> Chain(c, es, t)[i].fields.tenantId == t {
      ChainLinked(c, es, t);
    }
  }

  /** The mirror of a run meets the other premise too: what it holds was signed. */
  lemma {:induction false} MirrorUnforged(c: Crypto, es: seq<Event>)
    requires c.Sound() && DistinctIds(es)
    ensures Unforged(c, Mirrored(c, es), t => Chain(c, es, t))
  {
    hide Crypto.Sound, Mirrored, Chain, DistinctIds, RowContentOk, RowsOf, Query;
    var rows, chains := Mirrored(c, es), t => Chain(c, es, t);
    forall r | r in rows ensures exists t, i: nat :: SignedAt(r, chains, t, i) {
      var t := r.fields.tenantId;
      MirrorHoldsChain(c, es, t);
      QueryMembers(rows, t);
      var i :| 0 <= i < |chains(t)| && RowsOf(chains(t))[i] == r;
      assert SignedAt(r, chains, t, i);
    }
  }

  /** The durable verifier accepts every tenant's mirror, whatever the dates, with the
      number of events logged for that tenant. */
  lemma {:induction false} MirrorVerifies(c: Crypto, es: seq<Event>, tenant: string)
    requires c.Sound() && DistinctIds(es)
    ensures var q := Query(Mirrored(c, es), tenant);
      VerdictOf(WalkRows(c, q), |q|) == Accepted(|Chain(c, es, tenant)|)
  {
    MirrorHoldsChain(c, es, tenant);
    ChainLinked(c, es, tenant);
    hide Linked, Chain, Mirrored, Query, Crypto.Sound, WalkRows;
    HonestRowsWalk(c, Chain(c, es, tenant));
  }
}
