/** The Redis audit log: what logging an event does to its keys, what the daily
    verifier accepts, and what holds after any run of events. */
module AuditLog {
  import opened Tokens
  import opened AuditChain
  import opened AuditStore

  datatype DayKey = DayKey(tenant: string, day: nat)

  /** A stored watermark as the verifier reads it. */
  datatype Mark = Malformed | Mark(seqNo: int, mac: string)

  /** The keys of the log. */
  datatype LogState = LogState(
    lists: map<DayKey, seq<Dict>>, heads: map<DayKey, string>, seqs: map<DayKey, int>,
    marks: map<DayKey, Mark>, genesis: map<DayKey, string>,
    tips: map<string, string>, gseqs: map<string, int>)

  const EMPTY := LogState(map[], map[], map[], map[], map[], map[], map[])

  function Counter<K>(m: map<K, int>, k: K): int {
    if k in m then m[k] else 0
  }

  function ListAt(lists: map<DayKey, seq<Dict>>, k: DayKey): seq<Dict> {
    if k in lists then lists[k] else []
  }

  /** The recorded hash, or the sentinel where none (or an empty one) is stored. */
  function HashAt<K>(m: map<K, string>, k: K): string {
    if k in m && m[k] != "" then m[k] else GENESIS
  }

  function MarkAt(marks: map<DayKey, Mark>, k: DayKey): Option<Mark> {
    if k in marks then Some(marks[k]) else None
  }

  datatype Event = Event(fields: Fields, day: nat) {
    function Key(): DayKey {
      DayKey(fields.tenantId, day)
    }
  }

  function NextLink(c: Crypto, s: LogState, e: Event): Link {
    Sign(c, e.fields, e.day, HashAt(s.tips, e.fields.tenantId))
  }

  function NextNumber(s: LogState, e: Event): int {
    Counter(s.gseqs, e.fields.tenantId) + 1
  }

  /** The keys after an event is logged. */
  function Logged(c: Crypto, s: LogState, e: Event): LogState {
    var t, k, l := e.fields.tenantId, e.Key(), NextLink(c, s, e);
    var n := Counter(s.seqs, k) + 1;
    LogState(
      s.lists[k := ListAt(s.lists, k) + [Stored(l)]], s.heads[k := l.hash], s.seqs[k := n],
      s.marks[k := Mark(n, c.MarkMac(n, l.hash))],
      if k in s.genesis then s.genesis else s.genesis[k := l.prev],
      s.tips[t := l.hash], s.gseqs[t := NextNumber(s, e)])
  }

  /** What the verifier answers for a list, the genesis it starts from and a mark. */
  function DayVerdict(c: Crypto, es: seq<Dict>, start: string, mark: Option<Mark>): Verdict {
    var w := Walk(c, es, start);
    if w.Stopped? then Rejected(|es|, w.index, w.error)
    else if mark.None? then Accepted(|es|)
    else if mark.value.Malformed? then Rejected(|es|, |es|, MalformedMark)
    else if mark.value.seqNo != |es| || mark.value.mac != c.MarkMac(mark.value.seqNo, w.hash) then
      Rejected(|es|, |es|, MarkMismatch)
    else Accepted(|es|)
  }

  class AuditLogger {
    const crypto: Crypto
    const tenantId: string
    const durable: DurableAuditStore?
    var lists: map<DayKey, seq<Dict>>
    var heads: map<DayKey, string>
    var seqs: map<DayKey, int>
    var marks: map<DayKey, Mark>
    var genesis: map<DayKey, string>
    var tips: map<string, string>
    var gseqs: map<string, int>

    ghost function Keys(): LogState
      reads this
    {
      LogState(lists, heads, seqs, marks, genesis, tips, gseqs)
    }

    constructor (crypto: Crypto, tenantId: string, durable: DurableAuditStore?)
      ensures Keys() == EMPTY
      ensures this.crypto == crypto && this.tenantId == tenantId && this.durable == durable
    {
      this.crypto, this.tenantId, this.durable := crypto, tenantId, durable;
      lists, heads, seqs, marks, genesis, tips, gseqs := map[], map[], map[], map[], map[], map[], map[];
    }

    /** Log an event; an empty tenant means the logger's own. */
    method LogEvent(day: nat, id: string, timestamp: string, eventType: string,
                    correlationId: Option<string>, sessionId: Option<string>, role: Option<string>,
                    details: Option<Dict>, tenant: string) returns (e: Event)
      modifies this, durable
      ensures e.day == day && e.fields == Fields(id, timestamp, eventType,
        if tenant == "" then tenantId else tenant, correlationId, sessionId, role,
        if details.None? then map[] else details.value)
      ensures Keys() == Logged(crypto, old(Keys()), e)
      ensures durable != null ==>
        durable.rows == Added(old(durable.rows), RowOf(NextLink(crypto, old(Keys()), e), NextNumber(old(Keys()), e)))
      // The entry, key by key.
      ensures var t := if tenant == "" then tenantId else tenant;
        var past, list := ListAt(old(lists), DayKey(t, day)), ListAt(lists, DayKey(t, day));
        && |list| == |past| + 1 && list[..|past|] == past
        && EntryHolds(crypto, list[|past|], id, timestamp, eventType, t,
          if correlationId.Some? then JStr(correlationId.value) else JNull,
          if sessionId.Some? then JStr(sessionId.value) else JNull,
          if role.Some? then JStr(role.value) else JNull,
          if details.Some? then details.value else map[],
          if t in old(tips) && old(tips)[t] != "" then old(tips)[t] else "genesis")
    {
      hide Added, Clashes, Stored, Sign, EntryHolds, Crypto.MarkMac;
      var effective := if tenant == "" then tenantId else tenant;
      e := Event(Fields(id, timestamp, eventType, effective, correlationId, sessionId, role,
                        if details.None? then map[] else details.value), day);
      StoredHolds(crypto, e.fields, day, HashAt(tips, effective));
      var entry, gseq := Record(e);
      if durable != null {
        durable.Append(entry, gseq);
      }
    }

    /** The Redis half: link to the tip, number the entry, commit it. */
    method Record(e: Event) returns (entry: Link, gseq: int)
      modifies this
      ensures Keys() == Logged(crypto, old(Keys()), e)
      ensures entry == NextLink(crypto, old(Keys()), e) && gseq == NextNumber(old(Keys()), e)
    {
      hide Body, Stored, ListAt, Crypto.MarkMac;
      var tenant, key := e.fields.tenantId, DayKey(e.fields.tenantId, e.day);
      var prevHash := if tenant in tips && tips[tenant] != "" then tips[tenant] else GENESIS;
      entry := Link(e.fields, e.day, prevHash, crypto.EntryHash(Body(e.fields, prevHash)));
      assert entry == NextLink(crypto, Keys(), e);
      hide NextLink, HashAt;
      gseq := (if tenant in gseqs then gseqs[tenant] else 0) + 1;
      gseqs := gseqs[tenant := gseq];
      var seqNo := (if key in seqs then seqs[key] else 0) + 1;
      seqs := seqs[key := seqNo];
      Execute(key, entry, seqNo, key !in genesis);
    }

    /** The pipeline that commits an entry. */
    method Execute(key: DayKey, entry: Link, seqNo: int, dayFirst: bool)
      modifies this
      ensures seqs == old(seqs) && gseqs == old(gseqs)
      ensures lists == old(lists)[key := ListAt(old(lists), key) + [Stored(entry)]]
      ensures heads == old(heads)[key := entry.hash]
      ensures marks == old(marks)[key := Mark(seqNo, crypto.MarkMac(seqNo, entry.hash))]
      ensures tips == old(tips)[key.tenant := entry.hash]
      ensures genesis == if dayFirst then old(genesis)[key := entry.prev] else old(genesis)
    {
      hide Stored, Crypto.MarkMac;
      lists := lists[key := (if key in lists then lists[key] else []) + [Stored(entry)]];
      heads := heads[key := entry.hash];
      marks := marks[key := Mark(seqNo, crypto.MarkMac(seqNo, entry.hash))];
      tips := tips[key.tenant := entry.hash];
      if dayFirst { genesis := genesis[key := entry.prev]; }
    }

    method VerifyChain(day: nat, tenant: string) returns (v: Verdict)
      ensures var k := DayKey(if tenant == "" then tenantId else tenant, day);
        v == DayVerdict(crypto, ListAt(lists, k), HashAt(genesis, k), MarkAt(marks, k))
    {
      hide Walk, Crypto.EntryHash, Crypto.MarkMac;
      var key := DayKey(if tenant == "" then tenantId else tenant, day);
      var parsed := if key in lists then lists[key] else [];
      ghost var start := HashAt(genesis, key);
      WalkNothing(crypto, start);
      var prev := if key in genesis && genesis[key] != "" then genesis[key] else GENESIS;
      for i := 0 to |parsed|
        invariant Walk(crypto, parsed[..i], start) == Reached(prev)
      {
        var entry := parsed[i];
        assert parsed[..i + 1] == parsed[..i] + [entry];
        WalkSnoc(crypto, parsed[..i], entry, start);
        if Walk(crypto, parsed[..i + 1], start).Stopped? {
          WalkStops(crypto, parsed, start, i + 1);
        }
        if Get(entry, "prev_hash") != JStr(prev) { return Rejected(|parsed|, i, PrevMismatch); }
        var expected := crypto.EntryHash(entry - {"entry_hash"});
        if Get(entry, "entry_hash") != JStr(expected) { return Rejected(|parsed|, i, HashMismatch); }
        prev := expected;
      }
      assert parsed[..|parsed|] == parsed;
      if key in marks {
        match marks[key]
        case Malformed => return Rejected(|parsed|, |parsed|, MalformedMark);
        case Mark(expectedSeq, mark) =>
          if expectedSeq != |parsed| || mark != crypto.MarkMac(expectedSeq, prev) {
            return Rejected(|parsed|, |parsed|, MarkMismatch);
          }
      }
      return Accepted(|parsed|);
    }
  }

  /** A mark carries the count and the signature over it and the hash. */
  ghost predicate Vouches(c: Crypto, m: Mark, count: nat, hash: string) {
    m.Mark? && m.seqNo == count && m.mac == c.mac(IntText(count) + ":" + hash)
  }

  /** What the verifier's answer says of any list, genesis and mark: accepted exactly when
      every entry is good and the mark, if there is one, vouches for the whole list; and
      otherwise the first thing wrong, where it is. */
  lemma {:induction false} DayVerdictExactly(c: Crypto, es: seq<Dict>, start: string, mark: Option<Mark>)
    ensures var v := DayVerdict(c, es, start, mark);
      && v.entries == |es|
      && (v.Accepted? <==>
            && (forall i :: 0 <= i < |es| ==> GoodEntry(c, es, start, i))
            && (mark.Some? ==> Vouches(c, mark.value, |es|, LastHash(es, start))))
      && (v.Rejected? ==> v.firstBad <= |es| && Faulty(c, es, start, mark, v.firstBad, v.error))
  {
    hide Walk, GoodEntry;
    WalkExactly(c, es, start);
  }

  /** What is wrong at a place where nothing before it is. */
  ghost predicate Faulty(c: Crypto, es: seq<Dict>, start: string, mark: Option<Mark>, n: nat, error: Error)
    requires n <= |es|
  {
    && (forall i :: 0 <= i < n ==> GoodEntry(c, es, start, i))
    && match error
       case PrevMismatch => n < |es| && !NamesHashBefore(es, start, n)
       case HashMismatch => n < |es| && NamesHashBefore(es, start, n) && !SignsRest(c, es[n])
       case MalformedMark => n == |es| && mark == Some(Malformed)
       case MarkMismatch => n == |es| && mark.Some? && mark.value.Mark? && !Vouches(c, mark.value, |es|, LastHash(es, start))
       case SeqGap => false
  }

  lemma {:induction false} WalkNothing(c: Crypto, start: string)
    ensures Walk(c, [], start) == Reached(start)
  {
  }

  // ------------------------------------------------------------------------- runs

  /** The keys after a run of events on an empty log. */
  function After(c: Crypto, es: seq<Event>): LogState {
    if es == [] then EMPTY else Logged(c, After(c, es[..|es| - 1]), es[|es| - 1])
  }

  /** The durable mirror after the same run. */
  function Mirrored(c: Crypto, es: seq<Event>): seq<Row> {
    if es == [] then []
    else
      var s, e := After(c, es[..|es| - 1]), es[|es| - 1];
      Added(Mirrored(c, es[..|es| - 1]), RowOf(NextLink(c, s, e), NextNumber(s, e)))
  }

  /** A tenant's chain: its events, each signed over the one before it, whatever the
      day and whatever else was logged in between. */
  function Chain(c: Crypto, es: seq<Event>, tenant: string): seq<Link> {
    if es == [] then []
    else
      var ls, e := Chain(c, es[..|es| - 1], tenant), es[|es| - 1];
      if e.fields.tenantId == tenant then ls + [Sign(c, e.fields, e.day, Tip(ls, GENESIS))] else ls
  }

  function OfDay(ls: seq<Link>, d: nat): seq<Link> {
    if ls == [] then []
    else
      var rest, l := OfDay(ls[..|ls| - 1], d), ls[|ls| - 1];
      if l.day == d then rest + [l] else rest
  }

  lemma {:induction false} AfterSnoc(c: Crypto, es: seq<Event>, e: Event)
    ensures After(c, es + [e]) == Logged(c, After(c, es), e)
    ensures Mirrored(c, es + [e]) ==
      Added(Mirrored(c, es), RowOf(NextLink(c, After(c, es), e), NextNumber(After(c, es), e)))
  {
    hide Added, Clashes, RowOf, Logged;
    assert (es + [e])[..|es|] == es;
  }

  lemma {:induction false} ChainSnoc(c: Crypto, es: seq<Event>, e: Event, tenant: string)
    ensures var ls := Chain(c, es, tenant);
      Chain(c, es + [e], tenant) ==
        if e.fields.tenantId == tenant then ls + [Sign(c, e.fields, e.day, Tip(ls, GENESIS))] else ls
  {
    hide Sign;
    assert (es + [e])[..|es|] == es;
  }

  lemma {:induction false} OfDaySnoc(ls: seq<Link>, l: Link, d: nat)
    ensures OfDay(ls + [l], d) == if l.day == d then OfDay(ls, d) + [l] else OfDay(ls, d)
  {
    assert (ls + [l])[..|ls|] == ls;
  }

  lemma {:induction false} ChainLinked(c: Crypto, es: seq<Event>, tenant: string)
    ensures Linked(c, Chain(c, es, tenant), GENESIS)
    ensures forall i :: 0 <= i < |Chain(c, es, tenant)| ==> Chain(c, es, tenant)[i].fields.tenantId == tenant
    decreases |es|
  {
    if es != [] {
      var init, e := es[..|es| - 1], es[|es| - 1];
      assert es == init + [e];
      var ls := Chain(c, init, tenant);
      var l := Sign(c, e.fields, e.day, Tip(ls, GENESIS));
      assert Signed(c, l);
      hide Sign, Signed, Linked, Chain, Body;
      ChainLinked(c, init, tenant);
      ChainSnoc(c, init, e, tenant);
      LinkedSnoc(c, ls, l, GENESIS);
    }
  }

  // ------------------------------------------------- what the keys hold after a run

  ghost predicate DayFaithful(c: Crypto, s: LogState, k: DayKey, ds: seq<Link>) {
    && ListAt(s.lists, k) == StoredAll(ds)
    && Counter(s.seqs, k) == |ds|
    && (ds == [] ==> k !in s.marks && k !in s.genesis && k !in s.heads)
    && (ds != [] ==>
          && MarkAt(s.marks, k) == Some(Mark(|ds|, c.MarkMac(|ds|, Tip(ds, GENESIS))))
          && k in s.genesis && s.genesis[k] == ds[0].prev
          && k in s.heads && s.heads[k] == Tip(ds, GENESIS))
  }

  ghost predicate TenantFaithful(c: Crypto, s: LogState, t: string, ls: seq<Link>) {
    && (t in s.tips <==> ls != [])
    && HashAt(s.tips, t) == Tip(ls, GENESIS)
    && Counter(s.gseqs, t) == |ls|
    && forall d :: DayFaithful(c, s, DayKey(t, d), OfDay(ls, d))
  }

  /** After any run, on any dates, every key of every tenant and day is what the
      tenant's chain says. */
  lemma {:induction false} RunIsFaithful(c: Crypto, es: seq<Event>, t: string)
    requires c.Sound()
    ensures TenantFaithful(c, After(c, es), t, Chain(c, es, t))
    decreases |es|
  {
    if es != [] {
      var init, e := es[..|es| - 1], es[|es| - 1];
      assert es == init + [e];
      hide Crypto.Sound, Logged, TenantFaithful;
      RunIsFaithful(c, init, t);
      AfterSnoc(c, init, e);
      ChainSnoc(c, init, e, t);
      if e.fields.tenantId == t {
        OwnEventKeeps(c, After(c, init), e, Chain(c, init, t));
      } else {
        OtherEventKeeps(c, After(c, init), e, t, Chain(c, init, t));
      }
    }
  }

  lemma {:induction false} OtherDayKeeps(c: Crypto, s: LogState, e: Event, k: DayKey, ds: seq<Link>)
    requires DayFaithful(c, s, k, ds) && k != e.Key()
    ensures DayFaithful(c, Logged(c, s, e), k, ds)
  {
    hide Stored, StoredAll, Sign, Crypto.MarkMac;
  }

  lemma {:induction false} OwnDayKeeps(c: Crypto, s: LogState, e: Event, ds: seq<Link>)
    requires DayFaithful(c, s, e.Key(), ds)
    ensures DayFaithful(c, Logged(c, s, e), e.Key(), ds + [NextLink(c, s, e)])
  {
    hide Stored, StoredAll, Sign, Crypto.MarkMac;
    StoredSnoc(ds, NextLink(c, s, e));
  }

  lemma {:induction false} OtherEventKeeps(c: Crypto, s: LogState, e: Event, t: string, ls: seq<Link>)
    requires TenantFaithful(c, s, t, ls) && e.fields.tenantId != t
    ensures TenantFaithful(c, Logged(c, s, e), t, ls)
  {
    hide Stored, Sign, OfDay, Crypto.MarkMac, DayFaithful;
    forall d ensures DayFaithful(c, Logged(c, s, e), DayKey(t, d), OfDay(ls, d)) {
      OtherDayKeeps(c, s, e, DayKey(t, d), OfDay(ls, d));
    }
  }

  lemma {:induction false} OwnEventKeeps(c: Crypto, s: LogState, e: Event, ls: seq<Link>)
    requires c.Sound() && TenantFaithful(c, s, e.fields.tenantId, ls)
    ensures TenantFaithful(c, Logged(c, s, e), e.fields.tenantId, ls + [Sign(c, e.fields, e.day, Tip(ls, GENESIS))])
  {
    var s', t, l := Logged(c, s, e), e.fields.tenantId, NextLink(c, s, e);
    assert l.hash != "" && l.day == e.day by { hide Body; }
    hide Crypto.Sound, Sign, Stored, Crypto.MarkMac, DayFaithful;
    assert l == Sign(c, e.fields, e.day, Tip(ls, GENESIS));
    forall d ensures DayFaithful(c, s', DayKey(t, d), OfDay(ls + [l], d)) {
      hide Logged;
      OfDaySnoc(ls, l, d);
      if d == e.day {
        OwnDayKeeps(c, s, e, OfDay(ls, d));
      } else {
        OtherDayKeeps(c, s, e, DayKey(t, d), OfDay(ls, d));
      }
    }
  }
}
