/** Hash-chained audit entries: what is signed, how entries link, and what a walk
    over a stored list accepts. */
module AuditChain {
  import opened Text
  import opened Tokens

  /** JSON values as Python reads them; a float is a ratio. */
  datatype Json =
    | JNull
    | JBool(b: bool)
    | JInt(n: int)
    | JFloat(num: int, den: nat)
    | JStr(s: string)
    | JArr(items: seq<Json>)
    | JObj(fields: map<string, Json>)

  type Dict = map<string, Json>

  /** HMAC under the audit key, and canonical JSON. */
  datatype Crypto = Crypto(mac: string -> string, canonical: Dict -> string) {
    /** Neither collides, and a signature is never empty nor the sentinel. */
    ghost predicate Sound() {
      && (forall x, y :: mac(x) == mac(y) ==> x == y)
      && (forall x :: mac(x) != GENESIS && mac(x) != "")
      && (forall d, e :: canonical(d) == canonical(e) ==> d == e)
    }

    function EntryHash(body: Dict): string {
      mac(canonical(body))
    }

    /** The signature of a high-water mark. */
    function MarkMac(seqNo: int, lastHash: string): string {
      mac(IntText(seqNo) + ":" + lastHash)
    }
  }

  const GENESIS := "genesis"

  function IntText(n: int): string {
    if n < 0 then "-" + NatText(-n) else NatText(n)
  }

  /** The fields of an audit entry, apart from its two hashes. */
  datatype Fields = Fields(
    id: string, timestamp: string, eventType: string, tenantId: string,
    correlationId: Option<string>, sessionId: Option<string>, role: Option<string>, details: Dict)

  function OptJson(o: Option<string>): Json {
    if o.Some? then JStr(o.value) else JNull
  }

  /** The dictionary that is signed. */
  function Body(f: Fields, prev: string): Dict {
    map["id" := JStr(f.id), "timestamp" := JStr(f.timestamp), "event_type" := JStr(f.eventType),
        "tenant_id" := JStr(f.tenantId), "correlation_id" := OptJson(f.correlationId),
        "session_id" := OptJson(f.sessionId), "role" := OptJson(f.role),
        "details" := JObj(f.details), "prev_hash" := JStr(prev)]
  }

  lemma {:induction false} BodyInjective(f: Fields, p: string, g: Fields, q: string)
    requires Body(f, p) == Body(g, q)
    ensures f == g && p == q
  {
    var b, c := Body(f, p), Body(g, q);
    assert b["id"] == c["id"] && b["timestamp"] == c["timestamp"] && b["event_type"] == c["event_type"];
    assert b["tenant_id"] == c["tenant_id"] && b["correlation_id"] == c["correlation_id"];
    assert b["session_id"] == c["session_id"] && b["role"] == c["role"];
    assert b["details"] == c["details"] && b["prev_hash"] == c["prev_hash"];
  }

  /** A signed entry: its fields, the hash before it and its own. */
  datatype Link = Link(fields: Fields, day: nat, prev: string, hash: string)

  function Sign(c: Crypto, f: Fields, day: nat, prev: string): Link {
    Link(f, day, prev, c.EntryHash(Body(f, prev)))
  }

  ghost predicate Signed(c: Crypto, l: Link) {
    l == Sign(c, l.fields, l.day, l.prev)
  }

  /** The hash the next entry links to, in a chain that starts from `start`. */
  function Tip(ls: seq<Link>, start: string): string {
    if ls == [] then start else ls[|ls| - 1].hash
  }

  /** Each entry is signed and names the hash before it. */
  ghost predicate Linked(c: Crypto, ls: seq<Link>, start: string) {
    forall i :: 0 <= i < |ls| ==> Signed(c, ls[i]) && ls[i].prev == Tip(ls[..i], start)
  }

  lemma {:induction false} SameHash(c: Crypto, l: Link, m: Link)
    requires c.Sound() && Signed(c, l) && Signed(c, m) && l.hash == m.hash
    ensures l.fields == m.fields && l.prev == m.prev
  {
    hide Body;
    var b, b' := Body(l.fields, l.prev), Body(m.fields, m.prev);
    assert c.mac(c.canonical(b)) == c.mac(c.canonical(b'));
    BodyInjective(l.fields, l.prev, m.fields, m.prev);
  }

  /** No two entries of a chain that starts from the sentinel share a hash. */
  lemma {:induction false} HashesDistinct(c: Crypto, ls: seq<Link>, i: nat, j: nat)
    requires c.Sound() && Linked(c, ls, GENESIS) && i < j < |ls|
    ensures ls[i].hash != ls[j].hash
    decreases i
  {
    assert Signed(c, ls[j - 1]);
    if ls[i].hash == ls[j].hash {
      SameHash(c, ls[i], ls[j]);
      assert ls[j].prev == ls[j - 1].hash;
      if i > 0 {
        assert ls[i].prev == ls[i - 1].hash;
        HashesDistinct(c, ls, i - 1, j - 1);
      }
    }
  }

  // --------------------------------------------------------------------- the walk

  function Get(d: Dict, key: string): Json {
    if key in d then d[key] else JStr("")
  }

  /** The stored form of an entry. */
  function Stored(l: Link): Dict {
    Body(l.fields, l.prev)["entry_hash" := JStr(l.hash)]
  }

  /** The value of each key of a stored entry, the optional ones as JSON. */
  ghost predicate EntryHolds(c: Crypto, e: Dict, id: string, timestamp: string, eventType: string, tenant: string,
                             correlationId: Json, sessionId: Json, role: Json, details: Dict, prevHash: string) {
    && EntryKeys(e)
    && e["id"] == JStr(id) && e["timestamp"] == JStr(timestamp) && e["event_type"] == JStr(eventType)
    && e["tenant_id"] == JStr(tenant) && e["correlation_id"] == correlationId && e["session_id"] == sessionId
    && e["role"] == role && e["details"] == JObj(details) && e["prev_hash"] == JStr(prevHash)
    && e["entry_hash"] == JStr(c.mac(c.canonical(e - {"entry_hash"})))
  }

  predicate EntryKeys(e: Dict) {
    e.Keys == {"id", "timestamp", "event_type", "tenant_id", "correlation_id", "session_id", "role", "details",
               "prev_hash", "entry_hash"}
  }

  lemma {:induction false} StoredHolds(c: Crypto, f: Fields, day: nat, prev: string)
    ensures EntryHolds(c, Stored(Sign(c, f, day, prev)), f.id, f.timestamp, f.eventType, f.tenantId,
      if f.correlationId.Some? then JStr(f.correlationId.value) else JNull,
      if f.sessionId.Some? then JStr(f.sessionId.value) else JNull,
      if f.role.Some? then JStr(f.role.value) else JNull, f.details, prev)
  {
    StoredSignature(c, f, day, prev);
    hide Crypto.EntryHash;
    var e := Stored(Sign(c, f, day, prev));
    assert EntryKeys(e);
  }

  lemma {:induction false} StoredSignature(c: Crypto, f: Fields, day: nat, prev: string)
    ensures var e := Stored(Sign(c, f, day, prev));
      "entry_hash" in e && e["entry_hash"] == JStr(c.mac(c.canonical(e - {"entry_hash"})))
  {
    var b := Body(f, prev);
    assert "entry_hash" !in b;
    assert Stored(Sign(c, f, day, prev)) - {"entry_hash"} == b;
  }

  function StoredAll(ls: seq<Link>): (ds: seq<Dict>)
    ensures |ds| == |ls| && forall i :: 0 <= i < |ds| ==> ds[i] == Stored(ls[i])
  {
    if ls == [] then [] else [Stored(ls[0])] + StoredAll(ls[1..])
  }

  datatype Error = PrevMismatch | HashMismatch | SeqGap | MalformedMark | MarkMismatch

  datatype Verdict = Accepted(entries: nat) | Rejected(entries: nat, firstBad: nat, error: Error)

  /** Where a walk stands: at its last hash, or stopped at an entry. */
  datatype Walked = Reached(hash: string) | Stopped(index: nat, error: Error)

  predicate LinkOk(d: Dict, prev: string) {
    Get(d, "prev_hash") == JStr(prev)
  }

  predicate ContentOk(c: Crypto, d: Dict) {
    Get(d, "entry_hash") == JStr(c.EntryHash(d - {"entry_hash"}))
  }

  /** Walk a stored list from `start`, stopping at the first entry that does not link
      or whose content does not match its hash. */
  function Walk(c: Crypto, es: seq<Dict>, start: string): Walked {
    if es == [] then Reached(start)
    else
      var n := |es| - 1;
      var w := Walk(c, es[..n], start);
      if w.Stopped? then w
      else if !LinkOk(es[n], w.hash) then Stopped(n, PrevMismatch)
      else if !ContentOk(c, es[n]) then Stopped(n, HashMismatch)
      else Reached(Get(es[n], "entry_hash").s)
  }

  lemma {:induction false} WalkStops(c: Crypto, es: seq<Dict>, start: string, n: nat)
    requires n <= |es| && Walk(c, es[..n], start).Stopped?
    ensures Walk(c, es, start) == Walk(c, es[..n], start)
    decreases |es|
  {
    if n < |es| {
      var m := |es| - 1;
      assert es[..m][..n] == es[..n];
      WalkStops(c, es[..m], start, n);
    } else {
      assert es[..n] == es;
    }
  }

  /** Entry `i` names the hash before it: `start`, or the hash the entry before records. */
  ghost predicate NamesHashBefore(es: seq<Dict>, start: string, i: nat)
    requires i < |es|
  {
    Get(es[i], "prev_hash") == if i == 0 then JStr(start) else Get(es[i - 1], "entry_hash")
  }

  /** The entry records the signature of everything else in it. */
  ghost predicate SignsRest(c: Crypto, e: Dict) {
    Get(e, "entry_hash") == JStr(c.mac(c.canonical(e - {"entry_hash"})))
  }

  ghost predicate GoodEntry(c: Crypto, es: seq<Dict>, start: string, i: nat)
    requires i < |es|
  {
    NamesHashBefore(es, start, i) && SignsRest(c, es[i])
  }

  /** The hash the last entry records, or `start`. */
  function LastHash(es: seq<Dict>, start: string): string {
    if es == [] then start
    else
      var last := Get(es[|es| - 1], "entry_hash");
      if last.JStr? then last.s else ""
  }

  /** A walk gets to the end exactly when every entry is good, and else stops at the first
      that is not, with what is wrong with it. */
  lemma {:induction false} WalkExactly(c: Crypto, es: seq<Dict>, start: string)
    ensures var w := Walk(c, es, start);
      && (w.Reached? <==> forall i :: 0 <= i < |es| ==> GoodEntry(c, es, start, i))
      && (w.Reached? ==> w.hash == LastHash(es, start))
      && (w.Stopped? ==>
            && w.index < |es| && (forall i :: 0 <= i < w.index ==> GoodEntry(c, es, start, i))
            && (if NamesHashBefore(es, start, w.index) then w.error == HashMismatch && !SignsRest(c, es[w.index])
                else w.error == PrevMismatch))
    decreases |es|
  {
    if es != [] {
      var init, e := es[..|es| - 1], es[|es| - 1];
      assert es == init + [e];
      WalkSnoc(c, init, e, start);
      WalkExactly(c, init, start);
      hide Walk;
      if Walk(c, init, start).Reached? && init != [] { assert GoodEntry(c, init, start, |init| - 1); }
      assert forall i :: 0 <= i < |init| ==> GoodEntry(c, es, start, i) == GoodEntry(c, init, start, i);
      assert (forall i :: 0 <= i < |es| ==> GoodEntry(c, es, start, i)) <==>
        (forall i :: 0 <= i < |init| ==> GoodEntry(c, init, start, i)) && GoodEntry(c, es, start, |init|);
    }
  }

  lemma {:induction false} StoredParts(c: Crypto, l: Link)
    requires Signed(c, l)
    ensures Get(Stored(l), "prev_hash") == JStr(l.prev)
    ensures Stored(l) - {"entry_hash"} == Body(l.fields, l.prev)
    ensures ContentOk(c, Stored(l)) && Stored(l)["entry_hash"] == JStr(l.hash)
  {
    assert "entry_hash" !in Body(l.fields, l.prev);
    assert Stored(l) - {"entry_hash"} == Body(l.fields, l.prev);
  }

  /** Adding an entry at the end of a chain. */
  lemma {:induction false} LinkedSnoc(c: Crypto, ls: seq<Link>, l: Link, start: string)
    ensures Linked(c, ls + [l], start) <==> Linked(c, ls, start) && Signed(c, l) && l.prev == Tip(ls, start)
  {
    var all := ls + [l];
    assert all[..|ls|] == ls && all[|ls|] == l;
    assert forall i :: 0 <= i < |ls| ==> all[i] == ls[i] && all[..i] == ls[..i];
  }

  lemma {:induction false} WalkSnoc(c: Crypto, es: seq<Dict>, e: Dict, start: string)
    ensures var w := Walk(c, es, start);
      Walk(c, es + [e], start) ==
        if w.Stopped? then w
        else if !LinkOk(e, w.hash) then Stopped(|es|, PrevMismatch)
        else if !ContentOk(c, e) then Stopped(|es|, HashMismatch)
        else Reached(Get(e, "entry_hash").s)
  {
    assert (es + [e])[..|es|] == es;
  }

  lemma {:induction false} StoredSnoc(ls: seq<Link>, l: Link)
    ensures StoredAll(ls + [l]) == StoredAll(ls) + [Stored(l)]
  {
    var x, y := StoredAll(ls + [l]), StoredAll(ls) + [Stored(l)];
    assert |x| == |y| && forall i :: 0 <= i < |x| ==> x[i] == y[i];
  }

  /** A stored list of signed entries is walked to the end exactly when it is linked. */
  lemma {:induction false} WalkHonest(c: Crypto, ls: seq<Link>, start: string)
    requires forall i :: 0 <= i < |ls| ==> Signed(c, ls[i])
    ensures Walk(c, StoredAll(ls), start).Reached? <==> Linked(c, ls, start)
    ensures Linked(c, ls, start) ==> Walk(c, StoredAll(ls), start) == Reached(Tip(ls, start))
    decreases |ls|
  {
    if ls != [] {
      var n := |ls| - 1;
      var init, l := ls[..n], ls[n];
      assert ls == init + [l];
      StoredParts(c, l);
      hide Stored, Linked, Walk, Signed, StoredAll, ContentOk;
      WalkHonest(c, init, start);
      LinkedSnoc(c, init, l, start);
      StoredSnoc(init, l);
      WalkSnoc(c, StoredAll(init), Stored(l), start);
    }
  }

  /** The list holds the last entries of the chain, unchanged and in order, and starts
      from the hash before them. */
  ghost predicate EndsChain(es: seq<Dict>, ls: seq<Link>, start: string) {
    && |es| <= |ls|
    && es == StoredAll(ls[|ls| - |es|..])
    && start == Tip(ls[..|ls| - |es|], GENESIS)
  }

  /** Read back from the hash it ends at: a walk that reaches the tip of an honest
      chain, from wherever it started, has walked the end of that chain. */
  lemma {:induction false} WalkBack(c: Crypto, es: seq<Dict>, ls: seq<Link>, start: string)
    requires c.Sound() && Linked(c, ls, GENESIS) && Walk(c, es, start) == Reached(Tip(ls, GENESIS))
    ensures EndsChain(es, ls, start)
    decreases |es|
  {
    if es == [] {
      EmptyEnds(ls);
    } else {
      var init, e := es[..|es| - 1], es[|es| - 1];
      assert es == init + [e];
      hide EndsChain, Stored, Linked, Walk, StoredAll, Crypto.Sound, Tip;
      BackOne(c, init, e, ls, start);
      WalkBack(c, init, ls[..|ls| - 1], start);
      EndsSnoc(init, e, ls, start);
    }
  }

  lemma {:induction false} EmptyEnds(ls: seq<Link>)
    ensures EndsChain([], ls, Tip(ls, GENESIS))
  {
    assert ls[..|ls|] == ls;
  }

  lemma {:induction false} EndsSnoc(init: seq<Dict>, e: Dict, ls: seq<Link>, start: string)
    requires ls != [] && EndsChain(init, ls[..|ls| - 1], start) && e == Stored(ls[|ls| - 1])
    ensures EndsChain(init + [e], ls, start)
  {
    hide Stored, StoredAll;
    var rest, k := ls[..|ls| - 1], |ls| - 1 - |init|;
    assert ls[k..] == rest[k..] + [ls[|ls| - 1]] && ls[..k] == rest[..k];
    StoredSnoc(rest[k..], ls[|ls| - 1]);
  }

  lemma {:induction false} BackOne(c: Crypto, init: seq<Dict>, e: Dict, ls: seq<Link>, start: string)
    requires c.Sound() && Linked(c, ls, GENESIS) && Walk(c, init + [e], start) == Reached(Tip(ls, GENESIS))
    ensures ls != [] && e == Stored(ls[|ls| - 1])
    ensures Linked(c, ls[..|ls| - 1], GENESIS) && Walk(c, init, start) == Reached(Tip(ls[..|ls| - 1], GENESIS))
  {
    hide Stored, Linked, Walk, Signed, StoredAll, Crypto.Sound;
    WalkSnoc(c, init, e, start);
    assert Get(e, "entry_hash") == JStr(Tip(ls, GENESIS));
    HashNotGenesis(c, e);
    hide ContentOk;
    var rest, l := ls[..|ls| - 1], ls[|ls| - 1];
    assert ls == rest + [l];
    LinkedSnoc(c, rest, l, GENESIS);
    LastEntryDetermined(c, e, l);
    StoredParts(c, l);
  }

  lemma {:induction false} HashNotGenesis(c: Crypto, e: Dict)
    requires c.Sound() && ContentOk(c, e)
    ensures Get(e, "entry_hash") != JStr(GENESIS)
  {
  }

  lemma {:induction false} LastEntryDetermined(c: Crypto, e: Dict, l: Link)
    requires c.Sound() && Signed(c, l) && ContentOk(c, e)
    requires Get(e, "entry_hash") == JStr(l.hash)
    ensures e == Stored(l)
  {
    var body := e - {"entry_hash"};
    assert c.mac(c.canonical(body)) == c.mac(c.canonical(Body(l.fields, l.prev)));
    assert body == Body(l.fields, l.prev);
    assert e == body["entry_hash" := e["entry_hash"]];
  }
}
