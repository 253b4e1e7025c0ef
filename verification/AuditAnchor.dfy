/** The S3 Object Lock anchor: one write-once object per audit entry, listed in key
    order, and how it compares with the SQL mirror. */
module AuditAnchor {
  import opened Text
  import opened Tokens
  import opened AuditChain
  import opened AuditStore
  import opened KeyOrder
  import opened AuditLog
  import opened AuditRuns

  type Bucket = map<string, Dict>

  function TenantPrefix(prefix: string, tenant: string): string {
    prefix + "/" + tenant + "/"
  }

  function Key(prefix: string, tenant: string, seqNo: int): string {
    TenantPrefix(prefix, tenant) + (Padded(seqNo) + ".json")
  }

  /** What an object holds for an entry: the entry and its number. */
  function RecordOf(r: Row): Dict {
    Stored(Link(r.fields, 0, r.prev, r.hash))["seq" := JInt(r.seqNo)]
  }

  /** `record.get("seq") == n`, where 1, 1.0 and true are equal. */
  predicate SeqIs(record: Dict, n: int) {
    "seq" in record &&
    match record["seq"]
    case JInt(m) => m == n
    case JFloat(num, den) => den > 0 && num == n * den
    case JBool(b) => n == (if b then 1 else 0)
    case _ => false
  }

  /** The object of an entry holds the entry and its number, and nothing else. */
  lemma {:induction false} RecordHoldsEntry(l: Link, n: int)
    ensures var d := RecordOf(RowOf(l, n)); d - {"seq"} == Stored(l) && "seq" in d && d["seq"] == JInt(n)
  {
    StoredKeys(l);
    assert Stored(Link(l.fields, 0, l.prev, l.hash)) == Stored(l);
  }

  ghost predicate TwentyDigits(ds: string, n: nat) {
    |ds| == 20 && (forall i :: 0 <= i < 20 ==> IsDigit(ds[i])) && TextNat(ds) == n
  }

  /** Prefix, tenant and the number in twenty digits. */
  lemma {:induction false} KeySpelled(prefix: string, tenant: string, n: nat)
    requires n < Pow10(20)
    ensures exists ds :: TwentyDigits(ds, n) && Key(prefix, tenant, n) == prefix + "/" + tenant + "/" + ds + ".json"
  {
    hide Pow10, TextNat, NatText;
    PaddedValue(n);
    var ds := Padded(n);
    assert TwentyDigits(ds, n);
    assert Key(prefix, tenant, n) == prefix + "/" + tenant + "/" + ds + ".json";
  }

  predicate RecordContentOk(c: Crypto, record: Dict) {
    "entry_hash" in record && record["entry_hash"] == JStr(c.EntryHash(record - {"entry_hash", "seq"}))
  }

  predicate RecordLinks(record: Dict, prev: string) {
    "prev_hash" in record && record["prev_hash"] == JStr(prev)
  }

  function WalkRecords(c: Crypto, rs: seq<Dict>): Walked {
    if rs == [] then Reached(GENESIS)
    else
      var n := |rs| - 1;
      var w := WalkRecords(c, rs[..n]);
      if w.Stopped? then w
      else if !SeqIs(rs[n], n + 1) then Stopped(n, SeqGap)
      else if !RecordLinks(rs[n], w.hash) then Stopped(n, PrevMismatch)
      else if !RecordContentOk(c, rs[n]) then Stopped(n, HashMismatch)
      else Reached(rs[n]["entry_hash"].s)
  }

  /** An enumeration of the bucket's keys with a prefix, in whatever order the server
      lists them. */
  ghost predicate Lists(order: seq<string>, objects: Bucket, prefix: string) {
    NoDuplicates(order) && forall k :: k in order <==> k in objects && prefix <= k
  }

  /** The sorted keys with a prefix. */
  ghost predicate Listing(keys: seq<string>, objects: Bucket, prefix: string) {
    Ascending(keys) && forall k :: k in keys <==> k in objects && prefix <= k
  }

  function Fetched(objects: Bucket, keys: seq<string>): (rs: seq<Dict>)
    requires forall k :: k in keys ==> k in objects
    ensures |rs| == |keys| && forall i :: 0 <= i < |rs| ==> rs[i] == objects[keys[i]]
  {
    if keys == [] then [] else
      assert keys[0] in keys && forall k :: k in keys[1..] ==> k in keys;
      [objects[keys[0]]] + Fetched(objects, keys[1..])
  }

  class S3ObjectLockAnchor {
    const crypto: Crypto
    const prefix: string
    var objects: Bucket

    constructor (crypto: Crypto, prefix: string)
      ensures this.crypto == crypto && this.prefix == prefix && objects == map[]
    {
      this.crypto, this.prefix, objects := crypto, prefix, map[];
    }

    /** Put an object that must not exist yet; a refusal is swallowed. */
    method Append(l: Link, seqNo: int)
      modifies this
      ensures objects == Put(old(objects), prefix, RowOf(l, seqNo))
    {
      hide Stored, Key, RecordOf;
      var r := RowOf(l, seqNo);
      var key := Key(prefix, r.fields.tenantId, seqNo);
      if key !in objects {
        objects := objects[key := RecordOf(r)];
      }
    }

    /** Collect the pages of a listing, however many keys each holds, and sort. */
    method ListKeys(under: string, order: seq<string>, pageSize: nat -> nat) returns (keys: seq<string>)
      requires Lists(order, objects, under)
      ensures Listing(keys, objects, under)
    {
      keys := [];
      var token, page := 0, 0;
      while true
        invariant token <= |order| && keys == order[..token]
        decreases |order| - token
      {
        var next := if |order| - token <= pageSize(page) + 1 then |order| else token + pageSize(page) + 1;
        keys := keys + order[token..next];
        if next == |order| { break; }
        token, page := next, page + 1;
      }
      assert keys == order;
      SortKeysAscends(keys);
      keys := SortKeys(keys);
    }

    method VerifyChain(tenant: string, order: seq<string>, pageSize: nat -> nat)
      returns (v: Verdict)
      requires Lists(order, objects, TenantPrefix(prefix, tenant))
      ensures exists keys :: Listing(keys, objects, TenantPrefix(prefix, tenant))
      ensures forall keys :: Listing(keys, objects, TenantPrefix(prefix, tenant)) ==>
        v == VerdictOf(WalkRecords(crypto, Fetched(objects, keys)), |keys|)
    {
      var found := ListKeys(TenantPrefix(prefix, tenant), order, pageSize);
      forall keys | Listing(keys, objects, TenantPrefix(prefix, tenant)) ensures keys == found {
        AscendingUnique(keys, found);
      }
      v := WalkObjects(found);
    }

    /** The loop of the verifier, over the listed keys. */
    method WalkObjects(found: seq<string>) returns (v: Verdict)
      requires forall k :: k in found ==> k in objects
      ensures v == VerdictOf(WalkRecords(crypto, Fetched(objects, found)), |found|)
    {
      hide SeqIs, RecordLinks, RecordContentOk, Crypto.EntryHash;
      ghost var rs := Fetched(objects, found);
      var prev := GENESIS;
      var expectedSeq := 1;
      for i := 0 to |found|
        invariant expectedSeq == i + 1
        invariant WalkRecords(crypto, rs[..i]) == Reached(prev)
      {
        assert found[i] in found;
        var record := objects[found[i]];
        assert rs[..i + 1] == rs[..i] + [record];
        WalkRecordsSnoc(crypto, rs[..i], record);
        if WalkRecords(crypto, rs[..i + 1]).Stopped? {
          RecordsStop(crypto, rs, i + 1);
        }
        if !SeqIs(record, expectedSeq) { return Rejected(|found|, i, SeqGap); }
        if !RecordLinks(record, prev) { return Rejected(|found|, i, PrevMismatch); }
        if !RecordContentOk(crypto, record) { return Rejected(|found|, i, HashMismatch); }
        prev := HashOf(crypto, record);
        expectedSeq := expectedSeq + 1;
      }
      assert rs[..|found|] == rs;
      return Accepted(|found|);
    }
  }

  function HashOf(c: Crypto, record: Dict): (h: string)
    requires RecordContentOk(c, record)
    ensures record["entry_hash"] == JStr(h)
  {
    record["entry_hash"].s
  }

  function Put(objects: Bucket, prefix: string, r: Row): Bucket
  {
    var key := Key(prefix, r.fields.tenantId, r.seqNo);
    if key in objects then objects else objects[key := RecordOf(r)]
  }

  lemma {:induction false} WalkRecordsSnoc(c: Crypto, rs: seq<Dict>, r: Dict)
    ensures var w := WalkRecords(c, rs);
      WalkRecords(c, rs + [r]) ==
        if w.Stopped? then w
        else if !SeqIs(r, |rs| + 1) then Stopped(|rs|, SeqGap)
        else if !RecordLinks(r, w.hash) then Stopped(|rs|, PrevMismatch)
        else if !RecordContentOk(c, r) then Stopped(|rs|, HashMismatch)
        else Reached(HashOf(c, r))
  {
    hide SeqIs, RecordLinks;
    assert (rs + [r])[..|rs|] == rs;
  }

  /** Object `i` carries the next number, the hash of the object before it and its own. */
  ghost predicate GoodObject(c: Crypto, rs: seq<Dict>, i: nat)
    requires i < |rs|
  {
    SeqIs(rs[i], i + 1) && NamesObjectBefore(rs, i) && SignsAllButSeq(c, rs[i])
  }

  ghost predicate NamesObjectBefore(rs: seq<Dict>, i: nat)
    requires i < |rs|
  {
    Field(rs[i], "prev_hash") == if i == 0 then Some(JStr("genesis")) else Field(rs[i - 1], "entry_hash")
  }

  ghost predicate SignsAllButSeq(c: Crypto, record: Dict) {
    Field(record, "entry_hash") == Some(JStr(c.mac(c.canonical(record - {"entry_hash", "seq"}))))
  }

  function Field(record: Dict, key: string): Option<Json> {
    if key in record then Some(record[key]) else None
  }

  ghost predicate FaultyObject(c: Crypto, rs: seq<Dict>, i: nat, error: Error)
    requires i < |rs|
  {
    match error
    case SeqGap => !SeqIs(rs[i], i + 1)
    case PrevMismatch => SeqIs(rs[i], i + 1) && !NamesObjectBefore(rs, i)
    case HashMismatch => SeqIs(rs[i], i + 1) && NamesObjectBefore(rs, i) && !SignsAllButSeq(c, rs[i])
    case _ => false
  }

  /** Which number values are equal to `n`. */
  lemma {:induction false} NumbersEqual(record: Dict, n: int)
    ensures Field(record, "seq") == Some(JInt(n)) ==> forall m :: SeqIs(record, m) <==> m == n
    ensures Field(record, "seq") == Some(JFloat(2 * n, 2)) ==> forall m :: SeqIs(record, m) <==> m == n
    ensures Field(record, "seq") == Some(JFloat(2 * n + 1, 2)) ==> forall m :: !SeqIs(record, m)
    ensures Field(record, "seq") == Some(JBool(true)) ==> forall m :: SeqIs(record, m) <==> m == 1
    ensures Field(record, "seq").None? || Field(record, "seq").value.JStr? ==> forall m :: !SeqIs(record, m)
  {
  }

  /** The answer for any objects: accepted exactly when every object is good; and otherwise
      the first bad one, with the first thing wrong with it. */
  lemma {:induction false} ObjectsVerdictExactly(c: Crypto, rs: seq<Dict>)
    ensures var v := VerdictOf(WalkRecords(c, rs), |rs|);
      && v.entries == |rs|
      && (v.Accepted? <==> forall i :: 0 <= i < |rs| ==> GoodObject(c, rs, i))
      && (v.Rejected? ==>
            && v.firstBad < |rs| && (forall i :: 0 <= i < v.firstBad ==> GoodObject(c, rs, i))
            && FaultyObject(c, rs, v.firstBad, v.error))
    decreases |rs|
  {
    if rs != [] {
      var init, r := rs[..|rs| - 1], rs[|rs| - 1];
      assert rs == init + [r];
      WalkRecordsSnoc(c, init, r);
      ObjectsVerdictExactly(c, init);
      if WalkRecords(c, init).Reached? { WalkedObjectsHash(c, init); }
      hide WalkRecords, SeqIs;
      assert forall i :: 0 <= i < |init| ==> GoodObject(c, rs, i) == GoodObject(c, init, i);
      assert (forall i :: 0 <= i < |rs| ==> GoodObject(c, rs, i)) <==>
        (forall i :: 0 <= i < |init| ==> GoodObject(c, init, i)) && GoodObject(c, rs, |init|);
    }
  }

  lemma {:induction false} WalkedObjectsHash(c: Crypto, rs: seq<Dict>)
    requires WalkRecords(c, rs).Reached?
    ensures (if rs == [] then Some(JStr("genesis")) else Field(rs[|rs| - 1], "entry_hash")) == Some(JStr(WalkRecords(c, rs).hash))
  {
    hide SeqIs, RecordLinks;
  }

  lemma {:induction false} RecordsStop(c: Crypto, rs: seq<Dict>, n: nat)
    requires n <= |rs| && WalkRecords(c, rs[..n]).Stopped?
    ensures WalkRecords(c, rs) == WalkRecords(c, rs[..n])
    decreases |rs|
  {
    hide SeqIs, RecordLinks, RecordContentOk;
    if n < |rs| {
      var m := |rs| - 1;
      assert rs[..m][..n] == rs[..n];
      RecordsStop(c, rs[..m], n);
    } else {
      assert rs[..n] == rs;
    }
  }

  // ----------------------------------------------------------------------- listing

  predicate SlashFree(s: string) {
    '/' !in s
  }

  /** No tenant's listing shows another tenant's objects. */
  lemma {:induction false} TenantsApart(prefix: string, a: string, b: string, seqNo: int)
    requires SlashFree(a) && SlashFree(b)
    ensures TenantPrefix(prefix, a) <= Key(prefix, b, seqNo) <==> a == b
  {
    var p := prefix + "/";
    var k := Padded(seqNo) + ".json";
    assert Key(prefix, b, seqNo) == p + (b + "/" + k) && TenantPrefix(prefix, a) == p + (a + "/");
    if TenantPrefix(prefix, a) <= Key(prefix, b, seqNo) {
      var rest := Key(prefix, b, seqNo)[|TenantPrefix(prefix, a)|..];
      assert Key(prefix, b, seqNo)[|p|..] == a + ['/'] + rest && Key(prefix, b, seqNo)[|p|..] == b + ['/'] + k;
      NamesEndAtSeparator('/', a, rest, b, k);
    }
  }

  /** One tenant's keys sort by entry number. */
  lemma {:induction false} KeysSortBySeq(prefix: string, tenant: string, m: nat, n: nat)
    requires m < Pow10(20) && n < Pow10(20)
    ensures LexLess(Key(prefix, tenant, m), Key(prefix, tenant, n)) <==> m < n
    ensures Key(prefix, tenant, m) == Key(prefix, tenant, n) <==> m == n
  {
    PaddedOrder(m, n);
    PaddedValue(m);
    PaddedValue(n);
    hide Padded, LexLess;
    LexSameSuffix(Padded(m), Padded(n), ".json");
    LexSamePrefix(TenantPrefix(prefix, tenant), Padded(m) + ".json", Padded(n) + ".json");
    assert (Padded(m) + ".json")[..20] == Padded(m) && (Padded(n) + ".json")[..20] == Padded(n);
    var t := TenantPrefix(prefix, tenant);
    assert Key(prefix, tenant, m)[|t|..] == Padded(m) + ".json" && Key(prefix, tenant, n)[|t|..] == Padded(n) + ".json";
  }

  // --------------------------------------------------- the same appends to both

  function RowKey(prefix: string, r: Row): string
  {
    Key(prefix, r.fields.tenantId, r.seqNo)
  }

  /** What either anchor is given: tenants without a slash, numbers of at most twenty
      digits. */
  predicate Fileable(r: Row) {
    SlashFree(r.fields.tenantId) && 1 <= r.seqNo < Pow10(20)
  }

  function TableOf(adds: seq<Row>): seq<Row> {
    if adds == [] then [] else Added(TableOf(adds[..|adds| - 1]), adds[|adds| - 1])
  }

  function BucketOf(prefix: string, adds: seq<Row>): Bucket
  {
    if adds == [] then map[] else Put(BucketOf(prefix, adds[..|adds| - 1]), prefix, adds[|adds| - 1])
  }

  lemma {:induction false} RowKeysApart(prefix: string, r: Row, s: Row)
    requires Fileable(r) && Fileable(s) && RowKey(prefix, r) == RowKey(prefix, s)
    ensures r.fields.tenantId == s.fields.tenantId && r.seqNo == s.seqNo
  {
    var a, b := r.fields.tenantId, s.fields.tenantId;
    assert TenantPrefix(prefix, a) <= Key(prefix, a, r.seqNo);
    TenantsApart(prefix, a, b, s.seqNo);
    KeysSortBySeq(prefix, a, r.seqNo, s.seqNo);
  }

  ghost predicate SamePlace(r: Row, s: Row) {
    r.fields.tenantId == s.fields.tenantId && r.seqNo == s.seqNo
  }

  /** The bucket and the table hold the same entries, one to a place. */
  ghost predicate Mirrors(prefix: string, objects: Bucket, table: seq<Row>) {
    && (forall r :: r in table ==> Fileable(r) && RowKey(prefix, r) in objects && objects[RowKey(prefix, r)] == RecordOf(r))
    && (forall k :: k in objects ==> exists r :: r in table && Fileable(r) && k == RowKey(prefix, r))
    && (forall i, j :: 0 <= i < j < |table| ==> !SamePlace(table[i], table[j]))
  }

  lemma {:induction false} MirrorsStep(prefix: string, objects: Bucket, table: seq<Row>, r: Row)
    requires Mirrors(prefix, objects, table) && Fileable(r)
    requires forall x :: x in table ==> x.fields.id != r.fields.id
    ensures Mirrors(prefix, Put(objects, prefix, r), Added(table, r))
  {
    hide Key, RecordOf, SlashFree, Pow10;
    var key := RowKey(prefix, r);
    PlaceTaken(prefix, objects, table, r);
    if key !in objects {
      hide Clashes, RowKey;
      MirrorsAdd(prefix, objects, table, r, key);
    }
  }

  /** Both refuse an entry in the same case: its place is taken. */
  lemma {:induction false} PlaceTaken(prefix: string, objects: Bucket, table: seq<Row>, r: Row)
    requires Mirrors(prefix, objects, table) && Fileable(r)
    requires forall x :: x in table ==> x.fields.id != r.fields.id
    ensures Clashes(table, r) <==> RowKey(prefix, r) in objects
    ensures RowKey(prefix, r) !in objects ==> forall x :: x in table ==> !SamePlace(x, r) && RowKey(prefix, x) != RowKey(prefix, r)
  {
    hide Key, RecordOf, SlashFree, Pow10;
    if RowKey(prefix, r) in objects {
      var x :| x in table && Fileable(x) && RowKey(prefix, r) == RowKey(prefix, x);
      RowKeysApart(prefix, r, x);
      var i :| 0 <= i < |table| && table[i] == x;
      assert Clash(table[i], r);
    }
    if Clashes(table, r) {
      var i :| 0 <= i < |table| && Clash(table[i], r);
      assert table[i] in table;
    }
  }

  lemma {:induction false} MirrorsAdd(prefix: string, objects: Bucket, table: seq<Row>, r: Row, key: string)
    requires Mirrors(prefix, objects, table) && Fileable(r) && key == RowKey(prefix, r) && key !in objects
    requires forall x :: x in table ==> !SamePlace(x, r) && RowKey(prefix, x) != key
    ensures Mirrors(prefix, objects[key := RecordOf(r)], table + [r])
  {
    hide RecordOf, RowKey, SlashFree, Pow10;
    var objects', table' := objects[key := RecordOf(r)], table + [r];
    forall k | k in objects' ensures exists x :: x in table' && Fileable(x) && k == RowKey(prefix, x) {
      if k == key {
        assert r in table';
      } else {
        var x :| x in table && Fileable(x) && k == RowKey(prefix, x);
        assert x in table';
      }
    }
    forall i, j | 0 <= i < j < |table'| ensures !SamePlace(table'[i], table'[j]) {
      if j == |table| { assert table[i] in table; }
    }
  }

  /** No id is used twice, and every entry can be filed. */
  ghost predicate FreshEntries(adds: seq<Row>) {
    && (forall r :: r in adds ==> Fileable(r))
    && forall i, j :: 0 <= i < j < |adds| ==> adds[i].fields.id != adds[j].fields.id
  }

  lemma {:induction false} BothMirror(prefix: string, adds: seq<Row>)
    requires FreshEntries(adds)
    ensures Mirrors(prefix, BucketOf(prefix, adds), TableOf(adds))
    ensures forall r :: r in TableOf(adds) ==> r in adds
    decreases |adds|
  {
    hide SlashFree, Pow10, Key, RecordOf, RowKey, Clashes, Mirrors, FreshEntries, Put, Added, Fileable;
    if adds == [] {
      EmptyMirrors(prefix);
    } else {
      var init, r := adds[..|adds| - 1], adds[|adds| - 1];
      assert adds == init + [r];
      FreshParts(adds, init, r);
      BothMirror(prefix, init);
      MirrorsStep(prefix, BucketOf(prefix, init), TableOf(init), r);
      AddedMembers(TableOf(init), r);
    }
  }

  lemma {:induction false} FreshParts(adds: seq<Row>, init: seq<Row>, r: Row)
    requires FreshEntries(adds) && adds == init + [r]
    ensures FreshEntries(init) && Fileable(r) && r in adds
    ensures forall x :: x in init ==> x in adds && x.fields.id != r.fields.id
  {
    hide Fileable;
    assert r in adds && forall x :: x in init ==> x in adds;
    assert forall i :: 0 <= i < |init| ==> init[i] == adds[i];
    forall x | x in init ensures x in adds && x.fields.id != r.fields.id {
      var i :| 0 <= i < |init| && init[i] == x;
      assert adds[i] == x && adds[|init|] == r;
    }
  }

  lemma {:induction false} AddedMembers(table: seq<Row>, r: Row)
    ensures forall x :: x in Added(table, r) ==> x in table || x == r
  {
    hide Clashes;
  }

  lemma {:induction false} EmptyMirrors(prefix: string)
    ensures Mirrors(prefix, map[], [])
  {
  }

  // ------------------------------------------------------------- the same walk

  ghost predicate Strict(rs: seq<Row>) {
    forall i, j :: 0 <= i < j < |rs| ==> rs[i].seqNo < rs[j].seqNo
  }

  lemma {:induction false} InsertStrict(r: Row, rs: seq<Row>)
    requires Strict(rs) && forall x :: x in rs ==> x.seqNo != r.seqNo
    ensures Strict(InsertRow(r, rs))
    decreases |rs|
  {
    if rs != [] {
      assert rs[0] in rs;
      if rs[0].seqNo < r.seqNo {
        InsertStrict(r, rs[1..]);
        var q := InsertRow(r, rs[1..]);
        assert q[0] == r || q[0] == rs[1];
      }
    }
  }

  lemma {:induction false} QueryStrict(table: seq<Row>, tenant: string)
    requires forall i, j :: 0 <= i < j < |table| ==> !SamePlace(table[i], table[j])
    ensures Strict(Query(table, tenant))
    decreases |table|
  {
    if table != [] {
      hide InsertRow, Strict;
      var init, r := table[..|table| - 1], table[|table| - 1];
      QueryStrict(init, tenant);
      QueryMembers(init, tenant);
      if r.fields.tenantId == tenant {
        forall x | x in Query(init, tenant) ensures x.seqNo != r.seqNo {
          assert x in init && x.fields.tenantId == tenant;
          var i :| 0 <= i < |init| && init[i] == x;
          assert !SamePlace(table[i], table[|table| - 1]);
        }
        InsertStrict(r, Query(init, tenant));
      }
    } else {
      assert Strict([]);
    }
  }

  function KeysOf(prefix: string, rs: seq<Row>): (ks: seq<string>)
    ensures |ks| == |rs| && forall i :: 0 <= i < |rs| ==> ks[i] == RowKey(prefix, rs[i])
  {
    seq(|rs|, i requires 0 <= i < |rs| => RowKey(prefix, rs[i]))
  }

  function RecordsOf(rs: seq<Row>): (ds: seq<Dict>)
    ensures |ds| == |rs| && forall i :: 0 <= i < |rs| ==> ds[i] == RecordOf(rs[i])
  {
    if rs == [] then [] else RecordsOf(rs[..|rs| - 1]) + [RecordOf(rs[|rs| - 1])]
  }

  /** The sorted keys under a tenant's prefix are those of the rows the query returns,
      in the same order. */
  lemma {:induction false} ListingIsQuery(prefix: string, objects: Bucket, table: seq<Row>, tenant: string, keys: seq<string>)
    requires Mirrors(prefix, objects, table) && SlashFree(tenant)
    requires Listing(keys, objects, TenantPrefix(prefix, tenant))
    ensures |keys| == |Query(table, tenant)| && Fetched(objects, keys) == RecordsOf(Query(table, tenant))
  {
    var q := Query(table, tenant);
    QueryMembers(table, tenant);
    QueryStrict(table, tenant);
    hide Query, RecordOf, SlashFree, Pow10, RowKey, TenantPrefix, Strict, Listing;
    assert forall r :: r in q ==> RowKey(prefix, r) in objects && objects[RowKey(prefix, r)] == RecordOf(r);
    KeysAscend(prefix, q, tenant);
    forall k ensures k in KeysOf(prefix, q) <==> k in keys {
      KeyListed(prefix, objects, table, tenant, k);
      KeysOfMembers(prefix, q, k);
      ListingMembers(keys, objects, TenantPrefix(prefix, tenant), k);
    }
    hide Mirrors, Ascending;
    assert Ascending(keys) by { ListingMembers(keys, objects, TenantPrefix(prefix, tenant), ""); }
    AscendingUnique(KeysOf(prefix, q), keys);
    FetchedRecords(prefix, objects, q);
  }

  lemma {:induction false} ListingMembers(keys: seq<string>, objects: Bucket, under: string, k: string)
    requires Listing(keys, objects, under)
    ensures Ascending(keys) && (k in keys <==> k in objects && under <= k)
  {
  }

  lemma {:induction false} FetchedRecords(prefix: string, objects: Bucket, rs: seq<Row>)
    requires forall r :: r in rs ==> RowKey(prefix, r) in objects && objects[RowKey(prefix, r)] == RecordOf(r)
    ensures (forall k :: k in KeysOf(prefix, rs) ==> k in objects) && Fetched(objects, KeysOf(prefix, rs)) == RecordsOf(rs)
  {
    hide RowKey, RecordOf;
    var ks := KeysOf(prefix, rs);
    forall k | k in ks ensures k in objects {
      var i :| 0 <= i < |ks| && ks[i] == k;
      assert rs[i] in rs;
    }
    forall i | 0 <= i < |ks| ensures Fetched(objects, ks)[i] == RecordsOf(rs)[i] {
      assert rs[i] in rs;
    }
  }

  lemma {:induction false} KeysOfMembers(prefix: string, rs: seq<Row>, k: string)
    ensures k in KeysOf(prefix, rs) <==> exists r :: r in rs && k == RowKey(prefix, r)
  {
    hide RowKey;
    var ks := KeysOf(prefix, rs);
    if k in ks {
      var i :| 0 <= i < |ks| && ks[i] == k;
      assert rs[i] in rs;
    }
    if r :| r in rs && k == RowKey(prefix, r) {
      var i :| 0 <= i < |rs| && rs[i] == r;
      assert ks[i] == k;
    }
  }

  lemma {:induction false} KeyListed(prefix: string, objects: Bucket, table: seq<Row>, tenant: string, k: string)
    requires Mirrors(prefix, objects, table) && SlashFree(tenant)
    ensures k in objects && TenantPrefix(prefix, tenant) <= k <==>
      exists r :: r in table && Fileable(r) && r.fields.tenantId == tenant && k == RowKey(prefix, r)
  {
    hide Key, TenantPrefix, RecordOf, Pow10;
    if k in objects {
      var r :| r in table && Fileable(r) && k == RowKey(prefix, r);
      TenantsApart(prefix, tenant, r.fields.tenantId, r.seqNo);
    }
    if r :| r in table && Fileable(r) && r.fields.tenantId == tenant && k == RowKey(prefix, r) {
      TenantsApart(prefix, tenant, tenant, r.seqNo);
    }
  }

  lemma {:induction false} KeysAscend(prefix: string, rs: seq<Row>, tenant: string)
    requires Strict(rs) && forall r :: r in rs ==> Fileable(r) && r.fields.tenantId == tenant
    ensures Ascending(KeysOf(prefix, rs))
  {
    hide Key, LexLess, SlashFree;
    var ks := KeysOf(prefix, rs);
    forall i, j | 0 <= i < j < |ks| ensures LexLess(ks[i], ks[j]) {
      assert rs[i] in rs && rs[j] in rs;
      KeysSortBySeq(prefix, tenant, rs[i].seqNo, rs[j].seqNo);
    }
  }

  /** An object is checked exactly as the row is. */
  lemma {:induction false} RecordChecks(c: Crypto, r: Row, n: int, prev: string)
    ensures SeqIs(RecordOf(r), n) <==> r.seqNo == n
    ensures RecordLinks(RecordOf(r), prev) <==> r.prev == prev
    ensures RecordContentOk(c, RecordOf(r)) <==> RowContentOk(c, r)
    ensures "entry_hash" in RecordOf(r) && RecordOf(r)["entry_hash"] == JStr(r.hash)
  {
    var b := Body(r.fields, r.prev);
    assert "entry_hash" !in b && "seq" !in b && b["prev_hash"] == JStr(r.prev);
    assert RecordOf(r) == b["entry_hash" := JStr(r.hash)]["seq" := JInt(r.seqNo)];
    hide Body, RecordOf;
    assert RecordOf(r) - {"entry_hash", "seq"} == b;
  }

  lemma {:induction false} SameWalk(c: Crypto, rs: seq<Row>)
    ensures WalkRecords(c, RecordsOf(rs)) == WalkRows(c, rs)
    decreases |rs|
  {
    if rs != [] {
      var init, r := rs[..|rs| - 1], rs[|rs| - 1];
      assert rs == init + [r];
      hide RecordOf, SeqIs, RecordLinks, RecordContentOk, RowContentOk, WalkRecords, WalkRows;
      SameWalk(c, init);
      var w := WalkRows(c, init);
      RecordChecks(c, r, |rs|, if w.Reached? then w.hash else "");
      assert RecordsOf(rs) == RecordsOf(init) + [RecordOf(r)];
      hide RecordsOf;
      WalkRecordsSnoc(c, RecordsOf(init), RecordOf(r));
      WalkRowsSnoc(c, init, r);
    }
  }

  /** After the same appends, whatever was appended in whatever order, both anchors say
      the same of every tenant: the same verdict, count, place and reason. */
  lemma {:induction false} AnchorsAgree(c: Crypto, prefix: string, adds: seq<Row>, tenant: string, keys: seq<string>)
    requires FreshEntries(adds) && SlashFree(tenant)
    requires Listing(keys, BucketOf(prefix, adds), TenantPrefix(prefix, tenant))
    ensures var q := Query(TableOf(adds), tenant);
      VerdictOf(WalkRecords(c, Fetched(BucketOf(prefix, adds), keys)), |keys|) == VerdictOf(WalkRows(c, q), |q|)
  {
    BothMirror(prefix, adds);
    hide BucketOf, TableOf, WalkRecords, WalkRows, Query, Fetched, RecordsOf, Mirrors, SlashFree;
    ListingIsQuery(prefix, BucketOf(prefix, adds), TableOf(adds), tenant, keys);
    SameWalk(c, Query(TableOf(adds), tenant));
  }

  // ------------------------------------------------------------- tamper evidence

  /** The object is this entry, under a number that Python takes for `n`. */
  ghost predicate HoldsEntry(record: Dict, l: Link, n: int) {
    record - {"seq"} == Stored(l) && SeqIs(record, n)
  }

  /** The objects are the first entries of the chain, numbered from 1. */
  ghost predicate HoldPrefix(rs: seq<Dict>, ls: seq<Link>) {
    |rs| <= |ls| && forall i :: 0 <= i < |rs| ==> HoldsEntry(rs[i], ls[i], i + 1)
  }

  /** The body in the object is the one signed at place `i`. */
  ghost predicate BodySignedAt(record: Dict, ls: seq<Link>, i: nat) {
    i < |ls| && record - {"entry_hash", "seq"} == Body(ls[i].fields, ls[i].prev)
  }

  /** Nobody without the key makes a valid hash, and no entry is filed under another
      tenant: an object whose hash matches holds a body signed for this tenant. */
  ghost predicate UnforgedObjects(c: Crypto, rs: seq<Dict>, ls: seq<Link>) {
    forall r :: r in rs && RecordContentOk(c, r) ==> exists i: nat :: BodySignedAt(r, ls, i)
  }

  lemma {:induction false} NextObjectDetermined(c: Crypto, r: Dict, ls: seq<Link>, n: nat)
    requires c.Sound() && Linked(c, ls, GENESIS) && n <= |ls|
    requires SeqIs(r, n + 1) && RecordContentOk(c, r) && RecordLinks(r, Tip(ls[..n], GENESIS))
    requires exists i: nat :: BodySignedAt(r, ls, i)
    ensures n < |ls| && HoldsEntry(r, ls[n], n + 1) && HashOf(c, r) == ls[n].hash
  {
    var i: nat :| BodySignedAt(r, ls, i);
    LinkedAt(c, ls, i);
    BodyLinks(r, ls[i], Tip(ls[..n], GENESIS));
    HashOfBody(c, ls[i]);
    hide Body, Linked, Crypto.Sound, Signed, SeqIs, RecordLinks, RecordContentOk, Crypto.EntryHash, Tip, Stored;
    PlaceDetermined(c, ls, i, n);
    EntryRestored(c, r, ls[n]);
  }

  lemma {:induction false} BodyLinks(r: Dict, l: Link, prev: string)
    requires r - {"entry_hash", "seq"} == Body(l.fields, l.prev) && RecordLinks(r, prev)
    ensures l.prev == prev
  {
    var b := Body(l.fields, l.prev);
    assert b["prev_hash"] == JStr(l.prev);
    hide Body;
    assert r["prev_hash"] == (r - {"entry_hash", "seq"})["prev_hash"];
  }

  lemma {:induction false} EntryRestored(c: Crypto, r: Dict, l: Link)
    requires r - {"entry_hash", "seq"} == Body(l.fields, l.prev) && RecordContentOk(c, r)
    requires l.hash == c.EntryHash(Body(l.fields, l.prev))
    ensures r - {"seq"} == Stored(l) && HashOf(c, r) == l.hash
  {
    hide Body, Crypto.EntryHash;
    assert r - {"seq"} == (r - {"entry_hash", "seq"})["entry_hash" := r["entry_hash"]];
  }

  /** The checks an honest object passes. */
  lemma {:induction false} EntryChecks(c: Crypto, r: Dict, l: Link, n: int)
    requires HoldsEntry(r, l, n) && Signed(c, l)
    ensures RecordLinks(r, l.prev) && RecordContentOk(c, r) && HashOf(c, r) == l.hash
  {
    StoredParts(c, l);
    hide Signed, SeqIs, Crypto.EntryHash, ContentOk, Stored;
    var s := Stored(l);
    assert "entry_hash" in s && "prev_hash" in s by { StoredKeys(l); }
    assert r["prev_hash"] == (r - {"seq"})["prev_hash"] && r["entry_hash"] == (r - {"seq"})["entry_hash"];
    assert r - {"entry_hash", "seq"} == r - {"seq"} - {"entry_hash"};
    HashOfBody(c, l);
  }

  lemma {:induction false} StoredKeys(l: Link)
    ensures "entry_hash" in Stored(l) && "prev_hash" in Stored(l)
  {
  }

  lemma {:induction false} HashOfBody(c: Crypto, l: Link)
    requires Signed(c, l)
    ensures l.hash == c.EntryHash(Body(l.fields, l.prev))
  {
    hide Body;
  }

  lemma {:induction false} WalkedObjectsHonest(c: Crypto, rs: seq<Dict>, ls: seq<Link>)
    requires c.Sound() && Linked(c, ls, GENESIS) && UnforgedObjects(c, rs, ls)
    requires WalkRecords(c, rs).Reached?
    ensures HoldPrefix(rs, ls) && WalkRecords(c, rs).hash == Tip(ls[..|rs|], GENESIS)
    decreases |rs|
  {
    if rs == [] { return; }
    var init, r := rs[..|rs| - 1], rs[|rs| - 1];
    assert rs == init + [r];
    ObjectParts(c, rs, init, r, ls);
    hide Linked, Crypto.Sound, UnforgedObjects, SeqIs, RecordLinks, RecordContentOk, WalkRecords, HoldsEntry, HoldPrefix, BodySignedAt, Tip;
    WalkRecordsSnoc(c, init, r);
    WalkedObjectsHonest(c, init, ls);
    PrefixLength(init, ls);
    NextObjectDetermined(c, r, ls, |init|);
    ExtendPrefix(init, r, ls);
  }

  lemma {:induction false} PrefixLength(rs: seq<Dict>, ls: seq<Link>)
    requires HoldPrefix(rs, ls)
    ensures |rs| <= |ls|
  {
  }

  lemma {:induction false} ExtendPrefix(init: seq<Dict>, r: Dict, ls: seq<Link>)
    requires HoldPrefix(init, ls) && |init| < |ls| && HoldsEntry(r, ls[|init|], |init| + 1)
    ensures HoldPrefix(init + [r], ls) && Tip(ls[..|init| + 1], GENESIS) == ls[|init|].hash
  {
    hide HoldsEntry;
  }

  lemma {:induction false} ObjectParts(c: Crypto, rs: seq<Dict>, init: seq<Dict>, r: Dict, ls: seq<Link>)
    requires UnforgedObjects(c, rs, ls) && rs == init + [r]
    ensures UnforgedObjects(c, init, ls)
    ensures RecordContentOk(c, r) ==> exists i: nat :: BodySignedAt(r, ls, i)
  {
    hide RecordContentOk, BodySignedAt;
    assert r in rs;
  }

  lemma {:induction false} HonestObjectsWalk(c: Crypto, rs: seq<Dict>, ls: seq<Link>)
    requires Linked(c, ls, GENESIS) && HoldPrefix(rs, ls)
    ensures WalkRecords(c, rs) == Reached(Tip(ls[..|rs|], GENESIS))
    decreases |rs|
  {
    hide Linked, Signed, SeqIs, RecordLinks, RecordContentOk, WalkRecords, HoldsEntry, HoldPrefix, Tip, Crypto.EntryHash;
    if rs == [] {
      EmptyWalk(c, ls);
      assert rs == [];
    } else {
      PrefixLength(rs, ls);
      var init, r, l := rs[..|rs| - 1], rs[|rs| - 1], ls[|rs| - 1];
      PrefixParts(c, rs, ls);
      HonestObjectsWalk(c, init, ls);
      EntryChecks(c, r, l, |rs|);
      WalkRecordsSnoc(c, init, r);
      assert rs == init + [r];
    }
  }

  lemma {:induction false} EmptyWalk(c: Crypto, ls: seq<Link>)
    ensures WalkRecords(c, []) == Reached(Tip(ls[..0], GENESIS))
  {
  }

  lemma {:induction false} PrefixParts(c: Crypto, rs: seq<Dict>, ls: seq<Link>)
    requires Linked(c, ls, GENESIS) && HoldPrefix(rs, ls) && rs != []
    ensures var n := |rs| - 1;
      && HoldPrefix(rs[..n], ls) && HoldsEntry(rs[n], ls[n], |rs|) && SeqIs(rs[n], |rs|)
      && Signed(c, ls[n]) && ls[n].prev == Tip(ls[..n], GENESIS)
      && Tip(ls[..|rs|], GENESIS) == ls[n].hash
  {
    hide Signed, SeqIs, Stored;
  }

  /** For any bucket: the anchor accepts a tenant exactly when its objects, in key
      order, are a prefix of what was logged for that tenant. */
  lemma {:induction false} S3TamperEvidence(c: Crypto, objects: Bucket, under: string, keys: seq<string>, ls: seq<Link>)
    requires c.Sound() && Linked(c, ls, GENESIS) && Listing(keys, objects, under)
    requires UnforgedObjects(c, Fetched(objects, keys), ls)
    ensures VerdictOf(WalkRecords(c, Fetched(objects, keys)), |keys|).Accepted? <==> HoldPrefix(Fetched(objects, keys), ls)
  {
    var rs := Fetched(objects, keys);
    hide HoldPrefix, WalkRecords, UnforgedObjects, Linked, Crypto.Sound;
    if WalkRecords(c, rs).Reached? {
      WalkedObjectsHonest(c, rs, ls);
    }
    if HoldPrefix(rs, ls) {
      HonestObjectsWalk(c, rs, ls);
    }
  }

  /** On failure, the objects before the first bad one are what was logged. */
  lemma {:induction false} ObjectsBeforeFirstBad(c: Crypto, rs: seq<Dict>, ls: seq<Link>)
    requires c.Sound() && Linked(c, ls, GENESIS) && UnforgedObjects(c, rs, ls) && WalkRecords(c, rs).Stopped?
    ensures WalkRecords(c, rs).index < |rs| && HoldPrefix(rs[..WalkRecords(c, rs).index], ls)
    decreases |rs|
  {
    var init, r := rs[..|rs| - 1], rs[|rs| - 1];
    assert rs == init + [r];
    ObjectParts(c, rs, init, r, ls);
    hide HoldPrefix, UnforgedObjects, Linked, Crypto.Sound, WalkRecords;
    WalkRecordsSnoc(c, init, r);
    if WalkRecords(c, init).Stopped? {
      ObjectsBeforeFirstBad(c, init, ls);
      assert init[..WalkRecords(c, rs).index] == rs[..WalkRecords(c, rs).index];
    } else {
      WalkedObjectsHonest(c, init, ls);
    }
  }

  // ------------------------------------------------------------------- logged runs

  /** The entry and number handed over when `e` is logged after `es`. */
  function HandedRow(c: Crypto, es: seq<Event>, e: Event): Row {
    RowOf(NextLink(c, After(c, es), e), NextNumber(After(c, es), e))
  }

  /** What a run of the logger hands to its anchor. */
  function Handed(c: Crypto, es: seq<Event>): (rs: seq<Row>)
    ensures |rs| == |es|
  {
    if es == [] then []
    else Handed(c, es[..|es| - 1]) + [HandedRow(c, es[..|es| - 1], es[|es| - 1])]
  }

  lemma {:induction false} HandedIsMirrored(c: Crypto, es: seq<Event>)
    ensures TableOf(Handed(c, es)) == Mirrored(c, es)
    decreases |es|
  {
    if es != [] {
      hide Added, NextLink, NextNumber, After, RowOf;
      HandedIsMirrored(c, es[..|es| - 1]);
      assert Handed(c, es)[..|es| - 1] == Handed(c, es[..|es| - 1]);
    }
  }

  lemma {:induction false} ChainLength(c: Crypto, es: seq<Event>, tenant: string)
    ensures |Chain(c, es, tenant)| <= |es|
    decreases |es|
  {
    hide Sign;
    if es != [] {
      ChainLength(c, es[..|es| - 1], tenant);
    }
  }

  lemma {:induction false} HandedFresh(c: Crypto, es: seq<Event>)
    requires c.Sound() && DistinctIds(es) && |es| < Pow10(20)
    requires forall e :: e in es ==> SlashFree(e.fields.tenantId)
    ensures FreshEntries(Handed(c, es))
  {
    hide SlashFree, Pow10, Fileable, Crypto.Sound, Handed, HandedRow;
    forall i | 0 <= i < |es| ensures Handed(c, es)[i].fields == es[i].fields && Fileable(Handed(c, es)[i]) {
      HandedAt(c, es, i);
      HandedFileable(c, es[..i], es[i]);
    }
  }

  lemma {:induction false} HandedAt(c: Crypto, es: seq<Event>, i: nat)
    requires i < |es|
    ensures Handed(c, es)[i] == HandedRow(c, es[..i], es[i])
    decreases |es|
  {
    hide HandedRow;
    if i < |es| - 1 {
      HandedAt(c, es[..|es| - 1], i);
      assert es[..|es| - 1][..i] == es[..i];
    }
  }

  lemma {:induction false} HandedFileable(c: Crypto, es: seq<Event>, e: Event)
    requires c.Sound() && |es| + 1 < Pow10(20) && SlashFree(e.fields.tenantId)
    ensures HandedRow(c, es, e).fields == e.fields && Fileable(HandedRow(c, es, e))
  {
    hide Crypto.Sound, Sign, NextLink, NextNumber, After, RowOf, SlashFree, Chain, Pow10;
    NextRow(c, es, e);
    ChainLength(c, es, e.fields.tenantId);
  }

  /** A logged run is accepted by the S3 anchor too, with the exact count. */
  lemma {:induction false} S3RunVerifies(c: Crypto, es: seq<Event>, prefix: string, tenant: string, keys: seq<string>)
    requires c.Sound() && DistinctIds(es) && |es| < Pow10(20)
    requires SlashFree(tenant) && forall e :: e in es ==> SlashFree(e.fields.tenantId)
    requires Listing(keys, BucketOf(prefix, Handed(c, es)), TenantPrefix(prefix, tenant))
    ensures VerdictOf(WalkRecords(c, Fetched(BucketOf(prefix, Handed(c, es)), keys)), |keys|) == Accepted(|Chain(c, es, tenant)|)
  {
    hide Crypto.Sound, DistinctIds, FreshEntries, WalkRecords, WalkRows, Query, BucketOf, Fetched, Chain, Mirrored, Handed, Pow10, SlashFree;
    HandedFresh(c, es);
    AnchorsAgree(c, prefix, Handed(c, es), tenant, keys);
    HandedIsMirrored(c, es);
    MirrorVerifies(c, es, tenant);
  }
}
