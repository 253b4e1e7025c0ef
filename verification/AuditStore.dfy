/** The durable SQL mirror of the audit chain and what its verifier accepts. */
module AuditStore {
  import opened AuditChain

  datatype Row = Row(fields: Fields, seqNo: int, prev: string, hash: string)

  function RowOf(l: Link, seqNo: int): Row {
    Row(l.fields, seqNo, l.prev, l.hash)
  }

  /** The mirror of a chain: its entries numbered from 1. */
  function RowsOf(ls: seq<Link>): (rs: seq<Row>)
    ensures |rs| == |ls| && forall i :: 0 <= i < |rs| ==> rs[i] == RowOf(ls[i], i + 1)
  {
    if ls == [] then []
    else RowsOf(ls[..|ls| - 1]) + [RowOf(ls[|ls| - 1], |ls|)]
  }

  // ------------------------------------------------------------------- the query

  function InsertRow(r: Row, rs: seq<Row>): seq<Row> {
    if rs == [] || r.seqNo <= rs[0].seqNo then [r] + rs else [rs[0]] + InsertRow(r, rs[1..])
  }

  /** `filter(tenant_id == tenant).order_by(seq)`. */
  function Query(table: seq<Row>, tenant: string): seq<Row> {
    if table == [] then []
    else
      var rest := Query(table[..|table| - 1], tenant);
      var r := table[|table| - 1];
      if r.fields.tenantId == tenant then InsertRow(r, rest) else rest
  }

  lemma {:induction false} InsertMembers(r: Row, rs: seq<Row>)
    ensures forall x :: x in InsertRow(r, rs) <==> x == r || x in rs
    ensures |InsertRow(r, rs)| == |rs| + 1
    decreases |rs|
  {
    if rs == [] || r.seqNo <= rs[0].seqNo {
    } else {
      InsertMembers(r, rs[1..]);
    }
  }

  lemma {:induction false} InsertLast(r: Row, rs: seq<Row>)
    requires forall x :: x in rs ==> x.seqNo < r.seqNo
    ensures InsertRow(r, rs) == rs + [r]
    decreases |rs|
  {
    if rs != [] {
      assert rs[0] in rs;
      InsertLast(r, rs[1..]);
    }
  }

  ghost predicate Ordered(rs: seq<Row>) {
    forall i, j :: 0 <= i < j < |rs| ==> rs[i].seqNo <= rs[j].seqNo
  }

  /** The query returns rows in order of their numbers. */
  lemma {:induction false} QuerySorts(table: seq<Row>, tenant: string)
    ensures Ordered(Query(table, tenant))
    decreases |table|
  {
    if table != [] {
      hide Ordered, InsertRow;
      var init := table[..|table| - 1];
      QuerySorts(init, tenant);
      InsertOrdered(table[|table| - 1], Query(init, tenant));
    } else {
      hide InsertRow;
    }
  }

  /** It returns each of the tenant's rows as often as it is stored, and no other. */
  lemma {:induction false} QueryBag(table: seq<Row>, tenant: string, r: Row)
    ensures multiset(Query(table, tenant))[r] == if r.fields.tenantId == tenant then multiset(table)[r] else 0
    decreases |table|
  {
    if table != [] {
      hide InsertRow;
      var init, last := table[..|table| - 1], table[|table| - 1];
      QueryBag(init, tenant, r);
      InsertBag(last, Query(init, tenant));
      assert table == init + [last];
    }
  }

  lemma {:induction false} InsertOrdered(r: Row, rs: seq<Row>)
    requires Ordered(rs)
    ensures Ordered(InsertRow(r, rs))
    decreases |rs|
  {
    if rs != [] && rs[0].seqNo < r.seqNo {
      InsertOrdered(r, rs[1..]);
      var q := InsertRow(r, rs[1..]);
      assert q[0] == r || q[0] == rs[1];
    }
  }

  lemma {:induction false} InsertBag(r: Row, rs: seq<Row>)
    ensures multiset(InsertRow(r, rs)) == multiset(rs) + multiset{r}
    decreases |rs|
  {
    if rs != [] && rs[0].seqNo < r.seqNo {
      InsertBag(r, rs[1..]);
      assert rs == [rs[0]] + rs[1..];
    }
  }

  lemma {:induction false} QueryMembers(table: seq<Row>, tenant: string)
    ensures forall r :: r in Query(table, tenant) <==> r in table && r.fields.tenantId == tenant
    decreases |table|
  {
    if table != [] {
      var n := |table| - 1;
      QueryMembers(table[..n], tenant);
      InsertMembers(table[n], Query(table[..n], tenant));
      assert table == table[..n] + [table[n]];
    }
  }

  // ------------------------------------------------------------------- the verifier

  predicate RowContentOk(c: Crypto, r: Row) {
    c.EntryHash(Body(r.fields, r.prev)) == r.hash
  }

  function WalkRows(c: Crypto, rs: seq<Row>): Walked {
    if rs == [] then Reached(GENESIS)
    else
      var n := |rs| - 1;
      var w := WalkRows(c, rs[..n]);
      if w.Stopped? then w
      else if rs[n].seqNo != n + 1 then Stopped(n, SeqGap)
      else if rs[n].prev != w.hash then Stopped(n, PrevMismatch)
      else if !RowContentOk(c, rs[n]) then Stopped(n, HashMismatch)
      else Reached(rs[n].hash)
  }

  lemma {:induction false} WalkRowsSnoc(c: Crypto, rs: seq<Row>, r: Row)
    ensures var w := WalkRows(c, rs);
      WalkRows(c, rs + [r]) ==
        if w.Stopped? then w
        else if r.seqNo != |rs| + 1 then Stopped(|rs|, SeqGap)
        else if r.prev != w.hash then Stopped(|rs|, PrevMismatch)
        else if !RowContentOk(c, r) then Stopped(|rs|, HashMismatch)
        else Reached(r.hash)
  {
    assert (rs + [r])[..|rs|] == rs;
  }

  lemma {:induction false} RowsOfSnoc(ls: seq<Link>, l: Link)
    ensures RowsOf(ls + [l]) == RowsOf(ls) + [RowOf(l, |ls| + 1)]
  {
    assert (ls + [l])[..|ls|] == ls;
  }

  function VerdictOf(w: Walked, entries: nat): Verdict {
    if w.Stopped? then Rejected(entries, w.index, w.error) else Accepted(entries)
  }

  class DurableAuditStore {
    const crypto: Crypto
    var rows: seq<Row>

    constructor (crypto: Crypto)
      ensures this.crypto == crypto && rows == []
    {
      this.crypto := crypto;
      rows := [];
    }

    /** Add a row; a clash with the primary key or the (tenant, seq) constraint is
        swallowed, as every database error is. */
    method Append(l: Link, seqNo: int)
      modifies this
      ensures rows == Added(old(rows), RowOf(l, seqNo))
      ensures rows == if exists r :: r in old(rows) && (r.fields.id == l.fields.id || (r.fields.tenantId == l.fields.tenantId && r.seqNo == seqNo))
        then old(rows) else old(rows) + [Row(l.fields, seqNo, l.prev, l.hash)]
    {
      var r := RowOf(l, seqNo);
      var clash := false;
      for i := 0 to |rows|
        invariant rows == old(rows)
        invariant clash <==> exists k :: 0 <= k < i && Clash(rows[k], r)
      {
        if Clash(rows[i], r) { clash := true; }
      }
      if !clash { rows := rows + [r]; }
    }

    method VerifyChain(tenant: string) returns (v: Verdict)
      ensures v == VerdictOf(WalkRows(crypto, Query(rows, tenant)), |Query(rows, tenant)|)
    {
      var found := Query(rows, tenant);
      var prev := GENESIS;
      var expectedSeq := 1;
      for i := 0 to |found|
        invariant expectedSeq == i + 1
        invariant WalkRows(crypto, found[..i]) == Reached(prev)
      {
        var row := found[i];
        assert found[..i + 1][..i] == found[..i];
        if row.seqNo != expectedSeq || row.prev != prev || crypto.EntryHash(Body(row.fields, row.prev)) != row.hash {
          RowsStop(crypto, found, i + 1);
        }
        if row.seqNo != expectedSeq { return Rejected(|found|, i, SeqGap); }
        if row.prev != prev { return Rejected(|found|, i, PrevMismatch); }
        if crypto.EntryHash(Body(row.fields, row.prev)) != row.hash { return Rejected(|found|, i, HashMismatch); }
        prev := row.hash;
        expectedSeq := expectedSeq + 1;
      }
      assert found[..|found|] == found;
      return Accepted(|found|);
    }
  }

  predicate Clash(a: Row, b: Row) {
    a.fields.id == b.fields.id || (a.fields.tenantId == b.fields.tenantId && a.seqNo == b.seqNo)
  }

  predicate Clashes(rows: seq<Row>, r: Row) {
    exists k :: 0 <= k < |rows| && Clash(rows[k], r)
  }

  function Added(rows: seq<Row>, r: Row): seq<Row> {
    if Clashes(rows, r) then rows else rows + [r]
  }

  /** Row `i` carries the next number, the hash of the row before it and its own. */
  ghost predicate GoodRow(c: Crypto, rs: seq<Row>, i: nat)
    requires i < |rs|
  {
    && rs[i].seqNo == i + 1 && rs[i].prev == (if i == 0 then "genesis" else rs[i - 1].hash)
    && rs[i].hash == c.mac(c.canonical(Body(rs[i].fields, rs[i].prev)))
  }

  ghost predicate FaultyRow(c: Crypto, rs: seq<Row>, i: nat, error: Error)
    requires i < |rs|
  {
    var before := if i == 0 then "genesis" else rs[i - 1].hash;
    match error
    case SeqGap => rs[i].seqNo != i + 1
    case PrevMismatch => rs[i].seqNo == i + 1 && rs[i].prev != before
    case HashMismatch => rs[i].seqNo == i + 1 && rs[i].prev == before && rs[i].hash != c.mac(c.canonical(Body(rs[i].fields, rs[i].prev)))
    case _ => false
  }

  /** The answer for any rows: accepted exactly when every row is good; and otherwise the
      first bad row, with the first thing wrong with it. */
  lemma {:induction false} RowsVerdictExactly(c: Crypto, rs: seq<Row>)
    ensures var v := VerdictOf(WalkRows(c, rs), |rs|);
      && v.entries == |rs|
      && (v.Accepted? <==> forall i :: 0 <= i < |rs| ==> GoodRow(c, rs, i))
      && (v.Rejected? ==>
            && v.firstBad < |rs| && (forall i :: 0 <= i < v.firstBad ==> GoodRow(c, rs, i))
            && FaultyRow(c, rs, v.firstBad, v.error))
    decreases |rs|
  {
    if rs != [] {
      var init, r := rs[..|rs| - 1], rs[|rs| - 1];
      assert rs == init + [r];
      WalkRowsSnoc(c, init, r);
      RowsVerdictExactly(c, init);
      if WalkRows(c, init).Reached? { WalkedHash(c, init); }
      hide WalkRows, Body;
      assert forall i :: 0 <= i < |init| ==> GoodRow(c, rs, i) == GoodRow(c, init, i);
      assert (forall i :: 0 <= i < |rs| ==> GoodRow(c, rs, i)) <==>
        (forall i :: 0 <= i < |init| ==> GoodRow(c, init, i)) && GoodRow(c, rs, |init|);
    }
  }

  lemma {:induction false} WalkedHash(c: Crypto, rs: seq<Row>)
    requires WalkRows(c, rs).Reached?
    ensures WalkRows(c, rs).hash == if rs == [] then GENESIS else rs[|rs| - 1].hash
  {
  }

  lemma {:induction false} RowsStop(c: Crypto, rs: seq<Row>, n: nat)
    requires n <= |rs| && WalkRows(c, rs[..n]).Stopped?
    ensures WalkRows(c, rs) == WalkRows(c, rs[..n])
    decreases |rs|
  {
    if n < |rs| {
      var m := |rs| - 1;
      assert rs[..m][..n] == rs[..n];
      RowsStop(c, rs[..m], n);
    } else {
      assert rs[..n] == rs;
    }
  }

  // ---------------------------------------------------------------- tamper evidence

  /** What the logger signed for each tenant: one chain from the sentinel. */
  ghost predicate HonestChains(c: Crypto, chains: string -> seq<Link>) {
    forall t ::
      && Linked(c, chains(t), GENESIS)
      && forall i :: 0 <= i < |chains(t)| ==> chains(t)[i].fields.tenantId == t
  }

  /** The row carries a body the logger signed at place `i` of tenant `t`'s chain. */
  ghost predicate SignedAt(r: Row, chains: string -> seq<Link>, t: string, i: nat) {
    i < |chains(t)| && r.fields == chains(t)[i].fields && r.prev == chains(t)[i].prev
  }

  /** Nobody without the key makes a valid hash: a row whose hash matches its content
      carries a body the logger signed. */
  ghost predicate Unforged(c: Crypto, table: seq<Row>, chains: string -> seq<Link>) {
    forall r :: r in table && RowContentOk(c, r) ==> exists t, i: nat :: SignedAt(r, chains, t, i)
  }

  lemma {:induction false} LinkedAt(c: Crypto, ls: seq<Link>, i: nat)
    requires Linked(c, ls, GENESIS) && i < |ls|
    ensures Signed(c, ls[i]) && ls[i].prev == if i == 0 then GENESIS else ls[i - 1].hash
  {
    hide Signed;
    assert ls[i].prev == Tip(ls[..i], GENESIS);
  }

  lemma {:induction false} SignedNotGenesis(c: Crypto, l: Link)
    requires c.Sound() && Signed(c, l)
    ensures l.hash != GENESIS
  {
    hide Body;
  }

  /** Entries name distinct predecessors: an entry that names the tip of the first `n`
      stands at place `n`. */
  lemma {:induction false} PlaceDetermined(c: Crypto, ls: seq<Link>, i: nat, n: nat)
    requires c.Sound() && Linked(c, ls, GENESIS) && i < |ls| && n <= |ls|
    requires ls[i].prev == Tip(ls[..n], GENESIS)
    ensures i == n
  {
    hide Linked, Signed, Crypto.Sound;
    LinkedAt(c, ls, i);
    if n > 0 {
      LinkedAt(c, ls, n - 1);
      SignedNotGenesis(c, ls[n - 1]);
    }
    if i > 0 {
      LinkedAt(c, ls, i - 1);
      SignedNotGenesis(c, ls[i - 1]);
    }
    if 0 < i < n {
      HashesDistinct(c, ls, i - 1, n - 1);
    } else if 0 < n < i {
      HashesDistinct(c, ls, n - 1, i - 1);
    }
  }

  /** A valid row that links to the tip of the chain's first `n` entries is the next
      entry. */
  lemma {:induction false} NextRowDetermined(c: Crypto, r: Row, chains: string -> seq<Link>, n: nat)
    requires c.Sound() && HonestChains(c, chains) && RowContentOk(c, r)
    requires exists t, i: nat :: SignedAt(r, chains, t, i)
    requires n <= |chains(r.fields.tenantId)| && r.prev == Tip(chains(r.fields.tenantId)[..n], GENESIS)
    ensures n < |chains(r.fields.tenantId)| && r == RowOf(chains(r.fields.tenantId)[n], r.seqNo)
  {
    var t, i: nat :| SignedAt(r, chains, t, i);
    var ls := chains(t);
    assert Linked(c, ls, GENESIS) && ls[i].fields.tenantId == t;
    assert Signed(c, ls[i]) by { hide Signed, Body; }
    hide Linked, HonestChains, Body, Crypto.Sound;
    PlaceDetermined(c, ls, i, n);
  }

  lemma {:induction false} UnforgedParts(c: Crypto, rs: seq<Row>, init: seq<Row>, r: Row, chains: string -> seq<Link>)
    requires Unforged(c, rs, chains) && rs == init + [r]
    ensures Unforged(c, init, chains)
    ensures RowContentOk(c, r) ==> exists t, i: nat :: SignedAt(r, chains, t, i)
  {
    hide RowContentOk, SignedAt;
    assert r in rs;
  }

  lemma {:induction false} WalkedRowsHonest(c: Crypto, rs: seq<Row>, tenant: string, chains: string -> seq<Link>)
    requires c.Sound() && HonestChains(c, chains) && Unforged(c, rs, chains)
    requires forall r :: r in rs ==> r.fields.tenantId == tenant
    requires WalkRows(c, rs).Reached?
    ensures |rs| <= |chains(tenant)| && rs == RowsOf(chains(tenant)[..|rs|])
    ensures WalkRows(c, rs).hash == Tip(chains(tenant)[..|rs|], GENESIS)
    decreases |rs|
  {
    if rs != [] {
      var init, r := rs[..|rs| - 1], rs[|rs| - 1];
      assert rs == init + [r];
      InitOf(rs, init, r);
      UnforgedParts(c, rs, init, r, chains);
      hide HonestChains, Unforged, Linked, Body, Crypto.Sound, RowContentOk, RowsOf, WalkRows, SignedAt;
      WalkRowsSnoc(c, init, r);
      WalkedRowsHonest(c, init, tenant, chains);
      NextRowDetermined(c, r, chains, |init|);
      ExtendRows(c, init, r, chains(tenant));
    }
  }

  lemma {:induction false} InitOf<T>(xs: seq<T>, init: seq<T>, x: T)
    requires xs == init + [x]
    ensures x in xs && forall y :: y in init ==> y in xs
  {
  }

  lemma {:induction false} ExtendRows(c: Crypto, init: seq<Row>, r: Row, ls: seq<Link>)
    requires |init| < |ls| && init == RowsOf(ls[..|init|])
    requires WalkRows(c, init + [r]).Reached? && r == RowOf(ls[|init|], r.seqNo)
    ensures init + [r] == RowsOf(ls[..|init| + 1])
    ensures WalkRows(c, init + [r]).hash == Tip(ls[..|init| + 1], GENESIS)
  {
    hide RowsOf, WalkRows, RowContentOk;
    var n := |init|;
    WalkRowsSnoc(c, init, r);
    assert ls[..n + 1] == ls[..n] + [ls[n]];
    RowsOfSnoc(ls[..n], ls[n]);
  }

  lemma {:induction false} HonestRowsWalk(c: Crypto, ls: seq<Link>)
    requires Linked(c, ls, GENESIS)
    ensures WalkRows(c, RowsOf(ls)) == Reached(Tip(ls, GENESIS))
    decreases |ls|
  {
    if ls != [] {
      var init, l := ls[..|ls| - 1], ls[|ls| - 1];
      assert ls == init + [l];
      LinkedSnoc(c, init, l, GENESIS);
      assert RowContentOk(c, RowOf(l, |ls|)) by { hide Linked, Body, RowsOf, WalkRows; }
      hide Linked, Body, RowsOf, WalkRows, RowContentOk;
      HonestRowsWalk(c, init);
      RowsOfSnoc(init, l);
      WalkRowsSnoc(c, RowsOf(init), RowOf(l, |ls|));
    }
  }

  /** For any table, however edited, reordered, thinned out or padded: if nobody forged
      a signature, the tenant's chain is accepted exactly when its rows are a numbered
      prefix of what was logged. */
  lemma {:induction false} DurableTamperEvidence(c: Crypto, table: seq<Row>, tenant: string, chains: string -> seq<Link>)
    requires c.Sound() && HonestChains(c, chains) && Unforged(c, table, chains)
    ensures var q, ls := Query(table, tenant), chains(tenant);
      && (VerdictOf(WalkRows(c, q), |q|).Accepted? <==> |q| <= |ls| && q == RowsOf(ls[..|q|]))
  {
    var q, ls := Query(table, tenant), chains(tenant);
    QueryMembers(table, tenant);
    assert Unforged(c, q, chains);
    if WalkRows(c, q).Reached? {
      WalkedRowsHonest(c, q, tenant, chains);
    }
    if |q| <= |ls| && q == RowsOf(ls[..|q|]) {
      assert Linked(c, ls, GENESIS);
      LinkedPrefix(c, ls, |q|, GENESIS);
      HonestRowsWalk(c, ls[..|q|]);
    }
  }

  /** Where it is rejected, everything before the first bad row is what was logged. */
  lemma {:induction false} RowsBeforeFirstBad(c: Crypto, table: seq<Row>, tenant: string, chains: string -> seq<Link>)
    requires c.Sound() && HonestChains(c, chains) && Unforged(c, table, chains)
    requires WalkRows(c, Query(table, tenant)).Stopped?
    ensures var q, b := Query(table, tenant), WalkRows(c, Query(table, tenant)).index;
      b < |q| && b <= |chains(tenant)| && q[..b] == RowsOf(chains(tenant)[..b])
  {
    var q := Query(table, tenant);
    QueryMembers(table, tenant);
    StoppedAfterGood(c, q);
    var good := q[..WalkRows(c, q).index];
    assert forall r :: r in good ==> r in q;
    assert Unforged(c, good, chains);
    WalkedRowsHonest(c, good, tenant, chains);
  }

  lemma {:induction false} StoppedAfterGood(c: Crypto, rs: seq<Row>)
    requires WalkRows(c, rs).Stopped?
    ensures WalkRows(c, rs).index < |rs| && WalkRows(c, rs[..WalkRows(c, rs).index]).Reached?
    decreases |rs|
  {
    var n := |rs| - 1;
    if WalkRows(c, rs[..n]).Stopped? {
      StoppedAfterGood(c, rs[..n]);
      assert rs[..n][..WalkRows(c, rs).index] == rs[..WalkRows(c, rs).index];
    }
  }

  lemma {:induction false} LinkedPrefix(c: Crypto, ls: seq<Link>, n: nat, start: string)
    requires Linked(c, ls, start) && n <= |ls|
    ensures Linked(c, ls[..n], start)
  {
    assert forall i :: 0 <= i < n ==> ls[..n][i] == ls[i] && ls[..n][..i] == ls[..i];
  }
}
