/** A signature and a canonical form that meet what the audit modules assume of them, so
    that the assumption can be met. */
module AuditCrypto {
  import opened Text
  import opened AuditChain

  /** A text that shows where it ends: no encoding begins another. */
  function EncodeText(s: string): string {
    if s == "" then "." else ['+', s[0]] + EncodeText(s[1..])
  }

  function EncodeInt(n: int): string {
    EncodeText(IntText(n))
  }

  /** JSON as self-delimiting text; an object's fields come in an order that depends on
      the object alone. */
  ghost function Encode(j: Json): string
    decreases j, 1, 0
  {
    match j
    case JNull => "n"
    case JBool(b) => if b then "t" else "f"
    case JInt(n) => ['i'] + EncodeInt(n)
    case JFloat(num, den) => ['r'] + (EncodeInt(num) + EncodeInt(den))
    case JStr(s) => ['s'] + EncodeText(s)
    case JArr(_) => ['a'] + EncodeItems(j, 0)
    case JObj(fields) => ['o'] + EncodeFields(j, fields)
  }

  ghost function EncodeItems(j: Json, i: nat): string
    requires j.JArr? && i <= |j.items|
    decreases j, 0, |j.items| - i
  {
    if i == |j.items| then "." else ['+'] + (Encode(j.items[i]) + EncodeItems(j, i + 1))
  }

  /** Some of an object's fields. */
  ghost predicate FieldsOf(j: Json, d: Dict) {
    j.JObj? && forall k :: k in d ==> k in j.fields && j.fields[k] == d[k]
  }

  ghost function EncodeFields(j: Json, d: Dict): string
    requires FieldsOf(j, d)
    decreases j, 0, |d|
  {
    if d == map[] then "."
    else
      assert d.Keys != {};
      var k := AnyKey(d);
      ['+'] + (EncodeText(k) + (Encode(j.fields[k]) + EncodeFields(j, d - {k})))
  }

  ghost function AnyKey(d: Dict): (k: string)
    requires d != map[]
    ensures k in d
  {
    assert d.Keys != {};
    var k :| k in d;
    k
  }

  // ------------------------------------------------------------------ no collisions

  lemma {:induction false} TextEnds(a: string, x: string, b: string, y: string)
    requires EncodeText(a) + x == EncodeText(b) + y
    ensures a == b && x == y
    decreases |a|
  {
    var s, t := EncodeText(a) + x, EncodeText(b) + y;
    assert s[0] == t[0];
    if a == "" || b == "" {
      assert a == b;
      assert s[1..] == x && t[1..] == y;
    } else {
      assert s[1] == t[1];
      assert s[2..] == EncodeText(a[1..]) + x && t[2..] == EncodeText(b[1..]) + y;
      TextEnds(a[1..], x, b[1..], y);
      assert a == [a[0]] + a[1..] && b == [b[0]] + b[1..];
    }
  }

  lemma {:induction false} IntEnds(a: int, x: string, b: int, y: string)
    requires EncodeInt(a) + x == EncodeInt(b) + y
    ensures a == b && x == y
  {
    hide EncodeText;
    TextEnds(IntText(a), x, IntText(b), y);
    IntTextInjective(a, b);
  }

  lemma {:induction false} IntTextInjective(a: int, b: int)
    requires IntText(a) == IntText(b)
    ensures a == b
  {
    hide NatText;
    var s, t := IntText(a), IntText(b);
    assert s[0] == t[0];
    if a < 0 {
      assert s[1..] == NatText(-a) && t[1..] == NatText(-b);
      NumeralRoundTrip(-a);
      NumeralRoundTrip(-b);
    } else {
      NumeralRoundTrip(a);
      NumeralRoundTrip(b);
    }
  }

  /** Behind a common first character. */
  lemma {:induction false} Behind(c: char, a: string, x: string, d: char, b: string, y: string)
    requires ([c] + a) + x == ([d] + b) + y
    ensures c == d && a + x == b + y
  {
    var s, t := ([c] + a) + x, ([d] + b) + y;
    assert s[0] == t[0];
    assert s[1..] == a + x && t[1..] == b + y;
  }

  lemma {:induction false} Regrouped(a: string, b: string, x: string)
    ensures (a + b) + x == a + (b + x)
  {
  }

  lemma {:induction false} EncodingEnds(j: Json, x: string, k: Json, y: string)
    requires Encode(j) + x == Encode(k) + y
    ensures j == k && x == y
    decreases j, 1, 0
  {
    hide EncodeItems, EncodeFields, EncodeInt, EncodeText;
    var a, b := Encode(j), Encode(k);
    assert a == [a[0]] + a[1..] && b == [b[0]] + b[1..];
    Behind(a[0], a[1..], x, b[0], b[1..], y);
    assert "" + x == x && "" + y == y;
    match j
    case JNull =>
    case JBool(_) =>
    case JInt(n) => IntEnds(n, x, k.n, y);
    case JStr(s) => TextEnds(s, x, k.s, y);
    case JFloat(num, den) =>
      Regrouped(EncodeInt(num), EncodeInt(den), x);
      Regrouped(EncodeInt(k.num), EncodeInt(k.den), y);
      IntEnds(num, EncodeInt(den) + x, k.num, EncodeInt(k.den) + y);
      IntEnds(den, x, k.den, y);
    case JArr(items) =>
      ItemsEnd(j, 0, x, k, 0, y);
      assert j.items[0..] == j.items && k.items[0..] == k.items;
    case JObj(fields) => FieldsEnd(j, fields, x, k, k.fields, y);
  }

  lemma {:induction false} ItemsEnd(j: Json, m: nat, x: string, k: Json, n: nat, y: string)
    requires j.JArr? && m <= |j.items| && k.JArr? && n <= |k.items|
    requires EncodeItems(j, m) + x == EncodeItems(k, n) + y
    ensures j.items[m..] == k.items[n..] && x == y
    decreases j, 0, |j.items| - m
  {
    hide Encode;
    var a, b := EncodeItems(j, m), EncodeItems(k, n);
    assert a == [a[0]] + a[1..] && b == [b[0]] + b[1..];
    Behind(a[0], a[1..], x, b[0], b[1..], y);
    assert "" + x == x && "" + y == y;
    if m < |j.items| {
      Regrouped(Encode(j.items[m]), EncodeItems(j, m + 1), x);
      Regrouped(Encode(k.items[n]), EncodeItems(k, n + 1), y);
      EncodingEnds(j.items[m], EncodeItems(j, m + 1) + x, k.items[n], EncodeItems(k, n + 1) + y);
      ItemsEnd(j, m + 1, x, k, n + 1, y);
      assert j.items[m..] == [j.items[m]] + j.items[m + 1..] && k.items[n..] == [k.items[n]] + k.items[n + 1..];
    }
  }

  lemma {:induction false} FieldsEnd(j: Json, d: Dict, x: string, k: Json, e: Dict, y: string)
    requires FieldsOf(j, d) && FieldsOf(k, e)
    requires EncodeFields(j, d) + x == EncodeFields(k, e) + y
    ensures d == e && x == y
    decreases j, 0, |d|
  {
    hide Encode, EncodeText;
    var a, b := EncodeFields(j, d), EncodeFields(k, e);
    assert a == [a[0]] + a[1..] && b == [b[0]] + b[1..];
    Behind(a[0], a[1..], x, b[0], b[1..], y);
    assert "" + x == x && "" + y == y;
    if d != map[] {
      var p, q := AnyKey(d), AnyKey(e);
      var v, w := Encode(j.fields[p]), Encode(k.fields[q]);
      var r, s := EncodeFields(j, d - {p}), EncodeFields(k, e - {q});
      Regrouped(EncodeText(p), v + r, x);
      Regrouped(EncodeText(q), w + s, y);
      TextEnds(p, (v + r) + x, q, (w + s) + y);
      Regrouped(v, r, x);
      Regrouped(w, s, y);
      EncodingEnds(j.fields[p], r + x, k.fields[q], s + y);
      FieldsEnd(j, d - {p}, x, k, e - {q}, y);
      assert d == (d - {p})[p := d[p]] && e == (e - {q})[q := e[q]];
    }
  }

  /** There is a signature and a canonical form without collisions. */
  lemma {:induction false} SoundCryptoExists() returns (c: Crypto)
    ensures c.Sound()
  {
    hide Encode;
    c := Crypto(x => ['h'] + x, d => Encode(JObj(d)));
    forall x, y | c.mac(x) == c.mac(y) ensures x == y {
      assert (['h'] + x)[1..] == x && (['h'] + y)[1..] == y;
    }
    forall d, e | c.canonical(d) == c.canonical(e) ensures d == e {
      assert Encode(JObj(d)) + "" == Encode(JObj(e)) + "";
      EncodingEnds(JObj(d), "", JObj(e), "");
    }
    forall x ensures c.mac(x) != GENESIS && c.mac(x) != "" {
      assert c.mac(x)[0] == 'h' && GENESIS[0] == 'g';
    }
  }
}
