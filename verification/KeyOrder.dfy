/** Object keys: Python's ordering of strings, and zero-padded numerals, which it
    orders as numbers. */
module KeyOrder {
  import opened Text

  predicate LexLess(s: string, t: string) {
    t != "" && (s == "" || s[0] < t[0] || (s[0] == t[0] && LexLess(s[1..], t[1..])))
  }

  ghost predicate Ascending(keys: seq<string>) {
    forall i, j :: 0 <= i < j < |keys| ==> LexLess(keys[i], keys[j])
  }

  lemma {:induction false} LexTotal(s: string, t: string)
    ensures s == t || LexLess(s, t) || LexLess(t, s)
    ensures !(LexLess(s, t) && LexLess(t, s)) && !LexLess(s, s)
  {
    if s != "" && t != "" {
      LexTotal(s[1..], t[1..]);
      assert s == [s[0]] + s[1..] && t == [t[0]] + t[1..];
    }
    if s != "" { LexIrreflexive(s); }
  }

  lemma {:induction false} LexIrreflexive(s: string)
    ensures !LexLess(s, s)
    decreases |s|
  {
    if s != "" { LexIrreflexive(s[1..]); }
  }

  lemma {:induction false} LexTransitive(s: string, t: string, u: string)
    requires LexLess(s, t) && LexLess(t, u)
    ensures LexLess(s, u)
    decreases |s|
  {
    if s != "" && s[0] == t[0] && t[0] == u[0] {
      LexTransitive(s[1..], t[1..], u[1..]);
    }
  }

  // ----------------------------------------------------------------------- sorting

  function InsertKey(k: string, keys: seq<string>): seq<string> {
    if keys == [] || LexLess(k, keys[0]) then [k] + keys else [keys[0]] + InsertKey(k, keys[1..])
  }

  /** `sorted(keys)` */
  function SortKeys(keys: seq<string>): seq<string> {
    if keys == [] then [] else InsertKey(keys[0], SortKeys(keys[1..]))
  }

  ghost predicate NoDuplicates(keys: seq<string>) {
    forall i, j :: 0 <= i < j < |keys| ==> keys[i] != keys[j]
  }

  lemma {:induction false} InsertKeyMembers(k: string, keys: seq<string>)
    ensures forall x :: x in InsertKey(k, keys) <==> x == k || x in keys
    decreases |keys|
  {
    if keys != [] && !LexLess(k, keys[0]) {
      InsertKeyMembers(k, keys[1..]);
      assert keys == [keys[0]] + keys[1..];
    }
  }

  lemma {:induction false} InsertKeyAscends(k: string, keys: seq<string>)
    requires Ascending(keys) && k !in keys
    ensures Ascending(InsertKey(k, keys))
    decreases |keys|
  {
    if keys == [] {
    } else if LexLess(k, keys[0]) {
      forall j | 0 <= j < |keys| ensures LexLess(k, keys[j]) {
        if j > 0 { LexTransitive(k, keys[0], keys[j]); }
      }
    } else {
      LexTotal(k, keys[0]);
      InsertKeyAscends(k, keys[1..]);
      InsertKeyMembers(k, keys[1..]);
      var rest := InsertKey(k, keys[1..]);
      forall j | 0 <= j < |rest| ensures LexLess(keys[0], rest[j]) {
        assert rest[j] in rest;
      }
    }
  }

  lemma {:induction false} SortKeysAscends(keys: seq<string>)
    requires NoDuplicates(keys)
    ensures Ascending(SortKeys(keys))
    ensures forall x :: x in SortKeys(keys) <==> x in keys
    decreases |keys|
  {
    if keys != [] {
      SortKeysAscends(keys[1..]);
      InsertKeyMembers(keys[0], SortKeys(keys[1..]));
      assert keys[0] !in keys[1..];
      InsertKeyAscends(keys[0], SortKeys(keys[1..]));
      assert keys == [keys[0]] + keys[1..];
    }
  }

  /** A set of keys has one ascending listing. */
  lemma {:induction false} AscendingUnique(a: seq<string>, b: seq<string>)
    requires Ascending(a) && Ascending(b) && forall x :: x in a <==> x in b
    ensures a == b
    decreases |a|
  {
    assert (0 < |a| ==> a[0] in a) && (0 < |b| ==> b[0] in b);
    if a != [] {
      FirstIsLeast(a, b[0]);
      FirstIsLeast(b, a[0]);
      LexTotal(a[0], b[0]);
      forall x ensures x in a[1..] <==> x in b[1..] {
        TailMembers(a, x);
        TailMembers(b, x);
      }
      AscendingUnique(a[1..], b[1..]);
      assert a == [a[0]] + a[1..] && b == [b[0]] + b[1..];
    }
  }

  lemma {:induction false} FirstIsLeast(a: seq<string>, x: string)
    requires Ascending(a) && x in a
    ensures x == a[0] || LexLess(a[0], x)
  {
  }

  lemma {:induction false} TailMembers(a: seq<string>, x: string)
    requires Ascending(a) && a != []
    ensures x in a[1..] <==> x in a && x != a[0]
  {
    LexTotal(a[0], a[0]);
    if x in a[1..] {
      var i :| 0 <= i < |a| - 1 && a[1..][i] == x;
      assert LexLess(a[0], a[i + 1]);
    }
  }

  // ---------------------------------------------------------------- padded numerals

  function Pow10(n: nat): (p: nat)
    ensures p > 0
  {
    if n == 0 then 1 else 10 * Pow10(n - 1)
  }

  function Zeros(n: nat): (z: string)
    ensures |z| == n && forall i :: 0 <= i < n ==> z[i] == '0'
  {
    if n == 0 then "" else Zeros(n - 1) + "0"
  }

  function ZeroFilled(t: string, width: nat): string {
    if |t| < width then Zeros(width - |t|) + t else t
  }

  /** `f"{n:020d}"` */
  function Padded(n: int): (s: string)
    ensures n >= 0 ==> forall i :: 0 <= i < |s| ==> IsDigit(s[i])
  {
    if n < 0 then "-" + ZeroFilled(NatText(-n), 19) else ZeroFilled(NatText(n), 20)
  }

  lemma {:induction false} NumeralLength(n: nat, w: nat)
    requires w > 0 && n < Pow10(w)
    ensures |NatText(n)| <= w
    decreases w
  {
    if n >= 10 {
      NumeralLength(n / 10, w - 1);
    }
  }

  lemma {:induction false} ZerosAddNothing(k: nat, s: string)
    requires forall i :: 0 <= i < |s| ==> IsDigit(s[i])
    ensures TextNat(Zeros(k) + s) == TextNat(s)
    decreases k + |s|
  {
    if s != "" {
      ZerosAddNothing(k, s[..|s| - 1]);
      assert (Zeros(k) + s)[..k + |s| - 1] == Zeros(k) + s[..|s| - 1];
    } else if k > 0 {
      ZerosAddNothing(k - 1, "");
      assert Zeros(k) + "" == Zeros(k) && Zeros(k)[..k - 1] == Zeros(k - 1) && Zeros(k - 1) + "" == Zeros(k - 1);
    }
  }

  lemma {:induction false} LexSnoc(a: string, b: string, x: char, y: char)
    requires |a| == |b|
    ensures LexLess(a + [x], b + [y]) <==> LexLess(a, b) || (a == b && x < y)
    decreases |a|
  {
    if a == "" {
      assert [x][1..] == "" && [y][1..] == "";
    } else {
      LexSnoc(a[1..], b[1..], x, y);
      assert (a + [x])[1..] == a[1..] + [x] && (b + [y])[1..] == b[1..] + [y];
      assert a == [a[0]] + a[1..] && b == [b[0]] + b[1..];
    }
  }

  /** Numerals of one length are ordered as strings the way they are as numbers. */
  lemma {:induction false} LexIsNumeric(s: string, t: string)
    requires |s| == |t|
    requires (forall i :: 0 <= i < |s| ==> IsDigit(s[i])) && forall i :: 0 <= i < |t| ==> IsDigit(t[i])
    ensures LexLess(s, t) <==> TextNat(s) < TextNat(t)
    ensures s == t <==> TextNat(s) == TextNat(t)
    decreases |s|
  {
    if s != "" {
      var n := |s| - 1;
      LexIsNumeric(s[..n], t[..n]);
      LexSnoc(s[..n], t[..n], s[n], t[n]);
      assert s == s[..n] + [s[n]] && t == t[..n] + [t[n]];
    }
  }

  lemma {:induction false} PaddedValue(n: nat)
    requires n < Pow10(20)
    ensures |Padded(n)| == 20 && TextNat(Padded(n)) == n
  {
    hide NatText, TextNat, Pow10, Zeros;
    NumeralLength(n, 20);
    NumeralRoundTrip(n);
    ZerosAddNothing(20 - |NatText(n)|, NatText(n));
  }

  /** Up to twenty digits, padded numerals sort as numbers. */
  lemma {:induction false} PaddedOrder(m: nat, n: nat)
    requires m < Pow10(20) && n < Pow10(20)
    ensures LexLess(Padded(m), Padded(n)) <==> m < n
    ensures Padded(m) == Padded(n) <==> m == n
  {
    PaddedValue(m);
    PaddedValue(n);
    LexIsNumeric(Padded(m), Padded(n));
  }

  lemma {:induction false} LexSamePrefix(p: string, s: string, t: string)
    ensures LexLess(p + s, p + t) <==> LexLess(s, t)
    decreases |p|
  {
    if p == "" {
      assert p + s == s && p + t == t;
    } else {
      LexSamePrefix(p[1..], s, t);
      assert (p + s)[1..] == p[1..] + s && (p + t)[1..] == p[1..] + t;
    }
  }

  lemma {:induction false} LexSameSuffix(s: string, t: string, u: string)
    requires |s| == |t|
    ensures LexLess(s + u, t + u) <==> LexLess(s, t)
    decreases |s|
  {
    if s == "" {
      LexIrreflexive(u);
      assert s + u == u && t + u == u;
    } else {
      LexSameSuffix(s[1..], t[1..], u);
      assert (s + u)[1..] == s[1..] + u && (t + u)[1..] == t[1..] + u;
    }
  }
}
