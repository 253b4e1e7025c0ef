/** The Luhn check on card numbers: the right-to-left loop, and the errors it catches. */
module Luhn {
  import opened Text

  /** `value.replace(/\D/g, '')` */
  function Digits(value: string): (ds: string)
    ensures forall i :: 0 <= i < |ds| ==> IsDigit(ds[i])
  {
    if value == "" then ""
    else Digits(value[..|value| - 1]) + (if IsDigit(value[|value| - 1]) then [value[|value| - 1]] else "")
  }

  /** What a digit adds, doubled or not; digits of a doubled one are added up. */
  function Term(d: nat, doubled: bool): nat {
    if !doubled then d else if 2 * d > 9 then 2 * d - 9 else 2 * d
  }

  predicate AllDigits(ds: string) {
    forall i :: 0 <= i < |ds| ==> IsDigit(ds[i])
  }

  /** The positional sum: every second digit from the right is doubled, starting with the
      last but one. */
  function Checksum(ds: string): nat
    requires AllDigits(ds)
  {
    if ds == "" then 0 else Term(DigitValue(ds[0]), |ds| % 2 == 0) + Checksum(ds[1..])
  }

  predicate Accepts(ds: string)
    requires AllDigits(ds)
  {
    13 <= |ds| <= 19 && Checksum(ds) % 10 == 0
  }

  method LuhnValid(value: string) returns (ok: bool)
    ensures ok <==> Accepts(Digits(value))
  {
    hide Checksum, Digits;
    var digits := Digits(value);
    if |digits| < 13 || |digits| > 19 { return false; }
    var sum, double := 0, false;
    var i := |digits| - 1;
    EmptyChecksum();
    assert digits[|digits|..] == "";
    while i >= 0
      invariant -1 <= i < |digits|
      invariant double <==> (|digits| - i) % 2 == 0
      invariant sum == Checksum(digits[i + 1..])
    {
      var d := digits[i] as int - 48;
      ChecksumFrom(digits, i);
      if double {
        d := d * 2;
        if d > 9 { d := d - 9; }
      }
      sum := sum + d;
      double := !double;
      i := i - 1;
    }
    assert digits[0..] == digits;
    return sum % 10 == 0;
  }

  lemma {:induction false} EmptyChecksum()
    ensures Checksum("") == 0
  {
  }

  lemma {:induction false} ChecksumFrom(ds: string, i: nat)
    requires AllDigits(ds) && i < |ds|
    ensures Checksum(ds[i..]) == Term(DigitValue(ds[i]), (|ds| - i) % 2 == 0) + Checksum(ds[i + 1..])
  {
    hide Term;
    assert ds[i..][0] == ds[i] && ds[i..][1..] == ds[i + 1..];
  }

  // ------------------------------------------------------------------------- errors

  lemma {:induction false} ChecksumAppend(a: string, b: string)
    requires AllDigits(a) && AllDigits(b)
    ensures AllDigits(a + b) && Checksum(a + b) == Shifted(a, |b|) + Checksum(b)
    decreases |a|
  {
    hide IsDigit;
    if a == "" {
      assert a + b == b;
    } else {
      ChecksumAppend(a[1..], b);
      assert (a + b)[1..] == a[1..] + b;
    }
  }

  /** The sum of digits that stand `k` places from the right end. */
  function Shifted(ds: string, k: nat): nat
    requires AllDigits(ds)
  {
    if ds == "" then 0 else Term(DigitValue(ds[0]), (|ds| + k) % 2 == 0) + Shifted(ds[1..], k)
  }

  /** One place apart from the rest. */
  lemma {:induction false} ChecksumAt(ds: string, k: nat)
    requires AllDigits(ds) && k < |ds|
    ensures Checksum(ds) == Shifted(ds[..k], |ds| - k) + Term(DigitValue(ds[k]), (|ds| - k) % 2 == 0) + Checksum(ds[k + 1..])
  {
    assert ds == ds[..k] + ds[k..] && ds[k..][1..] == ds[k + 1..];
    ChecksumAppend(ds[..k], ds[k..]);
  }

  /** Doubling permutes the digits. */
  lemma {:induction false} TermInjective(a: nat, b: nat, doubled: bool)
    requires a < 10 && b < 10
    ensures Term(a, doubled) % 10 == Term(b, doubled) % 10 <==> a == b
  {
  }

  /** Changing one digit of an accepted number makes it rejected. */
  lemma {:induction false} SingleErrorCaught(ds: string, k: nat, c: char)
    requires AllDigits(ds) && k < |ds| && IsDigit(c) && Accepts(ds)
    ensures AllDigits(ds[k := c]) && (Accepts(ds[k := c]) <==> c == ds[k])
  {
    hide Checksum, Shifted, Term;
    var es := ds[k := c];
    ChecksumAt(ds, k);
    ChecksumAt(es, k);
    assert es[..k] == ds[..k] && es[k + 1..] == ds[k + 1..];
    TermInjective(DigitValue(ds[k]), DigitValue(c), (|ds| - k) % 2 == 0);
    if c == ds[k] { assert es == ds; }
  }

  lemma {:induction false} SwappedTerms(a: nat, b: nat, doubled: bool)
    requires a < 10 && b < 10
    ensures (Term(a, doubled) + Term(b, !doubled)) % 10 == (Term(b, doubled) + Term(a, !doubled)) % 10
      <==> a == b || (a == 0 && b == 9) || (a == 9 && b == 0)
  {
    var x, y := Term(a, true) - a, Term(b, true) - b;
    assert x == (if a < 5 then a else a - 9) && y == (if b < 5 then b else b - 9);
    CloseModulo(Term(a, doubled) + Term(b, !doubled), Term(b, doubled) + Term(a, !doubled));
  }

  lemma {:induction false} CloseModulo(l: nat, r: nat)
    requires -10 < l - r < 10
    ensures l % 10 == r % 10 <==> l == r
  {
  }

  lemma {:induction false} ChecksumAtPair(ds: string, k: nat)
    requires AllDigits(ds) && k + 1 < |ds|
    ensures Checksum(ds) == Shifted(ds[..k], |ds| - k) +
      (Term(DigitValue(ds[k]), (|ds| - k) % 2 == 0) + Term(DigitValue(ds[k + 1]), (|ds| - k) % 2 != 0)) + Checksum(ds[k + 2..])
  {
    hide Term;
    ChecksumAt(ds, k);
    assert ds[k + 1..][0] == ds[k + 1] && ds[k + 1..][1..] == ds[k + 2..];
  }

  /** Swapping two neighbouring digits of an accepted number makes it rejected, unless
      they are equal or are 0 and 9. */
  lemma {:induction false} SwapCaught(ds: string, k: nat)
    requires AllDigits(ds) && k + 1 < |ds| && Accepts(ds)
    ensures var es := ds[k := ds[k + 1]][k + 1 := ds[k]];
      AllDigits(es) && (Accepts(es) <==> ds[k] == ds[k + 1] || {ds[k], ds[k + 1]} == {'0', '9'})
  {
    hide Checksum, Shifted, Term;
    var es := ds[k := ds[k + 1]][k + 1 := ds[k]];
    ChecksumAtPair(ds, k);
    ChecksumAtPair(es, k);
    assert es[..k] == ds[..k] && es[k + 2..] == ds[k + 2..];
    SwappedTerms(DigitValue(ds[k]), DigitValue(ds[k + 1]), (|ds| - k) % 2 == 0);
  }

  /** Each payload has exactly one check digit. */
  lemma {:induction false} CheckDigit(payload: string) returns (c: char)
    requires AllDigits(payload) && 12 <= |payload| <= 18
    ensures IsDigit(c)
    ensures forall d :: IsDigit(d) ==> AllDigits(payload + [d]) && (Accepts(payload + [d]) <==> d == c)
  {
    hide Shifted, Checksum;
    var s := Shifted(payload, 1);
    c := Digit((10 - s % 10) % 10);
    forall d | IsDigit(d) ensures AllDigits(payload + [d]) && (Accepts(payload + [d]) <==> d == c) {
      LastDigit(payload, d);
      Completes(s, DigitValue(d));
    }
  }

  lemma {:induction false} Completes(s: nat, d: nat)
    requires d < 10
    ensures (s + d) % 10 == 0 <==> d == (10 - s % 10) % 10
  {
  }

  lemma {:induction false} LastDigit(payload: string, d: char)
    requires AllDigits(payload) && IsDigit(d)
    ensures AllDigits(payload + [d]) && Checksum(payload + [d]) == Shifted(payload, 1) + DigitValue(d)
  {
    ChecksumAppend(payload, [d]);
    assert [d][1..] == "" && Checksum("") == 0;
  }

  // --------------------------------------------------------- numbers with separators

  lemma {:induction false} DigitsAppend(a: string, b: string)
    ensures Digits(a + b) == Digits(a) + Digits(b)
    decreases |b|
  {
    hide IsDigit;
    if b == "" {
      assert a + b == a;
    } else {
      var n := |b| - 1;
      DigitsAppend(a, b[..n]);
      assert (a + b)[..|a| + n] == a + b[..n];
    }
  }

  lemma {:induction false} DigitsAt(value: string, k: nat)
    requires k < |value| && IsDigit(value[k])
    ensures Digits(value) == Digits(value[..k]) + ([value[k]] + Digits(value[k + 1..]))
  {
    var one := [value[k]];
    assert one[..0] == "" && Digits(one) == one;
    assert value == value[..k] + (one + value[k + 1..]);
    DigitsAppend(value[..k], one + value[k + 1..]);
    DigitsAppend(one, value[k + 1..]);
  }

  /** The same for a number as it is written, with spaces or dashes in it: one digit
      mistyped is caught. */
  lemma {:induction false} MistypedCaught(value: string, k: nat, c: char)
    requires k < |value| && IsDigit(value[k]) && IsDigit(c) && Accepts(Digits(value))
    ensures Accepts(Digits(value[k := c])) <==> c == value[k]
  {
    hide Digits, Accepts, IsDigit;
    var before := Digits(value[..k]);
    DigitsAt(value, k);
    DigitsAt(value[k := c], k);
    assert value[k := c][..k] == value[..k] && value[k := c][k + 1..] == value[k + 1..];
    var ds := Digits(value);
    assert ds[|before|] == value[k] && ds[|before| := c] == Digits(value[k := c]);
    SingleErrorCaught(ds, |before|, c);
  }

  // ------------------------------------------------------------- the standard's digits

  function Zeros(n: nat): (z: string)
    ensures |z| == n && AllDigits(z) && forall i :: 0 <= i < n ==> z[i] == '0'
  {
    if n == 0 then "" else "0" + Zeros(n - 1)
  }

  lemma {:induction false} ZerosAddNothing(n: nat, k: nat)
    ensures Shifted(Zeros(n), k) == 0
    decreases n
  {
    if n > 0 { ZerosAddNothing(n - 1, k); }
  }

  /** The check digits of annex B of ISO/IEC 7812-1 for a single digit among zeros, in
      numbers of 13 to 19 digits and no others: in every second place from the right it is
      doubled, in the others taken as it is. */
  lemma {:induction false} CheckDigitsOfOne(a: nat, d: nat, b: nat, c: nat)
    requires d < 10 && c < 10
    ensures var ds := Zeros(a) + ([Digit(d)] + (Zeros(b) + [Digit(c)]));
      AllDigits(ds) && (Accepts(ds) <==> 13 <= a + b + 2 <= 19 && Digit(c) == if b % 2 == 0 then "0864297531"[d] else "0987654321"[d])
  {
    hide Checksum, Term, Digit;
    SumOfOne(a, d, b, c);
    DigitsTable(d, c, b % 2 == 0);
  }

  lemma {:induction false} SumOfOne(a: nat, d: nat, b: nat, c: nat)
    requires d < 10 && c < 10
    ensures var ds := Zeros(a) + ([Digit(d)] + (Zeros(b) + [Digit(c)]));
      AllDigits(ds) && |ds| == a + b + 2 && Checksum(ds) == Term(d, b % 2 == 0) + c
  {
    hide Shifted, Checksum, Term, Zeros;
    var end, mid := Zeros(b) + [Digit(c)], [Digit(d)] + (Zeros(b) + [Digit(c)]);
    ChecksumAppend(Zeros(a), mid);
    ZerosAddNothing(a, |mid|);
    assert mid[0] == Digit(d) && mid[1..] == end;
    FirstDigit(mid);
    LastDigit(Zeros(b), Digit(c));
    ZerosAddNothing(b, 1);
    assert |mid| == b + 2;
  }

  lemma {:induction false} FirstDigit(ds: string)
    requires AllDigits(ds) && ds != ""
    ensures Checksum(ds) == Term(DigitValue(ds[0]), |ds| % 2 == 0) + Checksum(ds[1..])
  {
  }

  lemma {:induction false} DigitsTable(d: nat, c: nat, doubled: bool)
    requires d < 10 && c < 10
    ensures (Term(d, doubled) + c) % 10 == 0 <==> Digit(c) == if doubled then "0864297531"[d] else "0987654321"[d]
  {
    assert Term(d, doubled) == if !doubled then d else if d < 5 then 2 * d else 2 * d - 9;
  }
}
