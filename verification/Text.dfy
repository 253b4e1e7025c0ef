/** Strings as the gateway and the browser see them: braces, decimal numerals
    and the one library operation everything rests on, `str.replace`. */
module Text {

  predicate IsBrace(c: char) {
    c == '{' || c == '}'
  }

  predicate BraceFree(s: string) {
    forall i :: 0 <= i < |s| ==> !IsBrace(s[i])
  }

  /** The text holds no "{{". */
  predicate NoDoubleBrace(s: string) {
    forall i :: 0 <= i < |s| - 1 ==> s[i] == '{' ==> s[i + 1] != '{'
  }

  ghost predicate FactorAt(v: string, w: string, i: nat) {
    i + |v| <= |w| && w[i..i + |v|] == v
  }

  /** `v` occurs somewhere inside `w`. */
  ghost predicate Factor(v: string, w: string) {
    exists i: nat :: FactorAt(v, w, i)
  }

  /** Python's `s.replace(pat, rep)` and JavaScript's `s.split(pat).join(rep)`:
      leftmost, non-overlapping, never rescanning what it wrote. */
  function Replace(s: string, pat: string, rep: string): string
    requires pat != []
  {
    if s == [] then []
    else if pat <= s then rep + Replace(s[|pat|..], pat, rep)
    else [s[0]] + Replace(s[1..], pat, rep)
  }

  predicate IsDigit(c: char) {
    '0' <= c <= '9'
  }

  predicate IsUpper(c: char) {
    'A' <= c <= 'Z'
  }

  function Digit(d: nat): (c: char)
    requires d < 10
    ensures IsDigit(c)
  {
    '0' + d as char
  }

  /** The decimal numeral that string formatting prints for a count. */
  function NatText(n: nat): (s: string)
    ensures s != [] && forall i :: 0 <= i < |s| ==> IsDigit(s[i])
  {
    if n < 10 then [Digit(n)] else NatText(n / 10) + [Digit(n % 10)]
  }

  function DigitValue(c: char): nat
    requires IsDigit(c)
  {
    c as int - '0' as int
  }

  /** The number a run of digits denotes. */
  function TextNat(s: string): nat
    requires forall i :: 0 <= i < |s| ==> IsDigit(s[i])
  {
    if s == [] then 0
    else 10 * TextNat(s[..|s| - 1]) + DigitValue(s[|s| - 1])
  }

  lemma {:induction false} NumeralRoundTrip(n: nat)
    ensures TextNat(NatText(n)) == n
  {
    var s := NatText(n);
    if n >= 10 {
      NumeralRoundTrip(n / 10);
      assert s[..|s| - 1] == NatText(n / 10);
    } else {
      assert s[..0] == [];
    }
  }

  /** A separator that neither name holds ends both at the same place. */
  lemma {:induction false} NamesEndAtSeparator(sep: char, a: string, x: string, b: string, y: string)
    requires sep !in a && sep !in b && a + [sep] + x == b + [sep] + y
    ensures a == b && x == y
    decreases |a|
  {
    var s, t := a + [sep] + x, b + [sep] + y;
    assert s[0] == t[0];
    if a == "" || b == "" {
      assert a == b;
      assert s[1..] == x && t[1..] == y;
    } else {
      assert s[1..] == a[1..] + [sep] + x && t[1..] == b[1..] + [sep] + y;
      NamesEndAtSeparator(sep, a[1..], x, b[1..], y);
      assert a == [a[0]] + a[1..] && b == [b[0]] + b[1..];
    }
  }
}
