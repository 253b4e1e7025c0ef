/** The gateway's detokenizer: one `str.replace` per vault entry, filtered by the
    caller's role, compared with substituting every token in a single pass. */
module Detokenizer {
  import opened Text
  import opened Tokens

  /** One `token -> real value` pair of the vault, in dictionary order. */
  datatype Binding = Binding(token: string, value: string)

  predicate Eligible(token: string, allowed: set<string>) {
    var m := MatchToken(token);
    m.Some? && EntityOf(m.value.short) in allowed
  }

  /** A key is replaced exactly when it starts with a token whose type the role may see. */
  lemma {:induction false} EligibleExactly(token: string, allowed: set<string>)
    ensures Eligible(token, allowed) <==>
      exists short, ds :: StartsWithToken(token, short, ds) && EntityOf(short) in allowed
  {
    hide MatchToken, StartsWithToken, EntityOf;
    MatchTokenExactly(token);
  }

  /** A token of an asked type is replaced exactly for a role that may see the type. */
  lemma {:induction false} EligibleByType(entity: string, n: nat, allowed: set<string>)
    requires KnownEntity(entity)
    ensures Eligible(Token(ShortOf(entity), n), allowed) <==> entity in allowed
  {
    ShortCodesInvert(entity);
    hide ShortOf, EntityOf, MatchToken, Token, NatText;
    TokenRoundTrip(ShortOf(entity), n);
  }

  /** What the loop computes, one entry at a time. */
  function Detokenize(text: string, items: seq<Binding>, allowed: set<string>): string
    decreases |items|
  {
    if items == [] then text
    else if Eligible(items[0].token, allowed) then
      Detokenize(Replace(text, items[0].token, items[0].value), items[1..], allowed)
    else Detokenize(text, items[1..], allowed)
  }

  method RunDetokenize(text: string, tokenMap: seq<Binding>, allowed: set<string>) returns (result: string)
    ensures result == Detokenize(text, tokenMap, allowed)
  {
    if tokenMap == [] || text == "" {
      EmptyTextStays(tokenMap, allowed);
      return text;
    }
    result := text;
    var i := 0;
    while i < |tokenMap|
      invariant 0 <= i <= |tokenMap|
      invariant Detokenize(result, tokenMap[i..], allowed) == Detokenize(text, tokenMap, allowed)
    {
      var b := tokenMap[i];
      assert tokenMap[i..][0] == b && tokenMap[i..][1..] == tokenMap[i + 1..];
      var m := MatchToken(b.token);
      if m.Some? && EntityOf(m.value.short) in allowed {
        result := Replace(result, b.token, b.value);
      }
      i := i + 1;
    }
  }

  lemma {:induction false} EmptyTextStays(items: seq<Binding>, allowed: set<string>)
    ensures Detokenize("", items, allowed) == ""
    decreases |items|
  {
    if items != [] { EmptyTextStays(items[1..], allowed); }
  }

  // ---------------------------------------------------------------- one pass

  ghost predicate KeyAt(k: string, s: string, m: map<string, string>) {
    k in m && k != [] && k <= s
  }

  /** Reading left to right once: where a key of `m` starts, write its value and
      jump over it; everywhere else copy the character. */
  ghost function Substitute(s: string, m: map<string, string>): string {
    if s == [] then []
    else if exists k :: KeyAt(k, s, m) then
      var k :| KeyAt(k, s, m);
      m[k] + Substitute(s[|k|..], m)
    else [s[0]] + Substitute(s[1..], m)
  }

  ghost predicate BracedKeys(m: map<string, string>) {
    forall k :: k in m ==> Braced(k)
  }

  /** At most one braced key starts at a position. */
  lemma {:induction false} SubstituteKey(k: string, s: string, m: map<string, string>)
    requires BracedKeys(m) && KeyAt(k, s, m)
    ensures Substitute(s, m) == m[k] + Substitute(s[|k|..], m)
  {
    forall k' | KeyAt(k', s, m)
      ensures k' == k
    {
      NoPartialOverlap(k, k', 0, s);
    }
  }

  /** Text without an opening brace is copied. */
  lemma {:induction false} SubstituteBraceFree(v: string, s: string, m: map<string, string>)
    requires BracedKeys(m) && forall i :: 0 <= i < |v| ==> v[i] != '{'
    ensures Substitute(v + s, m) == v + Substitute(s, m)
  {
    if v == [] {
      assert v + s == s;
    } else {
      var w := v + s;
      assert w[0] == v[0] && w[1..] == v[1..] + s;
      assert !exists k :: KeyAt(k, w, m);
      SubstituteBraceFree(v[1..], s, m);
    }
  }

  /** A replacement that starts `p` characters in leaves those `p` alone. */
  lemma {:induction false} ReplaceSkips(s: string, t: string, v: string, p: nat)
    requires t != [] && p <= |s|
    requires forall i :: 0 <= i < p ==> !(t <= s[i..])
    ensures Replace(s, t, v) == s[..p] + Replace(s[p..], t, v)
  {
    if p > 0 {
      assert s[0..] == s;
      forall i | 0 <= i < p - 1
        ensures !(t <= s[1..][i..])
      {
        assert s[1..][i..] == s[i + 1..];
      }
      ReplaceSkips(s[1..], t, v, p - 1);
      assert s[1..][p - 1..] == s[p..];
      assert s[..p] == [s[0]] + s[1..][..p - 1];
    } else {
      assert s[0..] == s;
    }
  }

  /** Offset of the first occurrence of `t`, or the length of `s`. */
  ghost function FirstAt(s: string, t: string): (p: nat)
    requires t != []
    ensures p <= |s|
    ensures forall i :: 0 <= i < p ==> !(t <= s[i..])
    ensures p < |s| ==> t <= s[p..]
  {
    if s == [] then 0
    else if t <= s then assert s[0..] == s; 0
    else
      var q := FirstAt(s[1..], t);
      assert s[0..] == s;
      assert forall i :: 1 <= i <= |s| ==> s[1..][i - 1..] == s[i..];
      q + 1
  }

  lemma {:induction false} SliceOfSlice(s: string, a: nat, b: nat, i: nat, j: nat)
    requires a <= b <= |s| && i <= j <= b - a
    ensures s[a..b][i..j] == s[a + i..a + j]
  {
    var l, r := s[a..b][i..j], s[a + i..a + j];
    assert |l| == |r|;
    assert forall q :: 0 <= q < |l| ==> l[q] == r[q];
  }

  /** A brace-free value met while reading a token lies in its interior. */
  lemma {:induction false} ValueInsideToken(k: string, r: string, v: string, p: nat)
    requires Braced(k) && k <= r && BraceFree(v)
    requires p < |k| && v <= r[p..]
    ensures Factor(v, Interior(k))
  {
    assert forall i :: 0 <= i < |k| ==> k[i] == r[i];
    assert forall i :: 0 <= i < |v| ==> r[p + i] == r[p..][i] == v[i];
    if v == [] {
      assert FactorAt(v, Interior(k), 0);
    } else {
      assert k[p] == v[0];
      var last := |k| - 2;
      assert p >= 2 && p < last;
      assert forall q :: p <= q < p + |v| ==> r[q] == r[p..][q - p] == v[q - p];
      assert p + |v| <= last;
      assert k[p..p + |v|] == v;
      SliceOfSlice(k, 2, |k| - 2, p - 2, p - 2 + |v|);
      assert FactorAt(v, Interior(k), p - 2);
    }
  }

  /** Replacing a token by a brace-free value creates no other token, unless the
      value fits inside one. */
  lemma {:induction false} NoTokenForged(s: string, t: string, v: string, k: string)
    requires Braced(t) && Braced(k) && BraceFree(v) && !Factor(v, Interior(k))
    requires k <= Replace(s, t, v)
    ensures k <= s && !(t <= s)
  {
    var p, r := FirstAt(s, t), Replace(s, t, v);
    ReplaceSkips(s, t, v, p);
    assert r[..p] == s[..p];
    assert s[0..] == s;
    if p < |s| {
      assert r[p..] == v + Replace(s[p..][|t|..], t, v);
      if p < |k| {
        ValueInsideToken(k, r, v, p);
      }
    }
    assert p >= |k|;
    assert k == r[..|k|] == r[..p][..|k|] == s[..|k|];
  }

  /** Replacing one token first and then substituting the rest is substituting
      all of them at once. */
  lemma {:induction false} ReplaceThenSubstitute(s: string, t: string, v: string, m: map<string, string>)
    requires BracedKeys(m) && Braced(t) && BraceFree(v)
    requires t in m ==> m[t] == v
    requires forall k :: k in m ==> !Factor(v, Interior(k))
    ensures Substitute(Replace(s, t, v), m) == Substitute(s, m[t := v])
    decreases |s|
  {
    var mt := m[t := v];
    if s == [] {
    } else if t <= s {
      ReplaceThenSubstitute(s[|t|..], t, v, m);
      SubstituteBraceFree(v, Replace(s[|t|..], t, v), m);
      SubstituteKey(t, s, mt);
    } else if k :| KeyAt(k, s, mt) {
      forall i | 0 <= i < |k|
        ensures !(t <= s[i..])
      {
        assert s[0..] == s;
        if t <= s[i..] {
          NoPartialOverlap(k, t, i, s);
        }
      }
      ReplaceSkips(s, t, v, |k|);
      ReplaceThenSubstitute(s[|k|..], t, v, m);
      SubstituteKey(k, s, mt);
      var r := Replace(s, t, v);
      assert s[..|k|] == k;
      assert r == k + Replace(s[|k|..], t, v);
      SubstituteKey(k, r, m);
    } else {
      var r := Replace(s, t, v);
      forall k | k in m
        ensures !KeyAt(k, r, m)
      {
        if KeyAt(k, r, m) {
          NoTokenForged(s, t, v, k);
          assert KeyAt(k, s, mt);
        }
      }
      ReplaceThenSubstitute(s[1..], t, v, m);
    }
  }

  // ------------------------------------------- the loop against the single pass

  ghost predicate DistinctTokens(items: seq<Binding>) {
    forall i, j :: 0 <= i < j < |items| ==> items[i].token != items[j].token
  }

  /** Every entry the role may see has a whole token for key and a brace-free value. */
  ghost predicate Plain(items: seq<Binding>, allowed: set<string>) {
    forall b :: b in items && Eligible(b.token, allowed) ==> Braced(b.token) && BraceFree(b.value)
  }

  ghost function AllowedMap(items: seq<Binding>, allowed: set<string>): (m: map<string, string>)
    ensures forall k :: k in m <==> exists b :: b in items && b.token == k && Eligible(k, allowed)
    ensures forall k :: k in m ==> Binding(k, m[k]) in items
  {
    if items == [] then map[]
    else
      var m := AllowedMap(items[1..], allowed);
      assert items == [items[0]] + items[1..];
      if Eligible(items[0].token, allowed) then m[items[0].token := items[0].value] else m
  }

  /** An earlier visible value that fits inside a later visible token can forge it. */
  ghost predicate CanForge(items: seq<Binding>, allowed: set<string>, i: int, j: int)
    requires Plain(items, allowed)
  {
    && 0 <= i < j < |items|
    && Eligible(items[i].token, allowed) && Eligible(items[j].token, allowed)
    && Factor(items[i].value, Interior(items[j].token))
  }

  lemma {:induction false} UnforgedLoopIsOnePass(text: string, items: seq<Binding>, allowed: set<string>)
    requires DistinctTokens(items) && Plain(items, allowed)
    requires forall i, j :: !CanForge(items, allowed, i, j)
    ensures Detokenize(text, items, allowed) == Substitute(text, AllowedMap(items, allowed))
    decreases |items|
  {
    hide Eligible;
    if items == [] {
      SubstituteNothing(text);
    } else {
      var b, rest := items[0], items[1..];
      assert forall c :: c in rest ==> c in items;
      forall i, j
        ensures !CanForge(rest, allowed, i, j)
      {
        assert !CanForge(items, allowed, i + 1, j + 1);
      }
      if Eligible(b.token, allowed) {
        var m := AllowedMap(rest, allowed);
        forall k | k in m
          ensures Braced(k) && k != b.token && !Factor(b.value, Interior(k))
        {
          var j :| 0 <= j < |rest| && rest[j] == Binding(k, m[k]);
          assert items[j + 1] == rest[j];
          assert !CanForge(items, allowed, 0, j + 1);
        }
        var text' := Replace(text, b.token, b.value);
        UnforgedLoopIsOnePass(text', rest, allowed);
        assert Substitute(text', m) == Substitute(text, m[b.token := b.value]) by {
          ReplaceThenSubstitute(text, b.token, b.value, m);
        }
      } else {
        UnforgedLoopIsOnePass(text, rest, allowed);
      }
    }
  }

  lemma {:induction false} SubstituteNothing(s: string)
    ensures Substitute(s, map[]) == s
  {
    if s != [] {
      SubstituteNothing(s[1..]);
    }
  }

  // A text that exposes a forging pair.

  ghost predicate Absent(t: string, s: string) {
    forall i :: 0 <= i < |s| ==> !(t <= s[i..])
  }

  lemma {:induction false} ReplaceAbsent(s: string, t: string, v: string)
    requires t != [] && Absent(t, s)
    ensures Replace(s, t, v) == s
  {
    ReplaceSkips(s, t, v, |s|);
    assert s[..|s|] == s;
  }

  lemma {:induction false} AbsentWithoutOpening(s: string, t: string)
    requires Braced(t) && forall i :: 0 <= i < |s| ==> s[i] != '{'
    ensures Absent(t, s)
  {
    forall i | 0 <= i < |s|
      ensures !(t <= s[i..])
    {
      assert s[i..][0] == s[i];
    }
  }

  lemma {:induction false} AbsentInToken(k: string, t: string)
    requires Braced(k) && Braced(t) && k != t
    ensures Absent(t, k)
  {
    forall i | 0 <= i < |k|
      ensures !(t <= k[i..])
    {
      if t <= k[i..] {
        NoPartialOverlap(k, t, i, k);
      }
    }
  }

  lemma {:induction false} LoopLeavesBraceFree(s: string, items: seq<Binding>, allowed: set<string>)
    requires Plain(items, allowed) && BraceFree(s)
    ensures Detokenize(s, items, allowed) == s
    decreases |items|
  {
    hide Eligible;
    if items != [] {
      if Eligible(items[0].token, allowed) {
        assert items[0] in items;
        AbsentWithoutOpening(s, items[0].token);
        ReplaceAbsent(s, items[0].token, items[0].value);
      }
      LoopLeavesBraceFree(s, items[1..], allowed);
    }
  }

  /** On a bare token the loop yields that token's value. */
  lemma {:induction false} LoopOnToken(items: seq<Binding>, allowed: set<string>, j: nat)
    requires DistinctTokens(items) && Plain(items, allowed)
    requires j < |items| && Eligible(items[j].token, allowed)
    ensures Detokenize(items[j].token, items, allowed) == items[j].value
    decreases |items|
  {
    hide Eligible;
    var t := items[j].token;
    assert items[j] in items && items[0] in items;
    if j == 0 {
      ReplaceHead(t, [], items[0].value);
      assert t + [] == t && items[0].value + [] == items[0].value;
      LoopLeavesBraceFree(items[0].value, items[1..], allowed);
    } else {
      if Eligible(items[0].token, allowed) {
        AbsentInToken(t, items[0].token);
        ReplaceAbsent(t, items[0].token, items[0].value);
      }
      LoopOnToken(items[1..], allowed, j - 1);
    }
  }

  /** `t` wrapped so that replacing it by its value writes a new token. */
  ghost function Wrapped(a: string, t: string, b: string): string {
    "{{" + a + t + b + "}}"
  }

  ghost predicate IsWrapped(w: string, c: nat, t: string) {
    && 2 <= c && c + |t| + 2 <= |w|
    && w[0] == '{' && w[1] == '{'
    && (forall i :: 2 <= i < c ==> !IsBrace(w[i]))
    && t <= w[c..]
    && (forall i :: c + |t| <= i < |w| ==> w[i] != '{')
  }

  lemma {:induction false} WrappedParts(a: string, t: string, b: string)
    requires BraceFree(a) && BraceFree(b)
    ensures var w, c := Wrapped(a, t, b), 2 + |a|;
            IsWrapped(w, c, t) && w[..c] == "{{" + a && w[c..] == t + (b + "}}")
  {
    var w, c := Wrapped(a, t, b), 2 + |a|;
    assert forall i :: 2 <= i < c ==> w[i] == a[i - 2];
    assert forall i :: c + |t| <= i < |w| - 2 ==> w[i] == b[i - c - |t|];
    assert w[..c] == "{{" + a;
    assert w[c..] == t + (b + "}}");
  }

  lemma {:induction false} OnlyTokenInWrapped(w: string, c: nat, t: string, k: string, p: nat)
    requires Braced(t) && Braced(k) && IsWrapped(w, c, t)
    requires p < |w| && k <= w[p..]
    ensures p == c && k == t
  {
    assert forall i :: 0 <= i < |k| ==> w[p + i] == w[p..][i] == k[i];
    assert w[p + 0] == '{';
    assert forall i :: 0 <= i < |t| ==> w[c + i] == w[c..][i] == t[i];
    assert p <= c;
    assert w[p..][c - p..] == w[c..];
    NoPartialOverlap(k, t, c - p, w[p..]);
    assert w[p + (|k| - 1)] == '}';
  }

  lemma {:induction false} ReplaceWrapped(a: string, t: string, b: string, v: string)
    requires Braced(t) && BraceFree(a) && BraceFree(b)
    ensures Replace(Wrapped(a, t, b), t, v) == Wrapped(a, v, b)
  {
    TokenNonEmpty(t);
    var w, c, tail := Wrapped(a, t, b), 2 + |a|, b + "}}";
    WrappedParts(a, t, b);
    AbsentWithoutOpening(tail, t) by { assert forall i :: 0 <= i < |tail| ==> tail[i] != '{'; }
    hide Braced;
    forall i | 0 <= i < c
      ensures !(t <= w[i..])
    {
      if t <= w[i..] { OnlyTokenInWrapped(w, c, t, t, i); }
    }
    ReplaceMiddle(w, c, t, tail, v);
    assert w[..c] + (v + tail) == Wrapped(a, v, b);
  }

  lemma {:induction false} ReplaceMiddle(w: string, c: nat, t: string, tail: string, v: string)
    requires c <= |w| && t != [] && w[c..] == t + tail && Absent(t, tail)
    requires forall i :: 0 <= i < c ==> !(t <= w[i..])
    ensures Replace(w, t, v) == w[..c] + (v + tail)
  {
    ReplaceSkips(w, t, v, c);
    ReplaceHead(t, tail, v);
    ReplaceAbsent(tail, t, v);
  }

  lemma {:induction false} ReplaceHead(t: string, s: string, v: string)
    requires t != []
    ensures Replace(t + s, t, v) == v + Replace(s, t, v)
  {
    assert (t + s)[|t|..] == s;
  }

  lemma {:induction false} SubstituteWrapped(a: string, t: string, b: string, m: map<string, string>)
    requires BracedKeys(m) && t in m && BraceFree(a) && BraceFree(b)
    ensures Substitute(Wrapped(a, t, b), m) == Wrapped(a, m[t], b)
  {
    var w, c, tail := Wrapped(a, t, b), 2 + |a|, b + "}}";
    WrappedParts(a, t, b);
    forall i, k | 0 <= i < c
      ensures !KeyAt(k, w[i..], m)
    {
      if KeyAt(k, w[i..], m) { OnlyTokenInWrapped(w, c, t, k, i); }
    }
    SubstituteSkips(w, m, c);
    assert (t + tail)[|t|..] == tail;
    SubstituteKey(t, t + tail, m);
    SubstituteBraceFree(tail, [], m);
    assert tail + [] == tail;
    assert "{{" + a + (m[t] + tail) == Wrapped(a, m[t], b);
  }

  lemma {:induction false} SubstituteSkips(s: string, m: map<string, string>, p: nat)
    requires p <= |s|
    requires forall i, k :: 0 <= i < p ==> !KeyAt(k, s[i..], m)
    ensures Substitute(s, m) == s[..p] + Substitute(s[p..], m)
  {
    assert s[0..] == s;
    if p > 0 {
      forall i, k | 0 <= i < p - 1
        ensures !KeyAt(k, s[1..][i..], m)
      {
        assert s[1..][i..] == s[i + 1..];
      }
      SubstituteSkips(s[1..], m, p - 1);
      assert s[1..][p - 1..] == s[p..];
      assert s[..p] == [s[0]] + s[1..][..p - 1];
    }
  }

  lemma {:induction false} AbsentInWrapped(a: string, t: string, b: string, k: string)
    requires Braced(t) && Braced(k) && k != t && BraceFree(a) && BraceFree(b)
    ensures Absent(k, Wrapped(a, t, b))
  {
    var w := Wrapped(a, t, b);
    WrappedParts(a, t, b);
    forall p | 0 <= p < |w|
      ensures !(k <= w[p..])
    {
      if k <= w[p..] { OnlyTokenInWrapped(w, 2 + |a|, t, k, p); }
    }
  }

  lemma {:induction false} LoopOnWrapped(items: seq<Binding>, allowed: set<string>, i: nat, j: nat, a: string, b: string)
    requires DistinctTokens(items) && Plain(items, allowed)
    requires i < j < |items| && Eligible(items[i].token, allowed) && Eligible(items[j].token, allowed)
    requires BraceFree(a) && BraceFree(b) && items[j].token == Wrapped(a, items[i].value, b)
    ensures Detokenize(Wrapped(a, items[i].token, b), items, allowed) == items[j].value
    decreases |items|
  {
    hide Eligible;
    var t, c := items[i].token, 2 + |a|;
    var w := Wrapped(a, t, b);
    assert items[i] in items && items[j] in items && items[0] in items;
    if i == 0 {
      ReplaceWrapped(a, t, b, items[0].value);
      LoopOnToken(items[1..], allowed, j - 1);
    } else {
      if Eligible(items[0].token, allowed) {
        AbsentInWrapped(a, t, b, items[0].token);
        ReplaceAbsent(w, items[0].token, items[0].value);
      }
      LoopOnWrapped(items[1..], allowed, i - 1, j - 1, a, b);
    }
  }

  lemma {:induction false} TokenAroundValue(k: string, v: string) returns (a: string, b: string)
    requires Braced(k) && Factor(v, Interior(k))
    ensures BraceFree(a) && BraceFree(b) && k == Wrapped(a, v, b)
  {
    var w := Interior(k);
    var p: nat :| FactorAt(v, w, p);
    a, b := w[..p], w[p + |v|..];
    assert w == a + v + b;
    assert k == ['{', '{'] + w + ['}', '}'];
  }

  /** A forging pair is always visible: some text detokenizes differently. */
  lemma {:induction false} ForgingTextExists(items: seq<Binding>, allowed: set<string>, i: nat, j: nat) returns (text: string)
    requires DistinctTokens(items) && Plain(items, allowed) && CanForge(items, allowed, i, j)
    ensures Detokenize(text, items, allowed) != Substitute(text, AllowedMap(items, allowed))
  {
    hide Eligible;
    var t, v, k := items[i].token, items[i].value, items[j].token;
    assert items[i] in items && items[j] in items;
    var a, b := TokenAroundValue(k, v);
    text := Wrapped(a, t, b);
    LoopOnWrapped(items, allowed, i, j, a, b);
    var m := AllowedMap(items, allowed);
    assert m[t] == v by {
      var n :| 0 <= n < |items| && items[n] == Binding(t, m[t]);
      assert n == i;
    }
    SubstituteWrapped(a, t, b, m);
    assert k[0] == '{';
  }

  /** The replacement loop is simultaneous substitution on every text exactly
      when no earlier visible value occurs inside a later visible token. */
  lemma {:induction false} LoopIsOnePassExactly(items: seq<Binding>, allowed: set<string>)
    requires DistinctTokens(items) && Plain(items, allowed)
    ensures (forall text :: Detokenize(text, items, allowed) == Substitute(text, AllowedMap(items, allowed)))
            <==> (forall i, j :: !CanForge(items, allowed, i, j))
  {
    hide Eligible;
    if forall i, j :: !CanForge(items, allowed, i, j) {
      forall text
        ensures Detokenize(text, items, allowed) == Substitute(text, AllowedMap(items, allowed))
      {
        UnforgedLoopIsOnePass(text, items, allowed);
      }
    } else {
      var i, j :| CanForge(items, allowed, i, j);
      var text := ForgingTextExists(items, allowed, i, j);
    }
  }

  /** A vault and a text that show it: the value of the first token completes the second,
      which the loop then replaces too. */
  lemma {:induction false} ForgingExample(items: seq<Binding>, allowed: set<string>)
    requires items == [Binding("{{DATE_1}}", "1"), Binding("{{SSN_1}}", "123-45-6789")]
    requires allowed == {"DATE_TIME", "SSN"}
    ensures Detokenize("{{SSN_{{DATE_1}}}}", items, allowed) == "123-45-6789"
    ensures Substitute("{{SSN_{{DATE_1}}}}", AllowedMap(items, allowed)) == "{{SSN_1}}"
  {
    hide Eligible, Detokenize, Substitute, Braced, AllowedMap, Wrapped;
    ExampleTokens(allowed);
    ExampleMap(items, allowed);
    ExampleTexts();
    LoopOnWrapped(items, allowed, 0, 1, "SSN_", "");
    SubstituteWrapped("SSN_", "{{DATE_1}}", "", AllowedMap(items, allowed));
  }

  lemma {:induction false} ExampleTexts()
    ensures BraceFree("SSN_") && BraceFree("")
    ensures Wrapped("SSN_", "1", "") == "{{SSN_1}}" && Wrapped("SSN_", "{{DATE_1}}", "") == "{{SSN_{{DATE_1}}}}"
  {
  }

  lemma {:induction false} ExampleTokens(allowed: set<string>)
    requires allowed == {"DATE_TIME", "SSN"}
    ensures Eligible("{{DATE_1}}", allowed) && Braced("{{DATE_1}}")
    ensures Eligible("{{SSN_1}}", allowed) && Braced("{{SSN_1}}")
  {
    hide MatchToken, Eligible, Braced;
    assert IsShort("DATE") && IsShort("SSN") && EntityOf("DATE") == "DATE_TIME" && EntityOf("SSN") == "SSN";
    FirstToken("DATE", allowed);
    FirstToken("SSN", allowed);
    assert "{{" + "DATE" + "_1}}" == "{{DATE_1}}" && "{{" + "SSN" + "_1}}" == "{{SSN_1}}";
  }

  lemma {:induction false} FirstToken(short: string, allowed: set<string>)
    requires IsShort(short) && EntityOf(short) in allowed
    ensures Eligible("{{" + short + "_1}}", allowed) && Braced("{{" + short + "_1}}")
  {
    hide MatchToken, EntityOf, Braced;
    assert NatText(1) == "1";
    TokenRoundTrip(short, 1);
    assert Token(short, 1) == "{{" + short + "_1}}";
  }

  lemma {:induction false} ExampleMap(items: seq<Binding>, allowed: set<string>)
    requires items == [Binding("{{DATE_1}}", "1"), Binding("{{SSN_1}}", "123-45-6789")]
    requires Eligible("{{DATE_1}}", allowed) && Eligible("{{SSN_1}}", allowed)
    ensures AllowedMap(items, allowed) == map["{{DATE_1}}" := "1", "{{SSN_1}}" := "123-45-6789"]
  {
    hide Eligible;
    assert items[1..] == [items[1]] && items[1..][1..] == [];
    assert AllowedMap(items[1..], allowed) == map["{{SSN_1}}" := "123-45-6789"];
  }

  // ------------------------------------------------------------ roles and order

  /** No visible value fits inside any visible token, its own included. */
  ghost predicate Independent(items: seq<Binding>, allowed: set<string>)
    requires Plain(items, allowed)
  {
    forall b, c :: b in items && c in items && Eligible(b.token, allowed) && Eligible(c.token, allowed)
      ==> !Factor(b.value, Interior(c.token))
  }

  /** A value with some character no token is made of. */
  ghost predicate Safe(v: string) {
    BraceFree(v) && exists i :: 0 <= i < |v| && !TokenChar(v[i])
  }

  lemma {:induction false} SafeValuesAreIndependent(items: seq<Binding>, allowed: set<string>)
    requires forall b :: b in items && Eligible(b.token, allowed) ==> Braced(b.token) && Safe(b.value)
    ensures Plain(items, allowed) && Independent(items, allowed)
  {
    forall b, c | b in items && c in items && Eligible(b.token, allowed) && Eligible(c.token, allowed)
      ensures !Factor(b.value, Interior(c.token))
    {
      var v, w := b.value, Interior(c.token);
      WholeToken(c.token);
      var i :| 0 <= i < |v| && !TokenChar(v[i]);
      forall p: nat
        ensures !FactorAt(v, w, p)
      {
        if p + |v| <= |w| {
          assert w[p..p + |v|][i] == w[p + i];
        }
      }
    }
  }

  lemma {:induction false} LoopAbsorbed(s: string, items: seq<Binding>, allowed: set<string>, m: map<string, string>)
    requires BracedKeys(m)
    requires forall b :: b in items && Eligible(b.token, allowed) ==>
      && b.token in m && m[b.token] == b.value && BraceFree(b.value)
      && forall k :: k in m ==> !Factor(b.value, Interior(k))
    ensures Substitute(Detokenize(s, items, allowed), m) == Substitute(s, m)
    decreases |items|
  {
    hide Eligible;
    if items != [] {
      var b := items[0];
      if Eligible(b.token, allowed) {
        assert b in items;
        ReplaceThenSubstitute(s, b.token, b.value, m);
        assert m[b.token := b.value] == m;
        LoopAbsorbed(Replace(s, b.token, b.value), items[1..], allowed, m);
      } else {
        LoopAbsorbed(s, items[1..], allowed, m);
      }
    }
  }

  /** Reading a text as a smaller role and then as a larger one shows what the
      larger role alone shows, whatever order each pass takes the vault in. */
  lemma {:induction false} SmallerThenLargerRole(text: string, items: seq<Binding>, items': seq<Binding>, small: set<string>, large: set<string>)
    requires small <= large
    requires DistinctTokens(items) && DistinctTokens(items')
    requires forall b :: b in items <==> b in items'
    requires Plain(items', large) && Independent(items', large)
    ensures Detokenize(Detokenize(text, items, small), items', large) == Detokenize(text, items', large)
  {
    assert forall b :: b in items && Eligible(b.token, small) ==> Eligible(b.token, large);
    hide Eligible;
    var m := AllowedMap(items', large);
    UnforgedLoopIsOnePass(text, items', large);
    UnforgedLoopIsOnePass(Detokenize(text, items, small), items', large);
    forall b | b in items && Eligible(b.token, small)
      ensures b.token in m && m[b.token] == b.value
    {
      var c := Binding(b.token, m[b.token]);
      assert b in items' && c in items';
      var i :| 0 <= i < |items'| && items'[i] == b;
      var j :| 0 <= j < |items'| && items'[j] == c;
      assert i == j;
    }
    LoopAbsorbed(text, items, small, m);
  }

  /** The vault's order never matters to what a role sees. */
  lemma {:induction false} OrderIrrelevant(text: string, items: seq<Binding>, items': seq<Binding>, allowed: set<string>)
    requires DistinctTokens(items) && DistinctTokens(items')
    requires forall b :: b in items <==> b in items'
    requires Plain(items, allowed) && Independent(items, allowed)
    ensures Detokenize(text, items, allowed) == Detokenize(text, items', allowed)
  {
    hide Eligible;
    assert Plain(items', allowed) && Independent(items', allowed);
    UnforgedLoopIsOnePass(text, items, allowed);
    UnforgedLoopIsOnePass(text, items', allowed);
    var m, m' := AllowedMap(items, allowed), AllowedMap(items', allowed);
    forall k | k in m
      ensures k in m' && m[k] == m'[k]
    {
      assert Binding(k, m[k]) in items';
      var i :| 0 <= i < |items'| && items'[i] == Binding(k, m[k]);
      var j :| 0 <= j < |items'| && items'[j] == Binding(k, m'[k]);
      assert i == j;
    }
    forall k | k in m'
      ensures k in m
    {
      assert Binding(k, m'[k]) in items;
    }
    assert m == m';
  }

  lemma {:induction false} ReplacePastToken(d: string, y: string, t: string, v: string)
    requires Braced(d) && Braced(t) && t != d
    ensures Replace(d + y, t, v) == d + Replace(y, t, v)
  {
    var s := d + y;
    forall i | 0 <= i < |d|
      ensures !(t <= s[i..])
    {
      if t <= s[i..] { NoPartialOverlap(d, t, i, s); }
    }
    ReplaceSkips(s, t, v, |d|);
    assert s[|d|..] == y && s[..|d|] == d;
  }

  lemma {:induction false} TokenBeforeToken(x: string, d: string, y: string, t: string)
    requires Braced(d) && Braced(t) && x != []
    ensures t <= x + (d + y) ==> t <= x
  {
    var s := x + (d + y);
    if t <= s {
      assert s[|x|..] == d + y;
      NoPartialOverlap(t, d, |x|, s);
      assert t == s[..|t|] == x[..|t|];
    }
  }

  lemma {:induction false} ReplaceStep(s: string, t: string, v: string)
    requires s != [] && t != []
    ensures t <= s ==> Replace(s, t, v) == v + Replace(s[|t|..], t, v)
    ensures !(t <= s) ==> Replace(s, t, v) == [s[0]] + Replace(s[1..], t, v)
  {
  }

  lemma {:induction false} Regroup(a: string, b: string, c: string)
    ensures a + (b + c) == (a + b) + c
  {
  }

  lemma {:induction false} ReplaceAroundToken(x: string, d: string, y: string, t: string, v: string)
    requires Braced(d) && Braced(t) && t != d
    ensures Replace(x + (d + y), t, v) == Replace(x, t, v) + (d + Replace(y, t, v))
    decreases |x|
  {
    hide Braced, Replace;
    TokenNonEmpty(t);
    var s, tail := x + (d + y), d + Replace(y, t, v);
    if x == [] {
      assert s == d + y;
      ReplacePastToken(d, y, t, v);
      assert Replace(x, t, v) == [] by { ReplaceEmpty(t, v); }
    } else {
      ReplaceStep(s, t, v);
      ReplaceStep(x, t, v);
      TokenBeforeToken(x, d, y, t);
      if t <= x {
        assert t <= s && s[|t|..] == x[|t|..] + (d + y);
        ReplaceAroundToken(x[|t|..], d, y, t, v);
        Regroup(v, Replace(x[|t|..], t, v), tail);
      } else {
        assert s[0] == x[0] && s[1..] == x[1..] + (d + y);
        ReplaceAroundToken(x[1..], d, y, t, v);
        Regroup([x[0]], Replace(x[1..], t, v), tail);
      }
    }
  }

  lemma {:induction false} TokenNonEmpty(t: string)
    requires Braced(t)
    ensures t != []
  {
  }

  lemma {:induction false} ReplaceEmpty(t: string, v: string)
    requires t != []
    ensures Replace([], t, v) == []
  {
  }

  /** A token the role may not see, or that the vault does not hold, survives the
      loop in place; the text on either side is detokenized as if it stood alone. */
  lemma {:induction false} HiddenTokenStays(x: string, d: string, y: string, items: seq<Binding>, allowed: set<string>)
    requires Braced(d)
    requires forall b :: b in items && Eligible(b.token, allowed) ==> Braced(b.token) && b.token != d
    ensures Detokenize(x + (d + y), items, allowed)
            == Detokenize(x, items, allowed) + (d + Detokenize(y, items, allowed))
    decreases |items|
  {
    hide Eligible;
    if items != [] {
      var b := items[0];
      if Eligible(b.token, allowed) {
        assert b in items;
        ReplaceAroundToken(x, d, y, b.token, b.value);
        HiddenTokenStays(Replace(x, b.token, b.value), d, Replace(y, b.token, b.value), items[1..], allowed);
      } else {
        HiddenTokenStays(x, d, y, items[1..], allowed);
      }
    }
  }
}
