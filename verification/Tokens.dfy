/** Entity tables and the shape of a token `{{SHORT_n}}`. */
module Tokens {
  import opened Text

  datatype Option<+T> = None | Some(value: T)

  /** The entity types the gateway asks its analyzer for, with their short codes. */
  const ENTITY_SHORT: map<string, string> := map[
    "PERSON" := "PERSON",
    "SSN" := "SSN",
    "ACCOUNT_NUMBER" := "ACCT",
    "ROUTING_NUMBER" := "ROUTING",
    "LOAN_ID" := "LOAN",
    "EMAIL_ADDRESS" := "EMAIL",
    "PHONE_NUMBER" := "PHONE",
    "DATE_TIME" := "DATE",
    "CREDIT_CARD" := "CARD"
  ]

  /** Short codes back to entity types, as the detokenizer reads them. */
  const SHORT_TO_ENTITY: map<string, string> := map[
    "PERSON" := "PERSON",
    "SSN" := "SSN",
    "ACCT" := "ACCOUNT_NUMBER",
    "ROUTING" := "ROUTING_NUMBER",
    "CURRENCY" := "CURRENCY",
    "LOAN" := "LOAN_ID",
    "EMAIL" := "EMAIL_ADDRESS",
    "PHONE" := "PHONE_NUMBER",
    "DATE" := "DATE_TIME",
    "LOCATION" := "LOCATION",
    "CARD" := "CREDIT_CARD"
  ]

  predicate KnownEntity(entity: string) {
    entity in ENTITY_SHORT
  }

  function ShortOf(entity: string): string {
    if entity in ENTITY_SHORT then ENTITY_SHORT[entity] else entity
  }

  function EntityOf(short: string): string {
    if short in SHORT_TO_ENTITY then SHORT_TO_ENTITY[short] else short
  }

  predicate IsShort(s: string) {
    s != [] && forall i :: 0 <= i < |s| ==> IsUpper(s[i])
  }

  /** The detokenizer's table inverts the tokenizer's, so two entity types never
      share a short code. */
  lemma {:induction false} ShortCodesInvert(entity: string)
    requires KnownEntity(entity)
    ensures IsShort(ShortOf(entity)) && EntityOf(ShortOf(entity)) == entity
  {
    assert entity in {"PERSON", "SSN", "ACCOUNT_NUMBER", "ROUTING_NUMBER", "LOAN_ID",
                      "EMAIL_ADDRESS", "PHONE_NUMBER", "DATE_TIME", "CREDIT_CARD"};
  }

  function Token(short: string, n: nat): string {
    "{{" + short + "_" + NatText(n) + "}}"
  }

  /** The tokens of the asked types. */
  lemma {:induction false} TokensSpelled(n: nat)
    ensures Token(ShortOf("PERSON"), n) == "{{PERSON_" + NatText(n) + "}}"
    ensures Token(ShortOf("SSN"), n) == "{{SSN_" + NatText(n) + "}}"
    ensures Token(ShortOf("ACCOUNT_NUMBER"), n) == "{{ACCT_" + NatText(n) + "}}"
    ensures Token(ShortOf("ROUTING_NUMBER"), n) == "{{ROUTING_" + NatText(n) + "}}"
    ensures Token(ShortOf("LOAN_ID"), n) == "{{LOAN_" + NatText(n) + "}}"
    ensures Token(ShortOf("EMAIL_ADDRESS"), n) == "{{EMAIL_" + NatText(n) + "}}"
    ensures Token(ShortOf("PHONE_NUMBER"), n) == "{{PHONE_" + NatText(n) + "}}"
    ensures Token(ShortOf("DATE_TIME"), n) == "{{DATE_" + NatText(n) + "}}"
    ensures Token(ShortOf("CREDIT_CARD"), n) == "{{CARD_" + NatText(n) + "}}"
  {
    hide NatText, ShortOf;
    ShortsSpelled();
  }

  lemma {:induction false} ShortsSpelled()
    ensures ShortOf("PERSON") == "PERSON" && ShortOf("SSN") == "SSN" && ShortOf("ACCOUNT_NUMBER") == "ACCT"
    ensures ShortOf("ROUTING_NUMBER") == "ROUTING" && ShortOf("LOAN_ID") == "LOAN" && ShortOf("EMAIL_ADDRESS") == "EMAIL"
    ensures ShortOf("PHONE_NUMBER") == "PHONE" && ShortOf("DATE_TIME") == "DATE" && ShortOf("CREDIT_CARD") == "CARD"
  {
  }

  /** Two opening braces, a brace-free non-empty inside, two closing braces. */
  predicate Braced(t: string) {
    && |t| >= 5
    && t[0] == '{' && t[1] == '{'
    && t[|t| - 2] == '}' && t[|t| - 1] == '}'
    && forall i :: 2 <= i < |t| - 2 ==> !IsBrace(t[i])
  }

  function Interior(t: string): string
    requires Braced(t)
  {
    t[2..|t| - 2]
  }

  /** First index at or after `i` whose character is no capital letter. */
  function LettersEnd(s: string, i: nat): (j: nat)
    requires i <= |s|
    ensures i <= j <= |s| && forall k :: i <= k < j ==> IsUpper(s[k])
    ensures j < |s| ==> !IsUpper(s[j])
    decreases |s| - i
  {
    if i < |s| && IsUpper(s[i]) then LettersEnd(s, i + 1) else i
  }

  /** First index at or after `i` whose character is no digit. */
  function DigitsEnd(s: string, i: nat): (j: nat)
    requires i <= |s|
    ensures i <= j <= |s| && forall k :: i <= k < j ==> IsDigit(s[k])
    ensures j < |s| ==> !IsDigit(s[j])
    decreases |s| - i
  {
    if i < |s| && IsDigit(s[i]) then DigitsEnd(s, i + 1) else i
  }

  datatype TokenParts = TokenParts(short: string, digits: string)

  /** The regular expression `\{\{([A-Z]+)_(\d+)\}\}` matched at the start of
      `key`; like the original it does not ask that the match reach the end. */
  function MatchToken(key: string): (m: Option<TokenParts>)
    ensures m.Some? ==> IsShort(m.value.short) && forall i :: 0 <= i < |m.value.digits| ==> IsDigit(m.value.digits[i])
  {
    if |key| < 2 || key[0] != '{' || key[1] != '{' then None
    else
      var j := LettersEnd(key, 2);
      if j == 2 || j == |key| || key[j] != '_' then None
      else
        var k := DigitsEnd(key, j + 1);
        if k == j + 1 || k + 2 > |key| || key[k] != '}' || key[k + 1] != '}' then None
        else Some(TokenParts(key[2..j], key[j + 1..k]))
  }

  lemma {:induction false} MatchPrinted(short: string, ds: string)
    requires IsShort(short)
    requires ds != [] && forall i :: 0 <= i < |ds| ==> IsDigit(ds[i])
    ensures var t := "{{" + short + "_" + ds + "}}";
            && MatchToken(t) == Some(TokenParts(short, ds))
            && Braced(t) && Interior(t) == short + "_" + ds
  {
    MatchStart("{{" + short + "_" + ds + "}}", short, ds);
    PrintedBraced(short, ds);
  }

  lemma {:induction false} PrintedBraced(short: string, ds: string)
    requires IsShort(short)
    requires ds != [] && forall i :: 0 <= i < |ds| ==> IsDigit(ds[i])
    ensures var t := "{{" + short + "_" + ds + "}}"; Braced(t) && Interior(t) == short + "_" + ds
  {
    var t, inside := "{{" + short + "_" + ds + "}}", short + "_" + ds;
    assert t == "{{" + inside + "}}" && t[2..|t| - 2] == inside;
    assert forall i :: 0 <= i < |inside| ==> t[i + 2] == inside[i] && !IsBrace(inside[i]);
    assert forall i :: 2 <= i < |t| - 2 ==> t[i] == inside[i - 2];
  }

  /** The key starts with a printed token. */
  ghost predicate StartsWithToken(key: string, short: string, ds: string) {
    && IsShort(short) && ds != "" && (forall i :: 0 <= i < |ds| ==> IsDigit(ds[i]))
    && "{{" + short + "_" + ds + "}}" <= key
  }

  /** What the expression matches: a key that starts with a token, and that token's parts. */
  lemma {:induction false} MatchTokenExactly(key: string)
    ensures MatchToken(key).Some? <==> exists short, ds :: StartsWithToken(key, short, ds)
    ensures forall short, ds :: StartsWithToken(key, short, ds) ==> MatchToken(key) == Some(TokenParts(short, ds))
  {
    hide IsUpper, IsDigit, StartsWithToken;
    forall short, ds | StartsWithToken(key, short, ds) ensures MatchToken(key) == Some(TokenParts(short, ds)) {
      MatchStart(key, short, ds);
    }
    if MatchToken(key).Some? { MatchedStart(key); }
  }

  lemma {:induction false} MatchStart(key: string, short: string, ds: string)
    requires StartsWithToken(key, short, ds)
    ensures MatchToken(key) == Some(TokenParts(short, ds))
  {
    var t := "{{" + short + "_" + ds + "}}";
    var a, b := 2 + |short|, 3 + |short| + |ds|;
    assert |t| == b + 2 && t[a] == '_' && t[b] == '}' && t[b + 1] == '}';
    assert t[2..a] == short && t[a + 1..b] == ds;
    assert forall i :: 0 <= i < |t| ==> key[i] == t[i];
    assert forall i :: 2 <= i < a ==> key[i] == short[i - 2];
    assert forall i :: a < i < b ==> key[i] == ds[i - a - 1];
    assert LettersEnd(key, 2) == a;
    assert DigitsEnd(key, a + 1) == b;
    assert key[2..a] == short && key[a + 1..b] == ds;
  }

  lemma {:induction false} MatchedStart(key: string)
    requires MatchToken(key).Some?
    ensures var p := MatchToken(key).value; StartsWithToken(key, p.short, p.digits)
  {
    var p, j := MatchToken(key).value, LettersEnd(key, 2);
    var k := DigitsEnd(key, j + 1);
    var t := "{{" + p.short + "_" + p.digits + "}}";
    assert |t| == k + 2 && forall i :: 0 <= i < |t| ==> t[i] == key[i];
    assert t == key[..k + 2];
  }

  /** Parsing a printed token gives back its short code and its number, so
      printing is injective, and a printed token is braced. */
  lemma {:induction false} TokenRoundTrip(short: string, n: nat)
    requires IsShort(short)
    ensures MatchToken(Token(short, n)) == Some(TokenParts(short, NatText(n)))
    ensures TextNat(NatText(n)) == n
    ensures Braced(Token(short, n))
    ensures Interior(Token(short, n)) == short + "_" + NatText(n)
  {
    NumeralRoundTrip(n);
    MatchPrinted(short, NatText(n));
  }

  lemma {:induction false} TokenInjective(short: string, n: nat, short': string, n': nat)
    requires IsShort(short) && IsShort(short')
    requires Token(short, n) == Token(short', n')
    ensures short == short' && n == n'
  {
    TokenRoundTrip(short, n);
    TokenRoundTrip(short', n');
  }

  /** A token cannot begin inside another token, nor one character before its
      end: at every offset but 0 the opening braces fail to line up. */
  lemma {:induction false} NoPartialOverlap(k: string, t: string, p: nat, s: string)
    requires Braced(k) && Braced(t)
    requires k <= s && p < |s| && t <= s[p..]
    ensures p == 0 ==> k == t
    ensures p == 0 || p >= |k|
  {
    assert forall i :: 0 <= i < |k| ==> s[i] == k[i];
    assert forall i :: 0 <= i < |t| ==> s[p + i] == s[p..][i] == t[i];
    assert !(0 < p < |k|);
    if p == 0 {
      assert |k| == |t| && k == t;
    }
  }

  predicate TokenChar(c: char) {
    IsUpper(c) || IsDigit(c) || c == '_'
  }

  /** A braced key that the expression matches is a whole token, nothing more. */
  lemma {:induction false} WholeToken(t: string)
    requires Braced(t) && MatchToken(t).Some?
    ensures forall i :: 0 <= i < |Interior(t)| ==> TokenChar(Interior(t)[i])
  {
    var j := LettersEnd(t, 2);
    var k := DigitsEnd(t, j + 1);
    assert k == |t| - 2;
    assert forall i :: 2 <= i < k ==> TokenChar(t[i]);
  }
}
