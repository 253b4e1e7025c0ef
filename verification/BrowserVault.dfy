/** The browser's immutable vault: how tokens are assigned and what every vault built
    by assignments keeps. */
module BrowserVault {
  import opened Text
  import opened Tokens
  import opened Detokenizer

  datatype EntityType =
    | PERSON | SSN | EMAIL_ADDRESS | PHONE_NUMBER | CREDIT_CARD | ACCOUNT_NUMBER | LOAN_ID | DATE_TIME

  function TypeName(ty: EntityType): string {
    match ty
    case PERSON => "PERSON"
    case SSN => "SSN"
    case EMAIL_ADDRESS => "EMAIL_ADDRESS"
    case PHONE_NUMBER => "PHONE_NUMBER"
    case CREDIT_CARD => "CREDIT_CARD"
    case ACCOUNT_NUMBER => "ACCOUNT_NUMBER"
    case LOAN_ID => "LOAN_ID"
    case DATE_TIME => "DATE_TIME"
  }

  /** `TOKEN_PREFIX` */
  function Prefix(ty: EntityType): string {
    match ty
    case PERSON => "PERSON"
    case SSN => "SSN"
    case EMAIL_ADDRESS => "EMAIL"
    case PHONE_NUMBER => "PHONE"
    case CREDIT_CARD => "CARD"
    case ACCOUNT_NUMBER => "ACCT"
    case LOAN_ID => "LOAN"
    case DATE_TIME => "DATE"
  }

  /** The browser prints the gateway's short codes, and they read back as its types. */
  lemma {:induction false} PrefixesAgree(ty: EntityType)
    ensures KnownEntity(TypeName(ty)) && Prefix(ty) == ShortOf(TypeName(ty)) && EntityOf(Prefix(ty)) == TypeName(ty)
  {
    match ty
    case PERSON =>
    case SSN =>
    case EMAIL_ADDRESS =>
    case PHONE_NUMBER =>
    case CREDIT_CARD =>
    case ACCOUNT_NUMBER =>
    case LOAN_ID =>
    case DATE_TIME =>
  }

  /** Lower-casing, one character at a time. */
  function Lower(f: char -> char, s: string): (r: string)
    ensures |r| == |s| && forall i :: 0 <= i < |s| ==> r[i] == f(s[i])
  {
    seq(|s|, i requires 0 <= i < |s| => f(s[i]))
  }

  function Key(f: char -> char, ty: EntityType, original: string): string {
    TypeName(ty) + [':'] + Lower(f, original)
  }

  datatype VaultState = VaultState(
    tokenToOrig: seq<Binding>, keyToToken: map<string, string>, counters: map<EntityType, nat>)

  const EMPTY := VaultState([], map[], map[])

  function Count(v: VaultState, ty: EntityType): nat {
    if ty in v.counters then v.counters[ty] else 0
  }

  /** `{ ...entries, [token]: value }`: in place for a known token, at the end for a new
      one. */
  function SetEntry(entries: seq<Binding>, token: string, value: string): seq<Binding> {
    if entries == [] then [Binding(token, value)]
    else if entries[0].token == token then [Binding(token, value)] + entries[1..]
    else [entries[0]] + SetEntry(entries[1..], token, value)
  }

  function AssignToken(f: char -> char, ty: EntityType, original: string, vault: VaultState): (string, VaultState) {
    var key := Key(f, ty, original);
    if key in vault.keyToToken && vault.keyToToken[key] != "" then (vault.keyToToken[key], vault)
    else
      var count := Count(vault, ty) + 1;
      var token := Token(Prefix(ty), count);
      (token, VaultState(SetEntry(vault.tokenToOrig, token, original),
                         vault.keyToToken[key := token], vault.counters[ty := count]))
  }

  // --------------------------------------------------------------------- invariant

  ghost predicate KeyOf(f: char -> char, k: string, ty: EntityType, original: string) {
    k == Key(f, ty, original)
  }

  /** The `n`-th token of a type, bound to the value its key was made from. */
  ghost predicate Holds(f: char -> char, v: VaultState, k: string, ty: EntityType, n: nat, original: string) {
    && 1 <= n <= Count(v, ty)
    && KeyOf(f, k, ty, original)
    && k in v.keyToToken && v.keyToToken[k] == Token(Prefix(ty), n)
    && Binding(Token(Prefix(ty), n), original) in v.tokenToOrig
  }

  ghost function KeysOf(v: VaultState, ty: EntityType): set<string> {
    set k | k in v.keyToToken && TypeName(ty) + [':'] <= k
  }

  ghost predicate Injective(m: map<string, string>) {
    forall k, l :: k in m && l in m && m[k] == m[l] ==> k == l
  }

  ghost predicate KeyHeld(f: char -> char, v: VaultState, k: string) {
    exists ty, n: nat, original :: Holds(f, v, k, ty, n, original)
  }

  ghost predicate EntryHeld(f: char -> char, v: VaultState, b: Binding) {
    exists k, ty, n: nat :: Holds(f, v, k, ty, n, b.value) && b.token == Token(Prefix(ty), n)
  }

  ghost predicate Counted(v: VaultState) {
    forall ty :: Count(v, ty) == |KeysOf(v, ty)|
  }

  /** Every key has its own token, every token one value of that key, and a type's
      counter counts its keys. */
  ghost predicate Sound(f: char -> char, v: VaultState) {
    && Injective(v.keyToToken)
    && DistinctTokens(v.tokenToOrig)
    && (forall k :: k in v.keyToToken ==> KeyHeld(f, v, k))
    && (forall b :: b in v.tokenToOrig ==> EntryHeld(f, v, b))
    && Counted(v)
  }

  /** Nothing assigned is taken back or changed. */
  ghost predicate Grows(v: VaultState, w: VaultState) {
    && v.tokenToOrig <= w.tokenToOrig
    && (forall k :: k in v.keyToToken ==> k in w.keyToToken && w.keyToToken[k] == v.keyToToken[k])
    && (forall ty :: Count(v, ty) <= Count(w, ty))
  }

  lemma {:induction false} PrefixIsShort(ty: EntityType)
    ensures IsShort(Prefix(ty))
  {
  }

  lemma {:induction false} TypeNamesPlain(a: EntityType, b: EntityType)
    ensures ':' !in TypeName(a)
    ensures TypeName(a) == TypeName(b) ==> a == b
    ensures Prefix(a) == Prefix(b) ==> a == b
  {
  }

  /** Two values share a key exactly when they are one type's and differ at most in
      letter case. */
  lemma {:induction false} KeysMatch(f: char -> char, a: EntityType, x: string, b: EntityType, y: string)
    ensures Key(f, a, x) == Key(f, b, y) <==> a == b && Lower(f, x) == Lower(f, y)
  {
    TypeNamesPlain(a, b);
    TypeNamesPlain(b, a);
    hide TypeName, Lower;
    if Key(f, a, x) == Key(f, b, y) {
      NamesEndAtSeparator(':', TypeName(a), Lower(f, x), TypeName(b), Lower(f, y));
    }
  }

  lemma {:induction false} KeyHasType(f: char -> char, ty: EntityType, a: EntityType, x: string)
    ensures TypeName(ty) + [':'] <= Key(f, a, x) <==> a == ty
  {
    TypeNamesPlain(a, ty);
    TypeNamesPlain(ty, a);
    hide TypeName, Lower;
    var p, k := TypeName(ty) + [':'], Key(f, a, x);
    if p <= k {
      assert k == TypeName(ty) + [':'] + k[|p|..];
      NamesEndAtSeparator(':', TypeName(ty), k[|p|..], TypeName(a), Lower(f, x));
    }
  }

  lemma {:induction false} NumbersApart(a: EntityType, m: nat, b: EntityType, n: nat)
    ensures Token(Prefix(a), m) == Token(Prefix(b), n) <==> a == b && m == n
  {
    PrefixIsShort(a);
    PrefixIsShort(b);
    TypeNamesPlain(a, b);
    hide Prefix, TypeName, Token;
    if Token(Prefix(a), m) == Token(Prefix(b), n) {
      TokenInjective(Prefix(a), m, Prefix(b), n);
    }
  }

  lemma {:induction false} NewEntryAtEnd(entries: seq<Binding>, token: string, value: string)
    requires forall b :: b in entries ==> b.token != token
    ensures SetEntry(entries, token, value) == entries + [Binding(token, value)]
    decreases |entries|
  {
    if entries != [] {
      assert entries[0] in entries;
      NewEntryAtEnd(entries[1..], token, value);
    }
  }

  /** The next number's token is not in the vault. */
  lemma {:induction false} NextTokenIsNew(f: char -> char, v: VaultState, ty: EntityType)
    requires Sound(f, v)
    ensures var t := Token(Prefix(ty), Count(v, ty) + 1);
      && (forall b :: b in v.tokenToOrig ==> b.token != t)
      && forall k :: k in v.keyToToken ==> v.keyToToken[k] != t
  {
    hide Token, Prefix, TypeName, Holds, Count, Counted, Injective, DistinctTokens;
    forall b | b in v.tokenToOrig ensures b.token != Token(Prefix(ty), Count(v, ty) + 1) {
      var k, ty', n: nat :| Holds(f, v, k, ty', n, b.value) && b.token == Token(Prefix(ty'), n);
      HeldNumber(f, v, k, ty', n, b.value, ty);
    }
    forall k | k in v.keyToToken ensures v.keyToToken[k] != Token(Prefix(ty), Count(v, ty) + 1) {
      var ty', n: nat, original :| Holds(f, v, k, ty', n, original);
      HeldNumber(f, v, k, ty', n, original, ty);
    }
  }

  lemma {:induction false} HeldNumber(f: char -> char, v: VaultState, k: string, a: EntityType, n: nat, original: string, b: EntityType)
    requires Holds(f, v, k, a, n, original)
    ensures k in v.keyToToken && v.keyToToken[k] == Token(Prefix(a), n) && Token(Prefix(a), n) != Token(Prefix(b), Count(v, b) + 1)
  {
    hide Token, Prefix, KeyOf;
    NumbersApart(a, n, b, Count(v, b) + 1);
  }

  /** A vault after a value without a key has been assigned the next token. */
  function Extended(f: char -> char, v: VaultState, ty: EntityType, original: string): VaultState {
    var token := Token(Prefix(ty), Count(v, ty) + 1);
    VaultState(v.tokenToOrig + [Binding(token, original)],
               v.keyToToken[Key(f, ty, original) := token], v.counters[ty := Count(v, ty) + 1])
  }

  lemma {:induction false} ExtendingGrows(f: char -> char, v: VaultState, ty: EntityType, original: string)
    requires Key(f, ty, original) !in v.keyToToken
    ensures Grows(v, Extended(f, v, ty, original))
  {
    hide Token, Prefix, Key;
  }

  lemma {:induction false} HoldsGrows(f: char -> char, v: VaultState, w: VaultState, k: string, ty: EntityType, n: nat, original: string)
    requires Grows(v, w) && Holds(f, v, k, ty, n, original)
    ensures Holds(f, w, k, ty, n, original)
  {
    hide Token, Prefix, KeyOf;
    var i :| 0 <= i < |v.tokenToOrig| && v.tokenToOrig[i] == Binding(Token(Prefix(ty), n), original);
    assert w.tokenToOrig[i] == v.tokenToOrig[i];
  }

  lemma {:induction false} ExtendingKeeps(f: char -> char, v: VaultState, ty: EntityType, original: string)
    requires Sound(f, v) && Key(f, ty, original) !in v.keyToToken
    ensures Sound(f, Extended(f, v, ty, original))
  {
    hide Token, Prefix, Key, Count, Grows, Counted, KeyHeld, EntryHeld, Sound;
    var w, key, t := Extended(f, v, ty, original), Key(f, ty, original), Token(Prefix(ty), Count(v, ty) + 1);
    NextTokenIsNew(f, v, ty);
    ExtendingGrows(f, v, ty, original);
    CountsKeep(f, v, ty, original);
    NewKeyHolds(f, v, ty, original);
    AddingKeeps(f, v, w, key, Binding(t, original));
  }

  lemma {:induction false} AddingKeeps(f: char -> char, v: VaultState, w: VaultState, key: string, b: Binding)
    requires Sound(f, v) && Grows(v, w) && Counted(w) && KeyHeld(f, w, key) && EntryHeld(f, w, b)
    requires w.tokenToOrig == v.tokenToOrig + [b] && forall e :: e in v.tokenToOrig ==> e.token != b.token
    requires w.keyToToken == v.keyToToken[key := b.token] && key !in v.keyToToken
    requires forall k :: k in v.keyToToken ==> v.keyToToken[k] != b.token
    ensures Sound(f, w)
  {
    hide Grows, Counted, KeyHeld, EntryHeld, Injective, DistinctTokens;
    StaysInjective(v.keyToToken, key, b.token);
    StaysDistinct(v.tokenToOrig, b);
    forall k | k in w.keyToToken ensures KeyHeld(f, w, k) {
      if k != key { HeldKeyStays(f, v, w, k); }
    }
    forall e | e in w.tokenToOrig ensures EntryHeld(f, w, e) {
      if e in v.tokenToOrig { HeldEntryStays(f, v, w, e); }
    }
  }

  lemma {:induction false} StaysInjective(m: map<string, string>, key: string, t: string)
    requires Injective(m) && key !in m && forall k :: k in m ==> m[k] != t
    ensures Injective(m[key := t])
  {
  }

  lemma {:induction false} StaysDistinct(entries: seq<Binding>, b: Binding)
    requires DistinctTokens(entries) && forall e :: e in entries ==> e.token != b.token
    ensures DistinctTokens(entries + [b])
  {
  }

  lemma {:induction false} NewKeyHolds(f: char -> char, v: VaultState, ty: EntityType, original: string)
    ensures var w := Extended(f, v, ty, original);
      KeyHeld(f, w, Key(f, ty, original)) && EntryHeld(f, w, Binding(Token(Prefix(ty), Count(v, ty) + 1), original))
  {
    hide Token, Prefix, Key;
    var w, n := Extended(f, v, ty, original), Count(v, ty) + 1;
    assert w.tokenToOrig[|v.tokenToOrig|] == Binding(Token(Prefix(ty), n), original);
    assert Holds(f, w, Key(f, ty, original), ty, n, original);
  }

  lemma {:induction false} HeldKeyStays(f: char -> char, v: VaultState, w: VaultState, k: string)
    requires Grows(v, w) && KeyHeld(f, v, k)
    ensures KeyHeld(f, w, k)
  {
    hide Holds, Grows;
    var ty, n: nat, o :| Holds(f, v, k, ty, n, o);
    HoldsGrows(f, v, w, k, ty, n, o);
  }

  lemma {:induction false} HeldEntryStays(f: char -> char, v: VaultState, w: VaultState, b: Binding)
    requires Grows(v, w) && EntryHeld(f, v, b)
    ensures EntryHeld(f, w, b)
  {
    hide Holds, Grows, Token, Prefix;
    var k, ty, n: nat :| Holds(f, v, k, ty, n, b.value) && b.token == Token(Prefix(ty), n);
    HoldsGrows(f, v, w, k, ty, n, b.value);
  }

  lemma {:induction false} CountsKeep(f: char -> char, v: VaultState, ty: EntityType, original: string)
    requires Key(f, ty, original) !in v.keyToToken && Sound(f, v)
    ensures Counted(Extended(f, v, ty, original))
  {
    hide KeysOf, Counted, Key, Sound, Token, Prefix;
    var w, key := Extended(f, v, ty, original), Key(f, ty, original);
    forall a ensures Count(w, a) == |KeysOf(w, a)| {
      CountedAt(f, v, a);
      KeysOfExtended(f, v, ty, original, a);
    }
    AllCounted(w);
  }

  lemma {:induction false} CountedAt(f: char -> char, v: VaultState, a: EntityType)
    requires Sound(f, v)
    ensures Count(v, a) == |KeysOf(v, a)|
  {
    hide Count, KeysOf, KeyHeld, EntryHeld, Injective, DistinctTokens;
  }

  lemma {:induction false} AllCounted(v: VaultState)
    requires forall a :: Count(v, a) == |KeysOf(v, a)|
    ensures Counted(v)
  {
    hide Count, KeysOf;
  }

  lemma {:induction false} KeysOfExtended(f: char -> char, v: VaultState, ty: EntityType, original: string, a: EntityType)
    requires Key(f, ty, original) !in v.keyToToken
    ensures |KeysOf(Extended(f, v, ty, original), a)| == |KeysOf(v, a)| + if a == ty then 1 else 0
  {
    var w, key := Extended(f, v, ty, original), Key(f, ty, original);
    KeyHasType(f, a, ty, original);
    hide Token, Prefix, Key, TypeName;
    var added: set<string> := if a == ty then {key} else {};
    assert KeysOf(w, a) == KeysOf(v, a) + added;
  }

  /** One assignment: the vault stays sound, nothing in it changes, and the token is the
      key's from now on. */
  lemma {:induction false} AssigningKeeps(f: char -> char, v: VaultState, ty: EntityType, original: string)
    requires Sound(f, v)
    ensures var (t, w) := AssignToken(f, ty, original, v);
      var key := Key(f, ty, original);
      && Sound(f, w) && Grows(v, w)
      && key in w.keyToToken && w.keyToToken[key] == t && Braced(t)
      && (key in v.keyToToken ==> w == v)
      && (key !in v.keyToToken ==> Binding(t, original) in w.tokenToOrig && w == Extended(f, v, ty, original))
  {
    var (t, w) := AssignToken(f, ty, original, v);
    var key := Key(f, ty, original);
    if key in v.keyToToken {
      KnownToken(f, v, key);
      hide Key, Token, Prefix;
      GrowsItself(v);
    } else {
      NextTokenIsNew(f, v, ty);
      NewEntryAtEnd(v.tokenToOrig, Token(Prefix(ty), Count(v, ty) + 1), original);
      PrefixIsShort(ty);
      TokenRoundTrip(Prefix(ty), Count(v, ty) + 1);
      hide Key, Token, Prefix, Sound, Grows;
      assert w == Extended(f, v, ty, original);
      ExtendingGrows(f, v, ty, original);
      ExtendingKeeps(f, v, ty, original);
    }
  }

  lemma {:induction false} KnownToken(f: char -> char, v: VaultState, key: string)
    requires Sound(f, v) && key in v.keyToToken
    ensures v.keyToToken[key] != "" && Braced(v.keyToToken[key])
  {
    hide Token, Prefix, Counted, EntryHeld, DistinctTokens, Injective, KeyOf;
    assert KeyHeld(f, v, key);
    var ty, n: nat, original :| Holds(f, v, key, ty, n, original);
    PrefixIsShort(ty);
    TokenRoundTrip(Prefix(ty), n);
  }

  lemma {:induction false} GrowsItself(v: VaultState)
    ensures Grows(v, v)
  {
  }

  lemma {:induction false} GrowsTransitive(u: VaultState, v: VaultState, w: VaultState)
    requires Grows(u, v) && Grows(v, w)
    ensures Grows(u, w)
  {
  }

  lemma {:induction false} EmptyIsSound(f: char -> char)
    ensures Sound(f, EMPTY)
  {
  }

  // ------------------------------------------------------------------- first seen

  /** The value a key's token is bound to: the casing it was first seen in. */
  ghost predicate FirstSeen(f: char -> char, v: VaultState, ty: EntityType, original: string, cased: string) {
    var key := Key(f, ty, original);
    && key in v.keyToToken
    && Binding(v.keyToToken[key], cased) in v.tokenToOrig
    && Lower(f, cased) == Lower(f, original)
  }

  /** A token names one value of its key, up to letter case. */
  lemma {:induction false} KeyIsBound(f: char -> char, v: VaultState, ty: EntityType, original: string) returns (cased: string)
    requires Sound(f, v) && Key(f, ty, original) in v.keyToToken
    ensures FirstSeen(f, v, ty, original, cased)
  {
    var key := Key(f, ty, original);
    hide Token, Prefix, TypeName, Key, Counted, EntryHeld, DistinctTokens, Injective;
    assert KeyHeld(f, v, key);
    var ty', n: nat, o :| Holds(f, v, key, ty', n, o);
    KeysMatch(f, ty', o, ty, original);
    cased := o;
  }

  lemma {:induction false} FirstSeenUnique(f: char -> char, v: VaultState, ty: EntityType, original: string, x: string, y: string)
    requires Sound(f, v) && FirstSeen(f, v, ty, original, x) && FirstSeen(f, v, ty, original, y)
    ensures x == y
  {
    hide Token, Prefix, TypeName, Key, Lower, KeyHeld, EntryHeld, Counted, Injective;
    var t := v.keyToToken[Key(f, ty, original)];
    var i :| 0 <= i < |v.tokenToOrig| && v.tokenToOrig[i] == Binding(t, x);
    var j :| 0 <= j < |v.tokenToOrig| && v.tokenToOrig[j] == Binding(t, y);
  }
}
