/** What one session's Redis keys say while none of them has expired. */
module Vault {
  import opened Tokens
  import opened Minting

  /** `hashes` and `counters` are the minting keys, `tokens` the reversal map. */
  datatype Vault = Vault(hashes: map<Digest, string>, counters: map<string, nat>, tokens: map<string, string>)

  const EMPTY_VAULT := Vault(map[], map[], map[])

  /** One undisturbed `get_or_create_token_for_hash`. */
  function MintToken(v: Vault, d: Digest): (v': Vault)
    ensures d in v'.hashes
  {
    if d in v.hashes then v
    else
      var n := Count(v.counters, d.entity) + 1;
      v.(hashes := v.hashes[d := TokenFor(d, n)], counters := v.counters[d.entity := n])
  }

  function MintAll(v: Vault, ds: seq<Digest>): Vault
    decreases |ds|
  {
    if ds == [] then v else MintAll(MintToken(v, ds[0]), ds[1..])
  }

  function MergeTokens(v: Vault, added: map<string, string>): Vault {
    v.(tokens := v.tokens + added)
  }

  // ------------------------------------------------------------------ invariant

  /** The stored tokens are the printed forms of distinct counted-out numbers. */
  ghost predicate Numbered(v: Vault, nums: map<Digest, nat>) {
    && nums.Keys == v.hashes.Keys
    && (forall d :: d in nums ==>
          && Mintable(d.entity) && v.hashes[d] == TokenFor(d, nums[d])
          && 1 <= nums[d] <= Count(v.counters, d.entity))
    && (forall d, d' :: d in nums && d' in nums && d != d' && d.entity == d'.entity ==> nums[d] != nums[d'])
  }

  /** Every entry of the reversal map undoes a minted token. */
  ghost predicate Reverses(v: Vault) {
    forall t :: t in v.tokens ==> exists d :: d in v.hashes && v.hashes[d] == t && v.tokens[t] == d.value
  }

  ghost predicate Sound(v: Vault) {
    Reverses(v) && exists nums :: Numbered(v, nums)
  }

  /** No binding of `v` is lost or changed in `w`. */
  ghost predicate Grows(v: Vault, w: Vault) {
    && (forall d :: d in v.hashes ==> d in w.hashes && w.hashes[d] == v.hashes[d])
    && (forall t :: t in v.tokens ==> t in w.tokens && w.tokens[t] == v.tokens[t])
  }

  lemma {:induction false} EmptySound()
    ensures Sound(EMPTY_VAULT)
  {
    assert Numbered(EMPTY_VAULT, map[]);
  }

  /** The token is whole and the detokenizer reads the entity type off it. */
  ghost predicate ReadsBack(token: string, entity: string) {
    && Braced(token)
    && MatchToken(token).Some?
    && EntityOf(MatchToken(token).value.short) == entity
  }

  lemma {:induction false} TokensInjective(v: Vault)
    requires Sound(v)
    ensures forall d, d' :: d in v.hashes && d' in v.hashes && v.hashes[d] == v.hashes[d'] ==> d == d'
  {
    var nums :| Numbered(v, nums);
    forall d, d' | d in v.hashes && d' in v.hashes && v.hashes[d] == v.hashes[d']
      ensures d == d'
    {
      TokensApart(d, nums[d], d', nums[d']);
    }
  }

  lemma {:induction false} TokensReadBack(v: Vault)
    requires Sound(v)
    ensures forall d :: d in v.hashes ==> ReadsBack(v.hashes[d], d.entity)
  {
    var nums :| Numbered(v, nums);
    forall d | d in v.hashes
      ensures ReadsBack(v.hashes[d], d.entity)
    {
      TokenRoundTrip(ShortOf(d.entity), nums[d]);
    }
  }

  lemma {:induction false} TokensNonEmpty(v: Vault)
    requires Sound(v)
    ensures forall d :: d in v.hashes ==> v.hashes[d] != ""
  {
    TokensReadBack(v);
  }

  /** Skipping a counter value, as a failed or losing call does, harms nothing. */
  lemma {:induction false} CountingKeeps(v: Vault, entity: string)
    requires Sound(v)
    ensures Sound(Counted(v, entity)) && Grows(v, Counted(v, entity))
  {
    hide Mintable, TokenFor;
    var nums :| Numbered(v, nums);
    assert Numbered(Counted(v, entity), nums);
  }

  lemma {:induction false} ReversesMore(v: Vault, w: Vault)
    requires Reverses(v) && w.tokens == v.tokens
    requires forall d :: d in v.hashes ==> d in w.hashes && w.hashes[d] == v.hashes[d]
    ensures Reverses(w)
  {
    forall t | t in w.tokens
      ensures exists d :: d in w.hashes && w.hashes[d] == t && w.tokens[t] == d.value
    {
      var d :| d in v.hashes && v.hashes[d] == t && v.tokens[t] == d.value;
      assert d in w.hashes;
    }
  }

  lemma {:induction false} MintingKeeps(v: Vault, d: Digest)
    requires Sound(v) && Mintable(d.entity)
    ensures Sound(MintToken(v, d)) && Grows(v, MintToken(v, d))
  {
    hide Numbered, TokenFor, Mintable;
    var w := MintToken(v, d);
    if d !in v.hashes {
      var nums :| Numbered(v, nums);
      NumberNext(v, nums, d);
      ReversesMore(v, w);
    }
  }

  lemma {:induction false} NumberNext(v: Vault, nums: map<Digest, nat>, d: Digest)
    requires Numbered(v, nums) && d !in v.hashes && Mintable(d.entity)
    ensures Numbered(MintToken(v, d), nums[d := Count(v.counters, d.entity) + 1])
  {
    hide Mintable, TokenFor;
  }

  function Counted(v: Vault, entity: string): Vault {
    v.(counters := v.counters[entity := Count(v.counters, entity) + 1])
  }

  /** Where a minting call may stop: before INCR, before SET NX, or after it. */
  ghost predicate MintOutcome(v: Vault, w: Vault, d: Digest) {
    w == v || w == Counted(v, d.entity) || w == MintToken(v, d)
  }

  /** Wherever a minting call stops, the vault is sound and lost nothing. */
  lemma {:induction false} OutcomeKept(v: Vault, w: Vault, d: Digest)
    requires Sound(v) && Mintable(d.entity) && (w == v || MintOutcome(v, w, d))
    ensures Sound(w) && Grows(v, w)
  {
    hide Sound, Mintable, TokenFor, Grows;
    GrowsItself(v);
    CountingKeeps(v, d.entity);
    MintingKeeps(v, d);
  }

  lemma {:induction false} GrowsItself(v: Vault)
    ensures Grows(v, v)
  {
  }

  lemma {:induction false} GrowsTransitive(u: Vault, v: Vault, w: Vault)
    requires Grows(u, v) && Grows(v, w)
    ensures Grows(u, w)
  {
  }

  lemma {:induction false} MintingAllKeeps(v: Vault, ds: seq<Digest>)
    requires Sound(v) && forall d :: d in ds ==> Mintable(d.entity)
    ensures Sound(MintAll(v, ds)) && Grows(v, MintAll(v, ds))
    ensures forall d :: d in ds ==> d in MintAll(v, ds).hashes
    ensures MintAll(v, ds).tokens == v.tokens
    decreases |ds|
  {
    hide Sound, Mintable;
    if ds != [] {
      MintingKeeps(v, ds[0]);
      MintingAllKeeps(MintToken(v, ds[0]), ds[1..]);
      GrowsTransitive(v, MintToken(v, ds[0]), MintAll(v, ds));
    }
  }

  lemma {:induction false} MintAllAppend(v: Vault, ds: seq<Digest>, d: Digest)
    ensures MintAll(v, ds + [d]) == MintToken(MintAll(v, ds), d)
    decreases |ds|
  {
    if ds == [] {
      assert [d][1..] == [];
    } else {
      assert (ds + [d])[0] == ds[0] && (ds + [d])[1..] == ds[1..] + [d];
      MintAllAppend(MintToken(v, ds[0]), ds[1..], d);
    }
  }

  lemma {:induction false} MergingKeeps(v: Vault, added: map<string, string>)
    requires Sound(v)
    requires forall t :: t in added ==> exists d :: d in v.hashes && v.hashes[d] == t && added[t] == d.value
    ensures Sound(MergeTokens(v, added)) && Grows(v, MergeTokens(v, added))
    ensures var w := MergeTokens(v, added).tokens;
      && w.Keys == v.tokens.Keys + added.Keys
      && forall t :: t in w ==> w[t] == if t in added then added[t] else v.tokens[t]
  {
    var nums :| Numbered(v, nums);
    NumberedSame(v, MergeTokens(v, added), nums);
    MergingReverses(v, added);
    MergingGrows(v, added);
  }

  lemma {:induction false} NumberedSame(v: Vault, w: Vault, nums: map<Digest, nat>)
    requires Numbered(v, nums) && w.hashes == v.hashes && w.counters == v.counters
    ensures Numbered(w, nums)
  {
    hide Mintable, TokenFor;
  }

  lemma {:induction false} MergingGrows(v: Vault, added: map<string, string>)
    requires Sound(v)
    requires forall t :: t in added ==> exists d :: d in v.hashes && v.hashes[d] == t && added[t] == d.value
    ensures Grows(v, MergeTokens(v, added))
  {
    hide Sound;
    forall t | t in v.tokens && t in added
      ensures added[t] == v.tokens[t]
    {
      MergingAgrees(v, added, t);
    }
  }

  lemma {:induction false} MergingAgrees(v: Vault, added: map<string, string>, t: string)
    requires Sound(v) && t in v.tokens && t in added
    requires exists d :: d in v.hashes && v.hashes[d] == t && added[t] == d.value
    ensures added[t] == v.tokens[t]
  {
    TokensInjective(v);
    var d :| d in v.hashes && v.hashes[d] == t && added[t] == d.value;
    var d' :| d' in v.hashes && v.hashes[d'] == t && v.tokens[t] == d'.value;
    assert d == d';
  }

  lemma {:induction false} MergingReverses(v: Vault, added: map<string, string>)
    requires Reverses(v)
    requires forall t :: t in added ==> exists d :: d in v.hashes && v.hashes[d] == t && added[t] == d.value
    ensures Reverses(MergeTokens(v, added))
  {
    var w := MergeTokens(v, added);
    forall t | t in w.tokens
      ensures exists d :: d in w.hashes && w.hashes[d] == t && w.tokens[t] == d.value
    {
      if t in added {
        var d :| d in v.hashes && v.hashes[d] == t && added[t] == d.value;
        assert d in w.hashes;
      } else {
        var d :| d in v.hashes && v.hashes[d] == t && v.tokens[t] == d.value;
        assert d in w.hashes;
      }
    }
  }

  /** The vault's tokens are the printed forms of the protocol's numbers. */
  ghost predicate Prints(v: Vault, s: State) {
    && v.counters == s.counters && v.hashes.Keys == s.hashes.Keys
    && forall e :: e in s.hashes ==> v.hashes[e] == TokenFor(e, s.hashes[e])
  }

  /** The undisturbed call is a run of the protocol by a caller alone: the call finishes
      with the token the vault then holds, and leaves the store the vault says. */
  lemma {:induction false} MintTokenIsProtocol(v: Vault, s: State, id: nat, d: Digest)
    requires Prints(v, s) && id !in s.calls
    ensures var w, t := MintToken(v, d), Run(s, [Begin(id, d)] + Four(id));
      && Prints(w, t)
      && id in t.calls && t.calls[id].digest == d && t.calls[id].at.Done?
      && w.hashes[d] == TokenFor(d, t.calls[id].at.count)
  {
    hide TokenFor, Run, Four;
    AloneIsMint(s, id, d);
    if d in v.hashes {
      assert s.hashes[d := s.hashes[d]] == s.hashes;
    }
  }
}
