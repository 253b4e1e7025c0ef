/** The detection harness: greedy span matching, per-type counts and micro averages. */
module Evaluation {
  import opened Intervals
  import opened Tokens

  datatype Detection = Detection(ty: string, start: int, end: int)

  datatype Label = Label(ty: string, value: string)

  datatype Example = Example(text: string, entities: seq<Label>, domain: Option<string>)

  /** A labelled value where it stands in the text. */
  datatype Gold = Gold(ty: string, start: int, end: int, value: string)

  type Detector = string -> seq<Detection>

  // ------------------------------------------------------------------- gold spans

  predicate OccursAt(v: string, s: string, i: nat) {
    i + |v| <= |s| && s[i..i + |v|] == v
  }

  /** `s.find(v)`, from position `i` on. */
  function FindFrom(s: string, v: string, i: nat): (r: Option<nat>)
    requires i <= |s|
    ensures r.Some? ==> OccursAt(v, s, r.value) && forall j :: i <= j < r.value ==> !OccursAt(v, s, j)
    ensures r.None? ==> forall j :: i <= j ==> !OccursAt(v, s, j)
    decreases |s| - i
  {
    if OccursAt(v, s, i) then Some(i) else if i == |s| then None else FindFrom(s, v, i + 1)
  }

  /** The labels resolved to spans, or nothing when a value is not in the text. */
  function GoldSpans(text: string, labels: seq<Label>): (r: Option<seq<Gold>>)
    ensures r.Some? ==> |r.value| == |labels|
  {
    if labels == [] then Some([])
    else
      var init, l := GoldSpans(text, labels[..|labels| - 1]), labels[|labels| - 1];
      var at := FindFrom(text, l.value, 0);
      if init.None? || at.None? then None
      else Some(init.value + [Gold(l.ty, at.value, at.value + |l.value|, l.value)])
  }

  // --------------------------------------------------------------- greedy matching

  predicate Fits(d: Detection, g: Gold) {
    d.ty == g.ty && Overlaps(d.start, d.end, g.start, g.end)
  }

  /** The first unused gold span, from `i` on, that a detection fits. */
  function FirstFree(d: Detection, gold: seq<Gold>, used: set<nat>, i: nat): (r: Option<nat>)
    requires i <= |gold|
    ensures r.Some? ==> i <= r.value < |gold| && r.value !in used && Fits(d, gold[r.value])
    ensures r.Some? ==> forall j :: i <= j < r.value ==> j in used || !Fits(d, gold[j])
    ensures r.None? ==> forall j :: i <= j < |gold| ==> j in used || !Fits(d, gold[j])
    decreases |gold| - i
  {
    if i == |gold| then None
    else if i !in used && Fits(d, gold[i]) then Some(i)
    else FirstFree(d, gold, used, i + 1)
  }

  /** Which detection takes which gold span. */
  function Matching(dets: seq<Detection>, gold: seq<Gold>): map<nat, nat> {
    if dets == [] then map[]
    else
      var n := |dets| - 1;
      var m := Matching(dets[..n], gold);
      var g := FirstFree(dets[n], gold, m.Values, 0);
      if g.None? then m else m[n := g.value]
  }

  /** No gold span is taken twice, and only by a detection of its type that overlaps it. */
  lemma {:induction false} MatchingIsOneToOne(dets: seq<Detection>, gold: seq<Gold>)
    ensures var m := Matching(dets, gold);
      && (forall d :: d in m ==> d < |dets| && m[d] < |gold| && Fits(dets[d], gold[m[d]]))
      && forall d, e :: d in m && e in m && m[d] == m[e] ==> d == e
    decreases |dets|
  {
    hide Fits;
    if dets != [] {
      var n := |dets| - 1;
      MatchingIsOneToOne(dets[..n], gold);
      var m := Matching(dets[..n], gold);
      var g := FirstFree(dets[n], gold, m.Values, 0);
      assert forall d :: d in m ==> m[d] in m.Values;
    }
  }

  /** The matching cannot be enlarged: a detection left over fits no gold span left over. */
  lemma {:induction false} MatchingIsMaximal(dets: seq<Detection>, gold: seq<Gold>, d: nat, g: nat)
    requires d < |dets| && g < |gold|
    requires d !in Matching(dets, gold) && g !in Matching(dets, gold).Values
    ensures !Fits(dets[d], gold[g])
    decreases |dets|
  {
    hide Fits;
    var n := |dets| - 1;
    var m := Matching(dets[..n], gold);
    EarlierMatchesStay(dets, gold, g);
    if d < n {
      MatchingIsMaximal(dets[..n], gold, d, g);
    } else {
      var found := FirstFree(dets[n], gold, m.Values, 0);
    }
  }

  lemma {:induction false} EarlierMatchesStay(dets: seq<Detection>, gold: seq<Gold>, g: nat)
    requires dets != []
    ensures var m := Matching(dets[..|dets| - 1], gold);
      (g in m.Values ==> g in Matching(dets, gold).Values) && forall d :: d in m ==> d in Matching(dets, gold)
  {
    hide Fits;
    MatchingIsOneToOne(dets[..|dets| - 1], gold);
    var m := Matching(dets[..|dets| - 1], gold);
    assert forall d :: d in m ==> d in Matching(dets, gold) && Matching(dets, gold)[d] == m[d];
  }

  // ------------------------------------------------------------------------ counts

  function One(b: bool): nat {
    if b then 1 else 0
  }

  /** Whether the last detection finds a free gold span. */
  predicate LastHits(dets: seq<Detection>, gold: seq<Gold>)
    requires dets != []
  {
    FirstFree(dets[|dets| - 1], gold, Matching(dets[..|dets| - 1], gold).Values, 0).Some?
  }

  function Tp(dets: seq<Detection>, gold: seq<Gold>, t: string): nat {
    if dets == [] then 0
    else Tp(dets[..|dets| - 1], gold, t) + One(LastHits(dets, gold) && dets[|dets| - 1].ty == t)
  }

  function Fp(dets: seq<Detection>, gold: seq<Gold>, t: string): nat {
    if dets == [] then 0
    else Fp(dets[..|dets| - 1], gold, t) + One(!LastHits(dets, gold) && dets[|dets| - 1].ty == t)
  }

  /** Gold spans of a type that are not in `used`. */
  function Unused(gold: seq<Gold>, used: set<nat>, t: string): nat {
    if gold == [] then 0
    else Unused(gold[..|gold| - 1], used, t) + One(|gold| - 1 !in used && gold[|gold| - 1].ty == t)
  }

  function Fn(dets: seq<Detection>, gold: seq<Gold>, t: string): nat {
    Unused(gold, Matching(dets, gold).Values, t)
  }

  function DetectionsOf(dets: seq<Detection>, t: string): nat {
    if dets == [] then 0 else DetectionsOf(dets[..|dets| - 1], t) + One(dets[|dets| - 1].ty == t)
  }

  function GoldOf(gold: seq<Gold>, t: string): nat {
    Unused(gold, {}, t)
  }

  lemma {:induction false} UnusedAdd(gold: seq<Gold>, used: set<nat>, g: nat, t: string)
    requires g !in used
    ensures Unused(gold, used, t) == Unused(gold, used + {g}, t) + One(g < |gold| && gold[g].ty == t)
    decreases |gold|
  {
    if gold != [] { UnusedAdd(gold[..|gold| - 1], used, g, t); }
  }

  /** Detections are hits or false alarms, labels hits or misses, type by type. */
  lemma {:induction false} CountsConserve(dets: seq<Detection>, gold: seq<Gold>, t: string)
    ensures Tp(dets, gold, t) + Fp(dets, gold, t) == DetectionsOf(dets, t)
    ensures Tp(dets, gold, t) + Fn(dets, gold, t) == GoldOf(gold, t)
    decreases |dets|
  {
    hide Fits, FirstFree;
    if dets != [] {
      var n := |dets| - 1;
      CountsConserve(dets[..n], gold, t);
      var m := Matching(dets[..n], gold);
      var g := FirstFree(dets[n], gold, m.Values, 0);
      if g.Some? {
        MatchedValues(m, n, g.value, dets[..n], gold);
        UnusedAdd(gold, m.Values, g.value, t);
        SameType(dets[n], gold[g.value]);
      }
    } else {
      assert Matching(dets, gold).Values == {};
    }
  }

  lemma {:induction false} SameType(d: Detection, g: Gold)
    requires Fits(d, g)
    ensures d.ty == g.ty
  {
  }

  lemma {:induction false} MatchedValues(m: map<nat, nat>, n: nat, g: nat, dets: seq<Detection>, gold: seq<Gold>)
    requires m == Matching(dets, gold) && n == |dets|
    ensures m[n := g].Values == m.Values + {g}
  {
    MatchingIsOneToOne(dets, gold);
    var m' := m[n := g];
    assert m'[n] == g && forall k :: k in m ==> m'[k] == m[k];
  }
}
