/** Scoring a corpus: counts, rates and leaked values. */
module EvaluationRun {
  import opened Tokens
  import opened Evaluation
  import opened PerfectDetector

  // ------------------------------------------------------------------ leaked values

  function UpTo(s: string, i: int): string {
    if i < 0 then s[..if |s| + i < 0 then 0 else |s| + i] else if i > |s| then s else s[..i]
  }

  function From(s: string, i: int): string {
    s[|UpTo(s, i)|..]
  }

  function InsertDescending(d: Detection, ds: seq<Detection>): seq<Detection> {
    if ds == [] || ds[0].start < d.start then [d] + ds else [ds[0]] + InsertDescending(d, ds[1..])
  }

  /** `sorted(detections, key=start, reverse=True)`; equal starts keep their order. */
  function ByStartDescending(ds: seq<Detection>): seq<Detection> {
    if ds == [] then [] else InsertDescending(ds[|ds| - 1], ByStartDescending(ds[..|ds| - 1]))
  }

  /** Detected spans replaced by placeholders, one after the other. */
  function Placeholders(text: string, ds: seq<Detection>): string
    decreases |ds|
  {
    if ds == [] then text
    else Placeholders(UpTo(text, ds[0].start) + ("{{" + ds[0].ty + "}}") + From(text, ds[0].end), ds[1..])
  }

  function Contains(v: string, s: string): bool {
    FindFrom(s, v, 0).Some?
  }

  function Leaks(gold: seq<Gold>, tokenized: string): nat {
    if gold == [] then 0
    else Leaks(gold[..|gold| - 1], tokenized) + One(Contains(gold[|gold| - 1].value, tokenized))
  }

  // --------------------------------------------------------------------- what is added

  /** Counts that add up over examples. */
  datatype Totals = Totals(tp: nat, fp: nat, fn: nat, values: nat, leaked: nat) {
    function Plus(other: Totals): Totals {
      Totals(tp + other.tp, fp + other.fp, fn + other.fn, values + other.values, leaked + other.leaked)
    }
  }

  const NOTHING := Totals(0, 0, 0, 0, 0)

  /** How many detections found a free gold span. */
  function Hits(dets: seq<Detection>, gold: seq<Gold>): nat {
    if dets == [] then 0 else Hits(dets[..|dets| - 1], gold) + One(LastHits(dets, gold))
  }

  function UnusedAll(gold: seq<Gold>, used: set<nat>): nat {
    if gold == [] then 0 else UnusedAll(gold[..|gold| - 1], used) + One(|gold| - 1 !in used)
  }

  /** The gold spans of an example whose labels are all in its text. */
  function GoldOfExample(ex: Example): seq<Gold> {
    var g := GoldSpans(ex.text, ex.entities);
    if g.None? then [] else g.value
  }

  function Labelled(ex: Example): bool {
    GoldSpans(ex.text, ex.entities).Some?
  }

  function TotalsOf(ex: Example, detect: Detector): Totals {
    var gold, dets := GoldOfExample(ex), detect(ex.text);
    var hits := Hits(dets, gold);
    Totals(hits, Misses(dets, gold), UnusedAll(gold, Matching(dets, gold).Values),
           |gold|, Leaks(gold, Placeholders(ex.text, ByStartDescending(dets))))
  }

  function Misses(dets: seq<Detection>, gold: seq<Gold>): nat {
    if dets == [] then 0 else Misses(dets[..|dets| - 1], gold) + One(!LastHits(dets, gold))
  }

  function Sum(corpus: seq<Example>, detect: Detector): Totals {
    if corpus == [] then NOTHING
    else Sum(corpus[..|corpus| - 1], detect).Plus(TotalsOf(corpus[|corpus| - 1], detect))
  }

  lemma {:induction false} SumSnoc(corpus: seq<Example>, ex: Example, detect: Detector)
    ensures Sum(corpus + [ex], detect) == Sum(corpus, detect).Plus(TotalsOf(ex, detect))
  {
    hide TotalsOf;
    assert (corpus + [ex])[..|corpus|] == corpus;
  }

  /** Hits and false alarms are the detections, hits and misses the labels, and no more
      values leak than there are labels. */
  lemma {:induction false} TotalsConserve(ex: Example, detect: Detector)
    ensures var x := TotalsOf(ex, detect);
      && x.tp + x.fp == |detect(ex.text)|
      && x.tp + x.fn == x.values == |GoldOfExample(ex)|
      && x.leaked <= x.values
  {
    var gold, dets := GoldOfExample(ex), detect(ex.text);
    HitsConserve(dets, gold);
    LeaksBounded(gold, Placeholders(ex.text, ByStartDescending(dets)));
  }

  lemma {:induction false} HitsConserve(dets: seq<Detection>, gold: seq<Gold>)
    ensures Hits(dets, gold) + Misses(dets, gold) == |dets|
    ensures Hits(dets, gold) + UnusedAll(gold, Matching(dets, gold).Values) == |gold|
    decreases |dets|
  {
    hide Fits, FirstFree, UnusedAll;
    if dets != [] {
      var n := |dets| - 1;
      HitsConserve(dets[..n], gold);
      var m := Matching(dets[..n], gold);
      var g := FirstFree(dets[n], gold, m.Values, 0);
      if g.Some? {
        MatchedValues(m, n, g.value, dets[..n], gold);
        UnusedAllAdd(gold, m.Values, g.value);
      }
    } else {
      assert Matching(dets, gold).Values == {};
      UnusedAllNone(gold);
    }
  }

  lemma {:induction false} UnusedAllNone(gold: seq<Gold>)
    ensures UnusedAll(gold, {}) == |gold|
    decreases |gold|
  {
    if gold != [] { UnusedAllNone(gold[..|gold| - 1]); }
  }

  lemma {:induction false} UnusedAllAdd(gold: seq<Gold>, used: set<nat>, g: nat)
    requires g !in used
    ensures UnusedAll(gold, used) == UnusedAll(gold, used + {g}) + One(g < |gold|)
    decreases |gold|
  {
    if gold != [] { UnusedAllAdd(gold[..|gold| - 1], used, g); }
  }

  lemma {:induction false} LeaksBounded(gold: seq<Gold>, tokenized: string)
    ensures Leaks(gold, tokenized) <= |gold|
    decreases |gold|
  {
    hide Contains;
    if gold != [] { LeaksBounded(gold[..|gold| - 1], tokenized); }
  }

  lemma {:induction false} SumConserves(corpus: seq<Example>, detect: Detector)
    ensures var x := Sum(corpus, detect); x.tp + x.fn == x.values && x.leaked <= x.values
    decreases |corpus|
  {
    hide TotalsOf;
    if corpus != [] {
      SumConserves(corpus[..|corpus| - 1], detect);
      TotalsConserve(corpus[|corpus| - 1], detect);
    }
  }

  // -------------------------------------------------------------------------- rates

  /** `n / (n + m)`, or 1 when there is nothing. */
  function Share(n: nat, m: nat): (r: real)
    ensures 0.0 <= r <= 1.0
  {
    if n + m == 0 then 1.0 else ShareBounds(n, m); n as real / (n + m) as real
  }

  lemma {:induction false} ShareBounds(n: nat, m: nat)
    requires n + m > 0
    ensures 0.0 <= n as real / (n + m) as real <= 1.0
  {
    var a, b := n as real, (n + m) as real;
    assert 0.0 <= a <= b;
  }

  function LeakRate(x: Totals): real {
    if x.values == 0 then 0.0 else x.leaked as real / x.values as real
  }

  function F1(p: real, r: real): real
    requires 0.0 <= p && 0.0 <= r
  {
    if p + r == 0.0 then 0.0 else 2.0 * (p * r) / (p + r)
  }

  lemma {:induction false} F1Between(p: real, r: real)
    requires 0.0 <= p <= 1.0 && 0.0 <= r <= 1.0
    ensures 0.0 <= F1(p, r) <= 1.0
    ensures p == 1.0 && r == 1.0 ==> F1(p, r) == 1.0
  {
    if p + r > 0.0 {
      var x := p * r;
      LeqProduct(p, r, x);
      var y := 2.0 * x;
      assert 0.0 <= y <= p + r;
      QuotientBounds(y, p + r);
    }
  }

  lemma {:induction false} LeqProduct(p: real, r: real, x: real)
    requires 0.0 <= p <= 1.0 && 0.0 <= r <= 1.0 && x == p * r
    ensures 0.0 <= x <= p && x <= r
  {
    ProductNonNegative(p, r);
    ProductNonNegative(p, 1.0 - r);
    ProductNonNegative(r, 1.0 - p);
    assert p * (1.0 - r) == p - x && r * (1.0 - p) == r - x;
  }

  lemma {:induction false} ProductNonNegative(a: real, b: real)
    requires 0.0 <= a && 0.0 <= b
    ensures 0.0 <= a * b
  {
  }

  lemma {:induction false} QuotientBounds(a: real, b: real)
    requires 0.0 <= a <= b && b > 0.0
    ensures 0.0 <= a / b <= 1.0
  {
  }

  datatype Metrics = Metrics(precision: real, recall: real, f1: real, tp: nat, fp: nat, fn: nat)

  function MetricsOf(tp: nat, fp: nat, fn: nat): Metrics {
    Metrics(Share(tp, fp), Share(tp, fn), F1(Share(tp, fp), Share(tp, fn)), tp, fp, fn)
  }

  /** The rates as the counts determine them: precision and recall are the hits among the
      detections and among the labels, F1 twice the hits among both; each is 1 where there
      is nothing to share. */
  lemma {:induction false} RatesExactly(tp: nat, fp: nat, fn: nat)
    ensures var m := MetricsOf(tp, fp, fn);
      && m.precision * (tp + fp) as real == tp as real && (tp + fp == 0 ==> m.precision == 1.0)
      && m.recall * (tp + fn) as real == tp as real && (tp + fn == 0 ==> m.recall == 1.0)
      && m.f1 * (2 * tp + fp + fn) as real == (2 * tp) as real && (tp + fp + fn == 0 ==> m.f1 == 1.0)
      && m.tp == tp && m.fp == fp && m.fn == fn
  {
    hide Share, F1;
    ShareExactly(tp, fp);
    ShareExactly(tp, fn);
    F1Counts(tp, fp, fn);
  }

  lemma {:induction false} F1Counts(tp: nat, fp: nat, fn: nat)
    ensures var f := F1(Share(tp, fp), Share(tp, fn));
      f * (2 * tp + fp + fn) as real == (2 * tp) as real && (tp + fp + fn == 0 ==> f == 1.0)
  {
    hide Share, F1;
    ShareExactly(tp, fp);
    ShareExactly(tp, fn);
    var a, b, c := tp as real, (tp + fp) as real, (tp + fn) as real;
    F1Exactly(Share(tp, fp), Share(tp, fn), b, c, a);
    assert (2 * tp + fp + fn) as real == b + c;
  }

  lemma {:induction false} ShareExactly(n: nat, m: nat)
    ensures Share(n, m) * (n + m) as real == n as real
    ensures n == 0 && m > 0 ==> Share(n, m) == 0.0
    ensures n + m == 0 ==> Share(n, m) == 1.0
  {
  }

  lemma {:induction false} F1Exactly(p: real, r: real, b: real, c: real, a: real)
    requires 0.0 <= a && 0.0 <= p && 0.0 <= r && p * b == a && r * c == a
    requires (a == 0.0 ==> (p == 0.0 || b == 0.0) && (r == 0.0 || c == 0.0))
    requires (b == 0.0 ==> p == 1.0) && (c == 0.0 ==> r == 1.0)
    ensures F1(p, r) * (b + c) == 2.0 * a
    ensures b == 0.0 && c == 0.0 ==> F1(p, r) == 1.0
  {
    if p + r > 0.0 {
      var f := F1(p, r);
      assert f * (p + r) == 2.0 * (p * r);
      assert (p * r) * (b + c) == r * (p * b) + p * (r * c) == a * (p + r);
      assert (f * (b + c)) * (p + r) == (f * (p + r)) * (b + c) == (2.0 * a) * (p + r);
      Cancel(f * (b + c), 2.0 * a, p + r);
    }
  }

  lemma {:induction false} Cancel(x: real, y: real, z: real)
    requires x * z == y * z && z > 0.0
    ensures x == y
  {
    assert (x - y) * z == 0.0;
  }

  lemma {:induction false} LeakRateExactly(x: Totals)
    requires x.leaked <= x.values
    ensures LeakRate(x) * x.values as real == x.leaked as real && (x.values == 0 ==> LeakRate(x) == 0.0)
  {
  }

  function PrecisionOf(m: Metrics): real {
    m.precision
  }

  function RecallOf(m: Metrics): real {
    m.recall
  }

  datatype FalseAlarm = FalseAlarm(text: string, ty: string)

  datatype EvalResult = EvalResult(
    perType: map<string, Metrics>, micro: Metrics, macroPrecision: real, macroRecall: real,
    totals: Totals, leakRate: real, falseAlarms: seq<FalseAlarm>)

  // ------------------------------------------------------------------ macro averages

  ghost function SumTypes(m: map<string, Metrics>, pick: Metrics -> real): real {
    if m == map[] then 0.0
    else
      var t :| t in m;
      pick(m[t]) + SumTypes(m - {t}, pick)
  }

  /** `statistics.mean` over the types, or 1 when there is none. */
  ghost function MeanOf(m: map<string, Metrics>, pick: Metrics -> real): real {
    if m == map[] then 1.0 else SumTypes(m, pick) / |m| as real
  }

  lemma {:induction false} SumTypesRemove(m: map<string, Metrics>, pick: Metrics -> real, t: string)
    requires t in m
    ensures SumTypes(m, pick) == pick(m[t]) + SumTypes(m - {t}, pick)
    decreases m
  {
    var u :| u in m && SumTypes(m, pick) == pick(m[u]) + SumTypes(m - {u}, pick);
    if u != t {
      SumTypesRemove(m - {u}, pick, t);
      SumTypesRemove(m - {t}, pick, u);
      assert m - {u} - {t} == m - {t} - {u};
    }
  }

  lemma {:induction false} SumTypesBounds(m: map<string, Metrics>, pick: Metrics -> real)
    requires forall t :: t in m ==> 0.0 <= pick(m[t]) <= 1.0
    ensures 0.0 <= SumTypes(m, pick) <= |m| as real
    ensures (forall t :: t in m ==> pick(m[t]) == 1.0) ==> SumTypes(m, pick) == |m| as real
    decreases m
  {
    if m != map[] {
      assert m.Keys != {};
      var t :| t in m;
      SumTypesRemove(m, pick, t);
      SumTypesBounds(m - {t}, pick);
      assert |m| == |m - {t}| + 1;
    }
  }

  /** The macro averages of one or two types. */
  lemma {:induction false} MeanOfFew(t: string, m: Metrics, u: string, n: Metrics)
    requires t != u
    ensures MeanOf(map[t := m], PrecisionOf) == m.precision && MeanOf(map[t := m], RecallOf) == m.recall
    ensures MeanOf(map[t := m, u := n], PrecisionOf) == (m.precision + n.precision) / 2.0
    ensures MeanOf(map[t := m, u := n], RecallOf) == (m.recall + n.recall) / 2.0
  {
    hide MeanOf;
    MeanOfTwo(t, m, u, n, PrecisionOf);
    MeanOfTwo(t, m, u, n, RecallOf);
  }

  lemma {:induction false} MeanOfTwo(t: string, m: Metrics, u: string, n: Metrics, pick: Metrics -> real)
    requires t != u
    ensures MeanOf(map[t := m], pick) == pick(m)
    ensures MeanOf(map[t := m, u := n], pick) == (pick(m) + pick(n)) / 2.0
  {
    hide SumTypes;
    SumOfTwo(t, m, u, n, pick);
    var one, two := map[t := m], map[t := m, u := n];
    assert t in one && t in two;
  }

  lemma {:induction false} SumOfTwo(t: string, m: Metrics, u: string, n: Metrics, pick: Metrics -> real)
    requires t != u
    ensures SumTypes(map[t := m], pick) == pick(m) && |map[t := m]| == 1
    ensures SumTypes(map[t := m, u := n], pick) == pick(m) + pick(n) && |map[t := m, u := n]| == 2
  {
    hide SumTypes;
    var one, two := map[t := m], map[t := m, u := n];
    SumNothing(pick);
    assert one - {t} == map[] && two - {u} == one;
    SumTypesRemove(one, pick, t);
    SumTypesRemove(two, pick, u);
    SizeRemoved(one, t);
    SizeRemoved(two, u);
  }

  lemma {:induction false} SizeRemoved(m: map<string, Metrics>, t: string)
    requires t in m
    ensures |m| == |m - {t}| + 1
  {
    assert m == (m - {t})[t := m[t]];
  }

  lemma {:induction false} SumNothing(pick: Metrics -> real)
    ensures SumTypes(map[], pick) == 0.0
  {
  }

  /** A mean lies between the bounds of what it is the mean of. */
  lemma {:induction false} MeanInRange(m: map<string, Metrics>, pick: Metrics -> real)
    requires forall t :: t in m ==> 0.0 <= pick(m[t]) <= 1.0
    ensures 0.0 <= MeanOf(m, pick) <= 1.0
    ensures (forall t :: t in m ==> pick(m[t]) == 1.0) ==> MeanOf(m, pick) == 1.0
  {
    if m != map[] {
      SumTypesBounds(m, pick);
      SizePositive(m);
      QuotientBounds(SumTypes(m, pick), |m| as real);
    }
  }

  lemma {:induction false} SizePositive(m: map<string, Metrics>)
    requires m != map[]
    ensures |m| > 0
  {
  }

  method Mean(m: map<string, Metrics>, pick: Metrics -> real) returns (mean: real)
    ensures mean == MeanOf(m, pick)
  {
    if m == map[] { return 1.0; }
    SizePositive(m);
    var sum, rest := 0.0, m;
    while rest != map[]
      invariant sum + SumTypes(rest, pick) == SumTypes(m, pick)
      decreases rest
    {
      assert rest.Keys != {};
      var t :| t in rest;
      SumTypesRemove(rest, pick, t);
      sum := sum + pick(rest[t]);
      rest := rest - {t};
    }
    return sum / |m| as real;
  }

  // -------------------------------------------------------- alarms without any label

  function Alarms(text: string, dets: seq<Detection>, gold: seq<Gold>): seq<FalseAlarm> {
    if dets == [] then []
    else
      Alarms(text, dets[..|dets| - 1], gold) +
      (if LastHits(dets, gold) then [] else [FalseAlarm(text, dets[|dets| - 1].ty)])
  }

  /** The unmatched detections of an example without labels. */
  function AlarmsOf(ex: Example, detect: Detector): seq<FalseAlarm> {
    if ex.entities == [] then Alarms(ex.text, detect(ex.text), GoldOfExample(ex)) else []
  }

  function AllAlarms(corpus: seq<Example>, detect: Detector): seq<FalseAlarm> {
    if corpus == [] then [] else AllAlarms(corpus[..|corpus| - 1], detect) + AlarmsOf(corpus[|corpus| - 1], detect)
  }

  lemma {:induction false} AllAlarmsSnoc(corpus: seq<Example>, ex: Example, detect: Detector)
    ensures AllAlarms(corpus + [ex], detect) == AllAlarms(corpus, detect) + AlarmsOf(ex, detect)
  {
    hide AlarmsOf;
    assert (corpus + [ex])[..|corpus|] == corpus;
  }

  /** Where nothing is labelled, every detection is one. */
  lemma {:induction false} UnlabelledAlarms(text: string, dets: seq<Detection>)
    ensures |Alarms(text, dets, [])| == |dets|
    ensures forall i :: 0 <= i < |dets| ==> Alarms(text, dets, [])[i] == FalseAlarm(text, dets[i].ty)
    decreases |dets|
  {
    if dets != [] { UnlabelledAlarms(text, dets[..|dets| - 1]); }
  }

  /** A false positive is listed exactly for a detection in a text without labels. */
  lemma {:induction false} AlarmsExactly(corpus: seq<Example>, detect: Detector, a: FalseAlarm)
    ensures a in AllAlarms(corpus, detect) <==>
      exists ex, d :: ex in corpus && ex.entities == [] && d in detect(ex.text) && a == FalseAlarm(ex.text, d.ty)
    decreases |corpus|
  {
    hide Alarms, GoldSpans;
    if corpus != [] {
      var init, ex := corpus[..|corpus| - 1], corpus[|corpus| - 1];
      assert corpus == init + [ex];
      AlarmsExactly(init, detect, a);
      ExampleAlarms(ex, detect, a);
      hide AlarmsOf;
    }
  }

  lemma {:induction false} ExampleAlarms(ex: Example, detect: Detector, a: FalseAlarm)
    ensures a in AlarmsOf(ex, detect) <==> ex.entities == [] && exists d :: d in detect(ex.text) && a == FalseAlarm(ex.text, d.ty)
  {
    var dets := detect(ex.text);
    if ex.entities == [] {
      assert GoldOfExample(ex) == [];
      UnlabelledAlarms(ex.text, dets);
      hide Alarms;
      var alarms := Alarms(ex.text, dets, []);
      if a in alarms {
        var i :| 0 <= i < |alarms| && alarms[i] == a;
        assert dets[i] in dets;
      }
      if d :| d in dets && a == FalseAlarm(ex.text, d.ty) {
        var i :| 0 <= i < |dets| && dets[i] == d;
        assert alarms[i] == a;
      }
    }
  }

  // --------------------------------------------------------------- counting in a dict

  type Tally = map<string, nat>

  function Get(m: Tally, t: string): nat {
    if t in m then m[t] else 0
  }

  function Bump(m: Tally, t: string): Tally {
    m[t := Get(m, t) + 1]
  }

  predicate Positive(m: Tally) {
    forall t :: t in m ==> m[t] > 0
  }

  /** `sum(m.values())` */
  ghost function SumValues(m: Tally): nat {
    if m == map[] then 0
    else
      var k :| k in m;
      m[k] + SumValues(m - {k})
  }

  lemma {:induction false} SumRemove(m: Tally, k: string)
    requires k in m
    ensures SumValues(m) == m[k] + SumValues(m - {k})
    decreases m
  {
    var l :| l in m && SumValues(m) == m[l] + SumValues(m - {l});
    if l != k {
      SumRemove(m - {l}, k);
      SumRemove(m - {k}, l);
      assert m - {l} - {k} == m - {k} - {l};
    }
  }

  lemma {:induction false} SumBump(m: Tally, t: string)
    ensures SumValues(Bump(m, t)) == SumValues(m) + 1
  {
    var b := Bump(m, t);
    SumRemove(b, t);
    if t in m {
      SumRemove(m, t);
      assert b - {t} == m - {t};
    } else {
      assert b - {t} == m;
    }
  }

  method SumOf(m: Tally) returns (total: nat)
    ensures total == SumValues(m)
  {
    total := 0;
    var rest := m;
    while rest != map[]
      invariant total + SumValues(rest) == SumValues(m)
      decreases rest
    {
      var k :| k in rest;
      SumRemove(rest, k);
      total := total + rest[k];
      rest := rest - {k};
    }
  }

  // ------------------------------------------------------------------ one example

  lemma {:induction false} HitIsMatched(dets: seq<Detection>, gold: seq<Gold>, d: nat)
    requires d < |dets|
    ensures d in Matching(dets, gold) <==> LastHits(dets[..d + 1], gold)
    decreases |dets|
  {
    hide Fits;
    var n := |dets| - 1;
    MatchingIsOneToOne(dets[..n], gold);
    if d < n {
      HitIsMatched(dets[..n], gold, d);
      assert dets[..n][..d + 1] == dets[..d + 1];
    } else {
      assert dets[..d + 1] == dets;
    }
  }

  lemma {:induction false} MatchingSnoc(dets: seq<Detection>, d: Detection, gold: seq<Gold>)
    ensures var m := Matching(dets, gold);
      var g := FirstFree(d, gold, m.Values, 0);
      && Matching(dets + [d], gold) == (if g.None? then m else m[|dets| := g.value])
      && (g.Some? ==> Matching(dets + [d], gold).Values == m.Values + {g.value})
      && (LastHits(dets + [d], gold) <==> g.Some?)
  {
    hide Fits, FirstFree;
    assert (dets + [d])[..|dets|] == dets;
    var g := FirstFree(d, gold, Matching(dets, gold).Values, 0);
    if g.Some? { MatchedValues(Matching(dets, gold), |dets|, g.value, dets, gold); }
  }

  lemma {:induction false} TpSnoc(dets: seq<Detection>, d: Detection, gold: seq<Gold>, t: string)
    ensures Tp(dets + [d], gold, t) == Tp(dets, gold, t) + One(LastHits(dets + [d], gold) && d.ty == t)
    ensures Fp(dets + [d], gold, t) == Fp(dets, gold, t) + One(!LastHits(dets + [d], gold) && d.ty == t)
    ensures Hits(dets + [d], gold) == Hits(dets, gold) + One(LastHits(dets + [d], gold))
    ensures Misses(dets + [d], gold) == Misses(dets, gold) + One(!LastHits(dets + [d], gold))
  {
    hide LastHits;
    assert (dets + [d])[..|dets|] == dets;
  }

  ghost predicate AddsTo(before: Tally, after: Tally, count: string -> nat, total: nat) {
    && (forall t :: Get(after, t) == Get(before, t) + count(t))
    && SumValues(after) == SumValues(before) + total
    && (Positive(before) ==> Positive(after))
  }

  lemma {:induction false} AddsNothing(m: Tally, count: string -> nat)
    requires forall t :: count(t) == 0
    ensures AddsTo(m, m, count, 0)
  {
  }

  /** One more of a type counted and entered. */
  lemma {:induction false} AddsOne(before: Tally, after: Tally, count: string -> nat, next: string -> nat, total: nat, ty: string, one: bool)
    requires AddsTo(before, after, count, total)
    requires forall t :: next(t) == count(t) + One(one && ty == t)
    ensures AddsTo(before, if one then Bump(after, ty) else after, next, total + One(one))
  {
    hide SumValues;
    SumBump(after, ty);
  }

  /** Match the detections of one example, in order, each to the first free gold span. */
  method MatchSpans(detections: seq<Detection>, gold: seq<Gold>, before: Tally)
    returns (tp: Tally, matchedGold: set<nat>, matchedDet: set<nat>)
    ensures AddsTo(before, tp, t => Tp(detections, gold, t), Hits(detections, gold))
    ensures matchedGold == Matching(detections, gold).Values && matchedDet == Matching(detections, gold).Keys
  {
    hide Fits, AddsTo, Tp, Hits, Matching, FirstFree;
    tp, matchedGold, matchedDet := before, {}, {};
    NoDetections(gold);
    AddsNothing(before, t => Tp([], gold, t));
    for di := 0 to |detections|
      invariant AddsTo(before, tp, t => Tp(detections[..di], gold, t), Hits(detections[..di], gold))
      invariant matchedGold == Matching(detections[..di], gold).Values
      invariant matchedDet == Matching(detections[..di], gold).Keys
    {
      var d := detections[di];
      ghost var done := detections[..di];
      assert detections[..di + 1] == done + [d];
      MatchingSnoc(done, d, gold);
      var found := false;
      ghost var was, used := tp, matchedGold;
      for gi := 0 to |gold|
        invariant !found && tp == was && matchedGold == used && matchedDet == Matching(done, gold).Keys
        invariant forall j :: 0 <= j < gi ==> j in used || !Fits(d, gold[j])
      {
        if gi in matchedGold { continue; }
        if Fits(d, gold[gi]) {
          FreeIs(d, gold, used, gi);
          tp := Bump(tp, d.ty);
          matchedGold := matchedGold + {gi};
          matchedDet := matchedDet + {di};
          found := true;
          break;
        }
      }
      if !found { FreeNone(d, gold, used); }
      assert found <==> LastHits(done + [d], gold);
      TpStep(before, was, done, d, gold);
    }
    assert detections[..|detections|] == detections;
  }

  lemma {:induction false} NoDetections(gold: seq<Gold>)
    ensures Matching([], gold) == map[] && Hits([], gold) == 0 && Misses([], gold) == 0
    ensures forall t :: Tp([], gold, t) == 0 && Fp([], gold, t) == 0
  {
  }

  lemma {:induction false} FreeIs(d: Detection, gold: seq<Gold>, used: set<nat>, g: nat)
    requires g < |gold| && g !in used && Fits(d, gold[g]) && forall j :: 0 <= j < g ==> j in used || !Fits(d, gold[j])
    ensures FirstFree(d, gold, used, 0) == Some(g)
  {
    hide Fits;
    var r := FirstFree(d, gold, used, 0);
  }

  lemma {:induction false} FreeNone(d: Detection, gold: seq<Gold>, used: set<nat>)
    requires forall j :: 0 <= j < |gold| ==> j in used || !Fits(d, gold[j])
    ensures FirstFree(d, gold, used, 0) == None
  {
    hide Fits;
    var r := FirstFree(d, gold, used, 0);
  }

  lemma {:induction false} TpStep(before: Tally, tp: Tally, done: seq<Detection>, d: Detection, gold: seq<Gold>)
    requires AddsTo(before, tp, t => Tp(done, gold, t), Hits(done, gold))
    ensures var hit := LastHits(done + [d], gold);
      AddsTo(before, if hit then Bump(tp, d.ty) else tp, t => Tp(done + [d], gold, t), Hits(done + [d], gold))
  {
    hide AddsTo, Tp, Fp, Hits, Misses, LastHits, Bump;
    forall t ensures Tp(done + [d], gold, t) == Tp(done, gold, t) + One(LastHits(done + [d], gold) && d.ty == t) {
      TpSnoc(done, d, gold, t);
    }
    TpSnoc(done, d, gold, "");
    AddsOne(before, tp, t => Tp(done, gold, t), t => Tp(done + [d], gold, t), Hits(done, gold), d.ty, LastHits(done + [d], gold));
  }

  /** Unmatched detections; those of an example without labels are listed as well. */
  method CountFalseAlarms(text: string, detections: seq<Detection>, gold: seq<Gold>, matchedDet: set<nat>, before: Tally, unlabelled: bool)
    returns (fp: Tally, alarms: seq<FalseAlarm>)
    requires matchedDet == Matching(detections, gold).Keys
    ensures AddsTo(before, fp, t => Fp(detections, gold, t), Misses(detections, gold))
    ensures alarms == if unlabelled then Alarms(text, detections, gold) else []
  {
    hide AddsTo, Fp, Misses, Matching, LastHits;
    fp, alarms := before, [];
    NoDetections(gold);
    AddsNothing(before, t => Fp([], gold, t));
    for di := 0 to |detections|
      invariant AddsTo(before, fp, t => Fp(detections[..di], gold, t), Misses(detections[..di], gold))
      invariant alarms == if unlabelled then Alarms(text, detections[..di], gold) else []
    {
      HitIsMatched(detections, gold, di);
      assert detections[..di + 1] == detections[..di] + [detections[di]] && detections[..di + 1][..di] == detections[..di];
      FpStep(before, fp, detections[..di], detections[di], gold);
      if di !in matchedDet {
        fp := Bump(fp, detections[di].ty);
        if unlabelled { alarms := alarms + [FalseAlarm(text, detections[di].ty)]; }
      }
    }
    assert detections[..|detections|] == detections;
  }

  lemma {:induction false} FpStep(before: Tally, fp: Tally, done: seq<Detection>, d: Detection, gold: seq<Gold>)
    requires AddsTo(before, fp, t => Fp(done, gold, t), Misses(done, gold))
    ensures var miss := !LastHits(done + [d], gold);
      AddsTo(before, if miss then Bump(fp, d.ty) else fp, t => Fp(done + [d], gold, t), Misses(done + [d], gold))
  {
    hide AddsTo, Tp, Fp, Hits, Misses, LastHits, Bump;
    forall t ensures Fp(done + [d], gold, t) == Fp(done, gold, t) + One(!LastHits(done + [d], gold) && d.ty == t) {
      TpSnoc(done, d, gold, t);
    }
    TpSnoc(done, d, gold, "");
    AddsOne(before, fp, t => Fp(done, gold, t), t => Fp(done + [d], gold, t), Misses(done, gold), d.ty, !LastHits(done + [d], gold));
  }

  /** Unmatched gold spans. */
  method CountMisses(gold: seq<Gold>, matchedGold: set<nat>, before: Tally) returns (fn: Tally)
    ensures AddsTo(before, fn, t => Unused(gold, matchedGold, t), UnusedAll(gold, matchedGold))
  {
    hide AddsTo, Unused, UnusedAll;
    fn := before;
    NoGold(matchedGold);
    AddsNothing(before, t => Unused([], matchedGold, t));
    for gi := 0 to |gold|
      invariant AddsTo(before, fn, t => Unused(gold[..gi], matchedGold, t), UnusedAll(gold[..gi], matchedGold))
    {
      assert gold[..gi + 1] == gold[..gi] + [gold[gi]];
      UnusedStep(before, fn, gold[..gi], gold[gi], matchedGold);
      if gi !in matchedGold { fn := Bump(fn, gold[gi].ty); }
    }
    assert gold[..|gold|] == gold;
  }

  lemma {:induction false} NoGold(used: set<nat>)
    ensures UnusedAll([], used) == 0 && forall t :: Unused([], used, t) == 0
  {
  }

  lemma {:induction false} UnusedSnoc(gold: seq<Gold>, g: Gold, used: set<nat>, t: string)
    ensures Unused(gold + [g], used, t) == Unused(gold, used, t) + One(|gold| !in used && g.ty == t)
    ensures UnusedAll(gold + [g], used) == UnusedAll(gold, used) + One(|gold| !in used)
  {
    assert (gold + [g])[..|gold|] == gold;
  }

  lemma {:induction false} UnusedStep(before: Tally, fn: Tally, gold: seq<Gold>, g: Gold, used: set<nat>)
    requires AddsTo(before, fn, t => Unused(gold, used, t), UnusedAll(gold, used))
    ensures AddsTo(before, if |gold| !in used then Bump(fn, g.ty) else fn, t => Unused(gold + [g], used, t), UnusedAll(gold + [g], used))
  {
    hide AddsTo, Unused, UnusedAll, Bump;
    forall t ensures Unused(gold + [g], used, t) == Unused(gold, used, t) + One(|gold| !in used && g.ty == t) {
      UnusedSnoc(gold, g, used, t);
    }
    UnusedSnoc(gold, g, used, "");
    AddsOne(before, fn, t => Unused(gold, used, t), t => Unused(gold + [g], used, t), UnusedAll(gold, used), g.ty, |gold| !in used);
  }

  // ------------------------------------------------------------------- a whole corpus

  /** A type's counts over a corpus. */
  datatype Counts = Counts(tp: nat, fp: nat, fn: nat)

  function CountsOf(corpus: seq<Example>, detect: Detector, t: string): Counts {
    if corpus == [] then Counts(0, 0, 0)
    else
      var init, ex := CountsOf(corpus[..|corpus| - 1], detect, t), corpus[|corpus| - 1];
      var gold, dets := GoldOfExample(ex), detect(ex.text);
      Counts(init.tp + Tp(dets, gold, t), init.fp + Fp(dets, gold, t), init.fn + Fn(dets, gold, t))
  }

  lemma {:induction false} CountsSnoc(corpus: seq<Example>, ex: Example, detect: Detector, t: string)
    ensures var init, gold, dets := CountsOf(corpus, detect, t), GoldOfExample(ex), detect(ex.text);
      CountsOf(corpus + [ex], detect, t) ==
        Counts(init.tp + Tp(dets, gold, t), init.fp + Fp(dets, gold, t), init.fn + Fn(dets, gold, t))
  {
    hide Tp, Fp, Fn, GoldOfExample;
    assert (corpus + [ex])[..|corpus|] == corpus;
  }

  /** The three dictionaries hold the counts of the examples so far, type by type and in
      all. */
  ghost predicate Tallied(corpus: seq<Example>, detect: Detector, tp: Tally, fp: Tally, fn: Tally) {
    && (forall t :: Counts(Get(tp, t), Get(fp, t), Get(fn, t)) == CountsOf(corpus, detect, t))
    && SumValues(tp) == Sum(corpus, detect).tp
    && SumValues(fp) == Sum(corpus, detect).fp
    && SumValues(fn) == Sum(corpus, detect).fn
    && Positive(tp) && Positive(fp) && Positive(fn)
  }

  lemma {:induction false} TalliedNone(detect: Detector)
    ensures Tallied([], detect, map[], map[], map[])
  {
  }

  lemma {:induction false} TalliedStep(corpus: seq<Example>, ex: Example, detect: Detector,
                                       tp: Tally, fp: Tally, fn: Tally, tp': Tally, fp': Tally, fn': Tally)
    requires Tallied(corpus, detect, tp, fp, fn)
    requires var gold, dets := GoldOfExample(ex), detect(ex.text); var used := Matching(dets, gold).Values;
      && AddsTo(tp, tp', t => Tp(dets, gold, t), Hits(dets, gold))
      && AddsTo(fp, fp', t => Fp(dets, gold, t), Misses(dets, gold))
      && AddsTo(fn, fn', t => Unused(gold, used, t), UnusedAll(gold, used))
    ensures Tallied(corpus + [ex], detect, tp', fp', fn')
  {
    hide Tp, Fp, Unused, UnusedAll, Matching, Hits, Misses, GoldOfExample, SumValues, CountsOf, Sum, Get, Placeholders, Leaks, ByStartDescending;
    SumSnoc(corpus, ex, detect);
    forall t ensures Counts(Get(tp', t), Get(fp', t), Get(fn', t)) == CountsOf(corpus + [ex], detect, t) {
      CountsSnoc(corpus, ex, detect, t);
      assert Get(tp', t) == Get(tp, t) + Tp(detect(ex.text), GoldOfExample(ex), t);
    }
  }

  /** The micro averages. */
  function Micro(corpus: seq<Example>, detect: Detector): Metrics {
    var x := Sum(corpus, detect);
    MetricsOf(x.tp, x.fp, x.fn)
  }

  /** One type's rates. */
  function OfType(corpus: seq<Example>, detect: Detector, t: string): Metrics {
    var x := CountsOf(corpus, detect, t);
    MetricsOf(x.tp, x.fp, x.fn)
  }

  /** What `evaluate` is asked to report. */
  ghost predicate Reports(r: EvalResult, corpus: seq<Example>, detect: Detector) {
    && r.totals == Sum(corpus, detect)
    && r.micro == Micro(corpus, detect)
    && r.leakRate == LeakRate(r.totals)
    && r.falseAlarms == AllAlarms(corpus, detect)
    && r.macroPrecision == MeanOf(r.perType, PrecisionOf)
    && r.macroRecall == MeanOf(r.perType, RecallOf)
    && (forall t :: t in r.perType <==> CountsOf(corpus, detect, t) != Counts(0, 0, 0))
    && forall t :: t in r.perType ==> r.perType[t] == OfType(corpus, detect, t)
  }

  /** `None` when a labelled value is not in its text. */
  method Evaluate(corpus: seq<Example>, detect: Detector) returns (r: Option<EvalResult>)
    ensures r.None? <==> exists ex :: ex in corpus && !Labelled(ex)
    ensures r.Some? ==> Reports(r.value, corpus, detect)
  {
    hide Tallied, AddsTo, GoldSpans, Matching, TotalsOf, Sum, Placeholders, ByStartDescending, Leaks, Reports, Alarms, AllAlarms;
    var falseAlarms: seq<FalseAlarm> := [];
    NoAlarms(detect);
    var tp, fp, fn: Tally := map[], map[], map[];
    var leakTotal, leakCount := 0, 0;
    TalliedNone(detect);
    SumNone(detect);
    for n := 0 to |corpus|
      invariant forall ex :: ex in corpus[..n] ==> Labelled(ex)
      invariant Tallied(corpus[..n], detect, tp, fp, fn)
      invariant falseAlarms == AllAlarms(corpus[..n], detect)
      invariant leakTotal == Sum(corpus[..n], detect).values && leakCount == Sum(corpus[..n], detect).leaked
    {
      var ex := corpus[n];
      assert corpus[..n + 1] == corpus[..n] + [ex];
      var g := GoldSpans(ex.text, ex.entities);
      if g.None? {
        assert ex in corpus && !Labelled(ex);
        return None;
      }
      var gold, detections := g.value, detect(ex.text);
      var tp', matchedGold, matchedDet := MatchSpans(detections, gold, tp);
      var fp', alarms := CountFalseAlarms(ex.text, detections, gold, matchedDet, fp, ex.entities == []);
      AllAlarmsSnoc(corpus[..n], ex, detect);
      var fn' := CountMisses(gold, matchedGold, fn);
      var leaked := CountLeaks(gold, Placeholders(ex.text, ByStartDescending(detections)));
      TalliedStep(corpus[..n], ex, detect, tp, fp, fn, tp', fp', fn');
      LeaksStep(corpus[..n], ex, detect, leakTotal, leakCount, gold, leaked);
      tp, fp, fn, falseAlarms := tp', fp', fn', falseAlarms + alarms;
      leakTotal, leakCount := leakTotal + |gold|, leakCount + leaked;
    }
    assert corpus[..|corpus|] == corpus;
    r := Report(corpus, detect, tp, fp, fn, leakTotal, leakCount, falseAlarms);
  }

  method Report(ghost corpus: seq<Example>, ghost detect: Detector, tp: Tally, fp: Tally, fn: Tally,
                leakTotal: nat, leakCount: nat, falseAlarms: seq<FalseAlarm>)
    returns (r: Option<EvalResult>)
    requires Tallied(corpus, detect, tp, fp, fn) && falseAlarms == AllAlarms(corpus, detect)
    requires leakTotal == Sum(corpus, detect).values && leakCount == Sum(corpus, detect).leaked
    ensures r.Some? && Reports(r.value, corpus, detect)
  {
    hide SumValues, Sum, CountsOf, MetricsOf, AllAlarms, MeanOf;
    var sumTp := SumOf(tp);
    var sumFp := SumOf(fp);
    var sumFn := SumOf(fn);
    var totals := Totals(sumTp, sumFp, sumFn, leakTotal, leakCount);
    var perType := map t | t in tp.Keys + fp.Keys + fn.Keys :: MetricsOf(Get(tp, t), Get(fp, t), Get(fn, t));
    var macroPrecision := Mean(perType, PrecisionOf);
    var macroRecall := Mean(perType, RecallOf);
    r := Some(EvalResult(perType, MetricsOf(sumTp, sumFp, sumFn), macroPrecision, macroRecall, totals, LeakRate(totals), falseAlarms));
    forall t ensures t in perType <==> CountsOf(corpus, detect, t) != Counts(0, 0, 0)
      ensures t in perType ==> perType[t] == OfType(corpus, detect, t) {
      assert Counts(Get(tp, t), Get(fp, t), Get(fn, t)) == CountsOf(corpus, detect, t);
    }
  }

  lemma {:induction false} NoAlarms(detect: Detector)
    ensures AllAlarms([], detect) == []
  {
  }

  lemma {:induction false} SumNone(detect: Detector)
    ensures Sum([], detect) == NOTHING
  {
  }

  /** Count the values that survive in the tokenized text. */
  method CountLeaks(gold: seq<Gold>, tokenized: string) returns (leaked: nat)
    ensures leaked == Leaks(gold, tokenized)
  {
    hide Contains;
    leaked := 0;
    for i := 0 to |gold|
      invariant leaked == Leaks(gold[..i], tokenized)
    {
      assert gold[..i + 1][..i] == gold[..i];
      if Contains(gold[i].value, tokenized) { leaked := leaked + 1; }
    }
    assert gold[..|gold|] == gold;
  }

  lemma {:induction false} LeaksStep(corpus: seq<Example>, ex: Example, detect: Detector, total: nat, count: nat, gold: seq<Gold>, leaked: nat)
    requires total == Sum(corpus, detect).values && count == Sum(corpus, detect).leaked
    requires gold == GoldOfExample(ex) && leaked == Leaks(gold, Placeholders(ex.text, ByStartDescending(detect(ex.text))))
    ensures Sum(corpus + [ex], detect).values == total + |gold| && Sum(corpus + [ex], detect).leaked == count + leaked
  {
    hide Sum, GoldSpans, Leaks, Placeholders, ByStartDescending;
    SumSnoc(corpus, ex, detect);
  }

  /** Every reported precision, recall, F1 and leak rate lies between 0 and 1. */
  lemma {:induction false} RatesInRange(corpus: seq<Example>, detect: Detector, t: string)
    ensures InRange(Micro(corpus, detect)) && InRange(OfType(corpus, detect, t))
    ensures 0.0 <= LeakRate(Sum(corpus, detect)) <= 1.0
  {
    hide Sum, CountsOf, MetricsOf, InRange;
    var x, y := Sum(corpus, detect), CountsOf(corpus, detect, t);
    MetricsInRange(x.tp, x.fp, x.fn);
    MetricsInRange(y.tp, y.fp, y.fn);
    SumConserves(corpus, detect);
    if x.values > 0 { QuotientBounds(x.leaked as real, x.values as real); }
  }

  /** The macro averages of what is reported lie there too, and are 1 where every type's
      rate is. */
  lemma {:induction false} MacroInRange(perType: map<string, Metrics>)
    requires forall t :: t in perType ==> InRange(perType[t])
    ensures 0.0 <= MeanOf(perType, PrecisionOf) <= 1.0 && 0.0 <= MeanOf(perType, RecallOf) <= 1.0
    ensures (forall t :: t in perType ==> AllOnes(perType[t])) ==>
      MeanOf(perType, PrecisionOf) == 1.0 == MeanOf(perType, RecallOf)
  {
    hide MeanOf;
    MeanInRange(perType, PrecisionOf);
    MeanInRange(perType, RecallOf);
  }

  predicate InRange(m: Metrics) {
    0.0 <= m.precision <= 1.0 && 0.0 <= m.recall <= 1.0 && 0.0 <= m.f1 <= 1.0
  }

  lemma {:induction false} MetricsInRange(tp: nat, fp: nat, fn: nat)
    ensures InRange(MetricsOf(tp, fp, fn))
  {
    F1Between(Share(tp, fp), Share(tp, fn));
  }

  /** The detector returns each example's gold spans, none of them empty: in the order of
      the labels, or in any order where those that overlap a common third overlap each
      other. */
  ghost predicate PerfectOn(corpus: seq<Example>, detect: Detector) {
    forall ex :: ex in corpus ==> PerfectAnswer(detect(ex.text), GoldOfExample(ex))
  }

  ghost predicate PerfectAnswer(dets: seq<Detection>, gold: seq<Gold>) {
    && Answers(dets, gold) && NonEmpty(dets)
    && (dets == SpansOf(gold) || Transitive(dets))
  }

  /** Such a detector scores 1 on everything. */
  lemma {:induction false} PerfectScores(corpus: seq<Example>, detect: Detector, t: string)
    requires PerfectOn(corpus, detect)
    ensures AllOnes(Micro(corpus, detect)) && AllOnes(OfType(corpus, detect, t))
  {
    hide Sum, CountsOf, PerfectOn, MetricsOf, AllOnes;
    PerfectSums(corpus, detect, t);
    NoErrors(Sum(corpus, detect).tp);
    NoErrors(CountsOf(corpus, detect, t).tp);
  }

  predicate AllOnes(m: Metrics) {
    m.precision == 1.0 && m.recall == 1.0 && m.f1 == 1.0
  }

  lemma {:induction false} NoErrors(n: nat)
    ensures AllOnes(MetricsOf(n, 0, 0))
  {
    F1Between(1.0, 1.0);
  }

  lemma {:induction false} PerfectSums(corpus: seq<Example>, detect: Detector, t: string)
    requires PerfectOn(corpus, detect)
    ensures Sum(corpus, detect).fp == 0 && Sum(corpus, detect).fn == 0
    ensures CountsOf(corpus, detect, t).fp == 0 && CountsOf(corpus, detect, t).fn == 0
    decreases |corpus|
  {
    hide Tp, Fp, Unused, UnusedAll, Matching, Hits, Misses, GoldOfExample, PerfectAnswer, Leaks, Placeholders, ByStartDescending;
    if corpus != [] {
      var init, ex := corpus[..|corpus| - 1], corpus[|corpus| - 1];
      assert ex in corpus && forall e :: e in init ==> e in corpus;
      PerfectSums(init, detect, t);
      PerfectTotals(detect(ex.text), GoldOfExample(ex));
      TypeBounded(detect(ex.text), GoldOfExample(ex), t);
    }
  }

  lemma {:induction false} PerfectTotals(dets: seq<Detection>, gold: seq<Gold>)
    requires PerfectAnswer(dets, gold)
    ensures Misses(dets, gold) == 0 && UnusedAll(gold, Matching(dets, gold).Values) == 0
  {
    hide Matching, Misses, Hits, UnusedAll, NonEmpty, Transitive;
    PerfectIsComplete(dets, gold);
    NoMisses(dets, gold, |dets|);
    assert dets[..|dets|] == dets;
    SameLength(dets, gold);
    HitsConserve(dets, gold);
  }

  lemma {:induction false} PerfectIsComplete(dets: seq<Detection>, gold: seq<Gold>)
    requires PerfectAnswer(dets, gold)
    ensures Complete(dets, gold)
  {
    hide Matching, NonEmpty, Complete;
    if dets == SpansOf(gold) {
      InOrderComplete(gold);
    } else {
      TransitiveIsComplete(dets, gold);
    }
  }

  lemma {:induction false} SameLength(dets: seq<Detection>, gold: seq<Gold>)
    requires Answers(dets, gold)
    ensures |dets| == |gold|
  {
    assert |multiset(dets)| == |multiset(SpansOf(gold))|;
  }

  lemma {:induction false} NoMisses(dets: seq<Detection>, gold: seq<Gold>, n: nat)
    requires Complete(dets, gold) && n <= |dets|
    ensures Misses(dets[..n], gold) == 0
    decreases n
  {
    hide Matching, LastHits;
    if n > 0 {
      NoMisses(dets, gold, n - 1);
      HitIsMatched(dets, gold, n - 1);
      assert dets[..n][..n - 1] == dets[..n - 1];
    }
  }

  /** A type's errors are among all errors. */
  lemma {:induction false} TypeBounded(dets: seq<Detection>, gold: seq<Gold>, t: string)
    ensures Fp(dets, gold, t) <= Misses(dets, gold)
    ensures Fn(dets, gold, t) <= UnusedAll(gold, Matching(dets, gold).Values)
  {
    hide Matching;
    FpBounded(dets, gold, t);
    UnusedBounded(gold, Matching(dets, gold).Values, t);
  }

  lemma {:induction false} FpBounded(dets: seq<Detection>, gold: seq<Gold>, t: string)
    ensures Fp(dets, gold, t) <= Misses(dets, gold)
    decreases |dets|
  {
    hide LastHits;
    if dets != [] { FpBounded(dets[..|dets| - 1], gold, t); }
  }

  lemma {:induction false} UnusedBounded(gold: seq<Gold>, used: set<nat>, t: string)
    ensures Unused(gold, used, t) <= UnusedAll(gold, used)
    decreases |gold|
  {
    if gold != [] { UnusedBounded(gold[..|gold| - 1], used, t); }
  }
}
