/** The breakdown by domain and the service-level gate. */
module SloGate {
  import opened Tokens
  import opened KeyOrder
  import opened Evaluation
  import opened EvaluationRun

  function DomainOf(ex: Example): string {
    if ex.domain.Some? then ex.domain.value else "unspecified"
  }

  /** A domain's examples, in corpus order. */
  function OfDomain(corpus: seq<Example>, d: string): seq<Example> {
    if corpus == [] then []
    else
      var init, ex := OfDomain(corpus[..|corpus| - 1], d), corpus[|corpus| - 1];
      if DomainOf(ex) == d then init + [ex] else init
  }

  lemma {:induction false} OfDomainSnoc(corpus: seq<Example>, ex: Example, d: string)
    ensures OfDomain(corpus + [ex], d) == if DomainOf(ex) == d then OfDomain(corpus, d) + [ex] else OfDomain(corpus, d)
  {
    assert (corpus + [ex])[..|corpus|] == corpus;
  }

  lemma {:induction false} OfDomainMembers(corpus: seq<Example>, d: string)
    ensures forall ex :: ex in OfDomain(corpus, d) <==> ex in corpus && DomainOf(ex) == d
    decreases |corpus|
  {
    if corpus != [] {
      OfDomainMembers(corpus[..|corpus| - 1], d);
      assert corpus == corpus[..|corpus| - 1] + [corpus[|corpus| - 1]];
    }
  }

  datatype DomainResult = DomainResult(domain: string, result: EvalResult)

  datatype Breakdown = Breakdown(overall: EvalResult, byDomain: seq<DomainResult>)

  /** The domains a corpus mentions, each once, in the order of the sorted dictionary. */
  ghost predicate DomainsOf(ds: seq<string>, corpus: seq<Example>) {
    Ascending(ds) && forall d :: d in ds <==> exists ex :: ex in corpus && DomainOf(ex) == d
  }

  ghost predicate BreaksDown(b: Breakdown, corpus: seq<Example>, detect: Detector) {
    && Reports(b.overall, corpus, detect)
    && DomainsOf(Names(b.byDomain), corpus)
    && forall i :: 0 <= i < |b.byDomain| ==> Reports(b.byDomain[i].result, OfDomain(corpus, b.byDomain[i].domain), detect)
  }

  function Names(rs: seq<DomainResult>): (ds: seq<string>)
    ensures |ds| == |rs| && forall i :: 0 <= i < |rs| ==> ds[i] == rs[i].domain
  {
    if rs == [] then [] else Names(rs[..|rs| - 1]) + [rs[|rs| - 1].domain]
  }

  /** The examples grouped by domain, the groups in order of first appearance. */
  method Group(corpus: seq<Example>) returns (groups: map<string, seq<Example>>, order: seq<string>)
    ensures NoDuplicates(order) && forall d :: d in order <==> exists ex :: ex in corpus && DomainOf(ex) == d
    ensures groups.Keys == (set d | d in order) && forall d :: d in groups ==> groups[d] == OfDomain(corpus, d)
  {
    groups, order := map[], [];
    for n := 0 to |corpus|
      invariant NoDuplicates(order) && forall d :: d in order <==> exists ex :: ex in corpus[..n] && DomainOf(ex) == d
      invariant forall d :: d in groups <==> d in order
      invariant forall d :: d in groups ==> groups[d] == OfDomain(corpus[..n], d)
      invariant forall d :: d !in groups ==> OfDomain(corpus[..n], d) == []
    {
      var ex := corpus[n];
      assert corpus[..n + 1] == corpus[..n] + [ex];
      var d := DomainOf(ex);
      hide DomainOf, OfDomain;
      forall k ensures OfDomain(corpus[..n + 1], k) == if DomainOf(ex) == k then OfDomain(corpus[..n], k) + [ex] else OfDomain(corpus[..n], k) {
        OfDomainSnoc(corpus[..n], ex, k);
      }
      if d !in groups { groups, order := groups[d := []], order + [d]; }
      groups := groups[d := groups[d] + [ex]];
    }
    assert corpus[..|corpus|] == corpus;
  }

  /** `None` when a labelled value is not in its text. */
  method EvaluateByDomain(corpus: seq<Example>, detect: Detector) returns (r: Option<Breakdown>)
    ensures r.None? <==> exists ex :: ex in corpus && !Labelled(ex)
    ensures r.Some? ==> BreaksDown(r.value, corpus, detect)
  {
    hide Labelled, Reports, OfDomain, DomainOf, Ascending, NoDuplicates, SortKeys;
    var groups, order := Group(corpus);
    var overall := Evaluate(corpus, detect);
    if overall.None? { return None; }
    SortKeysAscends(order);
    var keys := SortKeys(order);
    var byDomain: seq<DomainResult> := [];
    for i := 0 to |keys|
      invariant |byDomain| == i && forall j :: 0 <= j < i ==>
        byDomain[j].domain == keys[j] && Reports(byDomain[j].result, OfDomain(corpus, keys[j]), detect)
    {
      assert keys[i] in order;
      OfDomainMembers(corpus, keys[i]);
      var one := Evaluate(groups[keys[i]], detect);
      byDomain := byDomain + [DomainResult(keys[i], one.value)];
    }
    assert Names(byDomain) == keys;
    r := Some(Breakdown(overall.value, byDomain));
  }

  // ---------------------------------------------------------------------- the gate

  datatype Violation = Leak(scope: string) | Recall(scope: string)

  function CheckScope(scope: string, r: EvalResult, maxLeakRate: real, minRecall: real): seq<Violation> {
    (if r.leakRate > maxLeakRate then [Leak(scope)] else []) +
    (if r.micro.recall < minRecall then [Recall(scope)] else [])
  }

  predicate Passes(r: EvalResult, maxLeakRate: real, minRecall: real) {
    r.leakRate <= maxLeakRate && r.micro.recall >= minRecall
  }

  /** The scopes that fail, overall first, then domain by domain. */
  function Violations(b: Breakdown, n: nat, maxLeakRate: real, minRecall: real): seq<Violation>
    requires n <= |b.byDomain|
  {
    if n == 0 then CheckScope("overall", b.overall, maxLeakRate, minRecall)
    else
      var d := b.byDomain[n - 1];
      Violations(b, n - 1, maxLeakRate, minRecall) + CheckScope("domain[" + d.domain + "]", d.result, maxLeakRate, minRecall)
  }

  /** What the gate is given: one result, or one with its breakdown by domain. */
  datatype SloInput = Plain(result: EvalResult) | ByDomain(breakdown: Breakdown)

  method CheckSlo(input: SloInput, maxLeakRate: real, minRecall: real) returns (ok: bool, violations: seq<Violation>)
    ensures input.Plain? ==> violations == CheckScope("overall", input.result, maxLeakRate, minRecall)
    ensures input.ByDomain? ==> violations == Violations(input.breakdown, |input.breakdown.byDomain|, maxLeakRate, minRecall)
    ensures input.Plain? ==> (ok <==> Passes(input.result, maxLeakRate, minRecall))
    ensures input.ByDomain? ==> (ok <==> AllPass(input.breakdown, maxLeakRate, minRecall))
  {
    if input.Plain? {
      violations := CheckScope("overall", input.result, maxLeakRate, minRecall);
    } else {
      var b := input.breakdown;
      violations := CheckScope("overall", b.overall, maxLeakRate, minRecall);
      for i := 0 to |b.byDomain|
        invariant violations == Violations(b, i, maxLeakRate, minRecall)
        invariant violations == [] <==> (Passes(b.overall, maxLeakRate, minRecall) &&
          forall j :: 0 <= j < i ==> Passes(b.byDomain[j].result, maxLeakRate, minRecall))
      {
        violations := violations + CheckScope("domain[" + b.byDomain[i].domain + "]", b.byDomain[i].result, maxLeakRate, minRecall);
      }
    }
    ok := violations == [];
  }

  /** Each violation names the scope and the threshold it breaks, and none is left out. */
  lemma {:induction false} ViolationsExactly(b: Breakdown, n: nat, maxLeakRate: real, minRecall: real, v: Violation)
    requires n <= |b.byDomain|
    ensures v in Violations(b, n, maxLeakRate, minRecall) <==>
      || (v == Leak("overall") && b.overall.leakRate > maxLeakRate)
      || (v == Recall("overall") && b.overall.micro.recall < minRecall)
      || exists i :: 0 <= i < n && Breaks(b.byDomain[i], maxLeakRate, minRecall, v)
    decreases n
  {
    hide Breaks;
    if n > 0 {
      ViolationsExactly(b, n - 1, maxLeakRate, minRecall, v);
      ScopeBreaks(b.byDomain[n - 1], maxLeakRate, minRecall, v);
      hide CheckScope;
    }
  }

  predicate Breaks(d: DomainResult, maxLeakRate: real, minRecall: real, v: Violation) {
    || (v == Leak("domain[" + d.domain + "]") && d.result.leakRate > maxLeakRate)
    || (v == Recall("domain[" + d.domain + "]") && d.result.micro.recall < minRecall)
  }

  lemma {:induction false} ScopeBreaks(d: DomainResult, maxLeakRate: real, minRecall: real, v: Violation)
    ensures v in CheckScope("domain[" + d.domain + "]", d.result, maxLeakRate, minRecall) <==> Breaks(d, maxLeakRate, minRecall, v)
  {
  }

  /** An example without a domain is counted under "unspecified". */
  lemma {:induction false} NoDomainIsUnspecified(corpus: seq<Example>, ex: Example)
    ensures ex in OfDomain(corpus, "unspecified") <==> ex in corpus && (ex.domain.None? || ex.domain == Some("unspecified"))
  {
    OfDomainMembers(corpus, "unspecified");
  }

  predicate DomainsPass(b: Breakdown, maxLeakRate: real, minRecall: real) {
    forall i :: 0 <= i < |b.byDomain| ==> Passes(b.byDomain[i].result, maxLeakRate, minRecall)
  }

  predicate AllPass(b: Breakdown, maxLeakRate: real, minRecall: real) {
    Passes(b.overall, maxLeakRate, minRecall) && DomainsPass(b, maxLeakRate, minRecall)
  }

  // ------------------------------------------------------------------ adding up domains

  /** The totals of the listed domains together. */
  function SumDomains(ds: seq<string>, corpus: seq<Example>, detect: Detector): Totals {
    if ds == [] then NOTHING
    else SumDomains(ds[..|ds| - 1], corpus, detect).Plus(Sum(OfDomain(corpus, ds[|ds| - 1]), detect))
  }

  lemma {:induction false} SumDomainsSnoc(ds: seq<string>, corpus: seq<Example>, ex: Example, detect: Detector)
    requires NoDuplicates(ds)
    ensures SumDomains(ds, corpus + [ex], detect) ==
      if DomainOf(ex) in ds then SumDomains(ds, corpus, detect).Plus(TotalsOf(ex, detect)) else SumDomains(ds, corpus, detect)
    decreases |ds|
  {
    hide TotalsOf, Sum, OfDomain, DomainOf;
    if ds != [] {
      var init, d := ds[..|ds| - 1], ds[|ds| - 1];
      assert ds == init + [d] && d !in init;
      SumDomainsSnoc(init, corpus, ex, detect);
      OfDomainSnoc(corpus, ex, d);
      if DomainOf(ex) == d { SumSnoc(OfDomain(corpus, d), ex, detect); }
    }
  }

  /** Whatever the domains, their counts add up to the corpus's. */
  lemma {:induction false} DomainsAddUp(ds: seq<string>, corpus: seq<Example>, detect: Detector)
    requires NoDuplicates(ds) && forall ex :: ex in corpus ==> DomainOf(ex) in ds
    ensures SumDomains(ds, corpus, detect) == Sum(corpus, detect)
    decreases |corpus|
  {
    hide TotalsOf, DomainOf;
    if corpus == [] {
      NoDomains(ds, detect);
    } else {
      var init, ex := corpus[..|corpus| - 1], corpus[|corpus| - 1];
      assert corpus == init + [ex] && ex in corpus && forall e :: e in init ==> e in corpus;
      DomainsAddUp(ds, init, detect);
      SumDomainsSnoc(ds, init, ex, detect);
    }
  }

  lemma {:induction false} NoDomains(ds: seq<string>, detect: Detector)
    ensures SumDomains(ds, [], detect) == NOTHING
    decreases |ds|
  {
    hide Sum, TotalsOf;
    if ds != [] {
      NoDomains(ds[..|ds| - 1], detect);
      SumNone(detect);
      assert OfDomain([], ds[|ds| - 1]) == [];
    }
  }

  // --------------------------------------------------------------- the mediant argument

  /** The gate on totals, cross-multiplied. */
  predicate Within(x: Totals, maxLeakRate: real, minRecall: real) {
    x.leaked as real <= maxLeakRate * (x.values as real) && x.tp as real >= minRecall * (x.values as real)
  }

  lemma {:induction false} RatesAreWithin(x: Totals, maxLeakRate: real, minRecall: real)
    requires x.tp + x.fn == x.values && x.leaked <= x.values && minRecall <= 1.0 && maxLeakRate >= 0.0
    ensures LeakRate(x) <= maxLeakRate && Share(x.tp, x.fn) >= minRecall <==> Within(x, maxLeakRate, minRecall)
  {
    if x.values > 0 {
      CrossMultiply(x.leaked as real, x.values as real, maxLeakRate);
      CrossMultiply(x.tp as real, x.values as real, minRecall);
    }
  }

  lemma {:induction false} PassesIsWithin(r: EvalResult, corpus: seq<Example>, detect: Detector, maxLeakRate: real, minRecall: real)
    requires Reports(r, corpus, detect) && minRecall <= 1.0 && maxLeakRate >= 0.0
    ensures Passes(r, maxLeakRate, minRecall) <==> Within(Sum(corpus, detect), maxLeakRate, minRecall)
  {
    hide Sum, CountsOf, LeakRate, Share, F1, Within;
    SumConserves(corpus, detect);
    RatesAreWithin(Sum(corpus, detect), maxLeakRate, minRecall);
  }

  lemma {:induction false} CrossMultiply(a: real, b: real, c: real)
    requires b > 0.0
    ensures a / b <= c <==> a <= c * b
    ensures a / b >= c <==> a >= c * b
  {
    var q := a / b;
    assert q * b == a;
    Monotone(q, c, b);
    Monotone(c, q, b);
  }

  lemma {:induction false} Monotone(x: real, y: real, b: real)
    requires b > 0.0
    ensures x <= y <==> x * b <= y * b
  {
    assert y * b - x * b == (y - x) * b;
  }

  lemma {:induction false} WithinAdds(x: Totals, y: Totals, maxLeakRate: real, minRecall: real)
    requires Within(x, maxLeakRate, minRecall) && Within(y, maxLeakRate, minRecall)
    ensures Within(x.Plus(y), maxLeakRate, minRecall)
  {
    var a, b := x.values as real, y.values as real;
    assert maxLeakRate * (a + b) == maxLeakRate * a + maxLeakRate * b;
    assert minRecall * (a + b) == minRecall * a + minRecall * b;
  }

  lemma {:induction false} DomainsWithin(ds: seq<string>, corpus: seq<Example>, detect: Detector, maxLeakRate: real, minRecall: real)
    requires forall i :: 0 <= i < |ds| ==> Within(Sum(OfDomain(corpus, ds[i]), detect), maxLeakRate, minRecall)
    ensures Within(SumDomains(ds, corpus, detect), maxLeakRate, minRecall)
    decreases |ds|
  {
    hide Sum, OfDomain, Within;
    if ds == [] {
      NothingWithin(maxLeakRate, minRecall);
    } else {
      var n := |ds| - 1;
      DomainsWithin(ds[..n], corpus, detect, maxLeakRate, minRecall);
      WithinAdds(SumDomains(ds[..n], corpus, detect), Sum(OfDomain(corpus, ds[n]), detect), maxLeakRate, minRecall);
    }
  }

  lemma {:induction false} NothingWithin(maxLeakRate: real, minRecall: real)
    ensures Within(NOTHING, maxLeakRate, minRecall)
  {
  }

  /** The gate passes exactly when every domain passes: the overall rates never fail
      alone. */
  lemma {:induction false} GateIsPerDomain(b: Breakdown, corpus: seq<Example>, detect: Detector, maxLeakRate: real, minRecall: real)
    requires BreaksDown(b, corpus, detect) && minRecall <= 1.0 && maxLeakRate >= 0.0
    ensures AllPass(b, maxLeakRate, minRecall) <==> DomainsPass(b, maxLeakRate, minRecall)
  {
    hide BreaksDown, Passes;
    if DomainsPass(b, maxLeakRate, minRecall) { OverallFollows(b, corpus, detect, maxLeakRate, minRecall); }
  }

  lemma {:induction false} OverallFollows(b: Breakdown, corpus: seq<Example>, detect: Detector, maxLeakRate: real, minRecall: real)
    requires BreaksDown(b, corpus, detect) && minRecall <= 1.0 && maxLeakRate >= 0.0
    requires DomainsPass(b, maxLeakRate, minRecall)
    ensures Passes(b.overall, maxLeakRate, minRecall)
  {
    hide Reports, Passes, Within, Sum, OfDomain, DomainOf, SumDomains, Ascending, NoDuplicates;
    var ds := Names(b.byDomain);
    forall i | 0 <= i < |ds| ensures Within(Sum(OfDomain(corpus, ds[i]), detect), maxLeakRate, minRecall) {
      PassesIsWithin(b.byDomain[i].result, OfDomain(corpus, ds[i]), detect, maxLeakRate, minRecall);
    }
    DomainsWithin(ds, corpus, detect, maxLeakRate, minRecall);
    AscendingHasNoDuplicates(ds);
    assert forall ex :: ex in corpus ==> DomainOf(ex) in ds;
    DomainsAddUp(ds, corpus, detect);
    PassesIsWithin(b.overall, corpus, detect, maxLeakRate, minRecall);
  }

  lemma {:induction false} AscendingHasNoDuplicates(ds: seq<string>)
    requires Ascending(ds)
    ensures NoDuplicates(ds)
  {
    forall i, j | 0 <= i < j < |ds| ensures ds[i] != ds[j] {
      LexIrreflexive(ds[i]);
    }
  }
}
