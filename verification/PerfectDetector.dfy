/** A detector that finds exactly the gold spans: when the greedy matching gives each of
    them a gold span, and when the order of the lists can make it miss one. */
module PerfectDetector {
  import opened Intervals
  import opened Tokens
  import opened Evaluation

  function SpanOf(g: Gold): Detection {
    Detection(g.ty, g.start, g.end)
  }

  function SpansOf(gold: seq<Gold>): (ds: seq<Detection>)
    ensures |ds| == |gold| && forall i :: 0 <= i < |gold| ==> ds[i] == SpanOf(gold[i])
  {
    if gold == [] then [] else SpansOf(gold[..|gold| - 1]) + [SpanOf(gold[|gold| - 1])]
  }

  /** Two spans of one type that overlap. */
  predicate Alike(d: Detection, e: Detection) {
    d.ty == e.ty && Overlaps(d.start, d.end, e.start, e.end)
  }

  ghost predicate NonEmpty(ds: seq<Detection>) {
    forall d :: d in ds ==> d.start < d.end
  }

  /** Spans of one type that overlap a common third overlap each other. */
  ghost predicate Transitive(ds: seq<Detection>) {
    forall a, b, c :: a in ds && b in ds && c in ds && Alike(a, b) && Alike(b, c) ==> Alike(a, c)
  }

  /** The gold spans and nothing else, in any order. */
  ghost predicate Answers(dets: seq<Detection>, gold: seq<Gold>) {
    multiset(dets) == multiset(SpansOf(gold))
  }

  /** No detection and no gold span is left over. */
  ghost predicate Complete(dets: seq<Detection>, gold: seq<Gold>) {
    && (forall d: nat :: d < |dets| ==> d in Matching(dets, gold))
    && (forall g: nat :: g < |gold| ==> g in Matching(dets, gold).Values)
  }

  lemma {:induction false} FitsIsAlike(d: Detection, g: Gold)
    ensures Fits(d, g) <==> Alike(d, SpanOf(g)) && Alike(SpanOf(g), d)
  {
  }

  // ----------------------------------------------------------------- paired in order

  /** Every detection fits the gold span at its own place. */
  predicate Paired(dets: seq<Detection>, gold: seq<Gold>) {
    |dets| <= |gold| && forall i :: 0 <= i < |dets| ==> Fits(dets[i], gold[i])
  }

  /** Then each takes it, however the spans overlap each other. */
  lemma {:induction false} PairedMatches(dets: seq<Detection>, gold: seq<Gold>)
    requires Paired(dets, gold)
    ensures forall i: nat :: i in Matching(dets, gold) <==> i < |dets|
    ensures forall i: nat :: i in Matching(dets, gold) ==> Matching(dets, gold)[i] == i
    decreases |dets|
  {
    hide Fits;
    if dets != [] {
      var n := |dets| - 1;
      PairedMatches(dets[..n], gold);
      var m := Matching(dets[..n], gold);
      forall v | v in m.Values ensures v < n {
        var k :| k in m && m[k] == v;
      }
      forall i: nat | i < n ensures i in m.Values {
        assert i in m && m[i] == i;
      }
      assert n !in m.Values && Fits(dets[n], gold[n]);
    }
  }

  /** A detector that answers in the order of the labels matches each span to itself. */
  lemma {:induction false} InOrderComplete(gold: seq<Gold>)
    requires NonEmpty(SpansOf(gold))
    ensures Complete(SpansOf(gold), gold)
    ensures forall i: nat :: i < |gold| ==> i in Matching(SpansOf(gold), gold) && Matching(SpansOf(gold), gold)[i] == i
  {
    hide Matching;
    var ds := SpansOf(gold);
    forall i | 0 <= i < |ds| ensures Fits(ds[i], gold[i]) {
      assert ds[i] in ds;
    }
    PairedMatches(ds, gold);
    var m := Matching(ds, gold);
    forall g: nat | g < |gold| ensures g in m.Values {
      assert g in m && m[g] == g;
    }
  }

  // ------------------------------------------------------------------------ counting

  function CountAlike(ds: seq<Detection>, x: Detection): nat {
    if ds == [] then 0 else CountAlike(ds[..|ds| - 1], x) + One(Alike(ds[|ds| - 1], x))
  }

  lemma {:induction false} CountWithout(a: seq<Detection>, d: Detection, b: seq<Detection>, x: Detection)
    ensures CountAlike(a + [d] + b, x) == CountAlike(a + b, x) + One(Alike(d, x))
    decreases |b|
  {
    hide Alike;
    if b == [] {
      assert a + [d] + b == a + [d] && a + b == a && (a + [d])[..|a|] == a;
    } else {
      var init, e := b[..|b| - 1], b[|b| - 1];
      CountWithout(a, d, init, x);
      assert (a + [d] + b)[..|a| + |b|] == a + [d] + init && (a + b)[..|a| + |b| - 1] == a + init;
    }
  }

  lemma {:induction false} Around<T>(s: seq<T>, x: T) returns (a: seq<T>, b: seq<T>)
    requires x in s
    ensures s == a + [x] + b && s == a + ([x] + b)
  {
    var j :| 0 <= j < |s| && s[j] == x;
    a, b := s[..j], s[j + 1..];
  }

  lemma {:induction false} TakenOut<T>(init: seq<T>, x: T, a: seq<T>, b: seq<T>)
    requires multiset(init + [x]) == multiset(a + [x] + b)
    ensures multiset(init) == multiset(a + b)
  {
    assert multiset(init) == multiset(init + [x]) - multiset{x};
    assert multiset(a + b) == multiset(a + [x] + b) - multiset{x};
  }

  lemma {:induction false} PutIn<T>(init: seq<T>, x: T, a: seq<T>, b: seq<T>)
    requires multiset(init) == multiset(a + b)
    ensures multiset(init + [x]) == multiset(a + ([x] + b))
  {
    assert multiset(a + ([x] + b)) == multiset(a + b) + multiset{x};
  }

  /** The count does not depend on the order. */
  lemma {:induction false} CountPermuted(ds: seq<Detection>, es: seq<Detection>, x: Detection)
    requires multiset(ds) == multiset(es)
    ensures CountAlike(ds, x) == CountAlike(es, x)
    decreases |ds|
  {
    hide Alike;
    if ds == [] {
      assert |multiset(es)| == 0;
    } else {
      var init, d := ds[..|ds| - 1], ds[|ds| - 1];
      assert ds == init + [d] && d in multiset(es);
      var a, b := Around(es, d);
      TakenOut(init, d, a, b);
      CountPermuted(init, a + b, x);
      CountWithout(a, d, b, x);
    }
  }

  ghost function AlikeAt(ds: seq<Detection>, x: Detection): set<nat> {
    set i: nat | i < |ds| && Alike(ds[i], x)
  }

  lemma {:induction false} CountIsSize(ds: seq<Detection>, x: Detection)
    ensures |AlikeAt(ds, x)| == CountAlike(ds, x)
    decreases |ds|
  {
    hide Alike;
    if ds == [] {
      assert AlikeAt(ds, x) == {};
    } else {
      var n := |ds| - 1;
      CountIsSize(ds[..n], x);
      assert AlikeAt(ds, x) == AlikeAt(ds[..n], x) + (if Alike(ds[n], x) then {n} else {});
    }
  }

  /** What a map takes a set of its keys to is no larger than the set. */
  lemma {:induction false} ImageBound(m: map<nat, nat>, keys: set<nat>, image: set<nat>)
    requires keys <= m.Keys && forall v :: v in image ==> exists k :: k in keys && m[k] == v
    ensures |image| <= |keys|
    decreases |keys|
  {
    if image != {} {
      var v :| v in image;
      var k :| k in keys && m[k] == v;
      forall w | w in image - {v} ensures exists l :: l in keys - {k} && m[l] == w {
        var l :| l in keys && m[l] == w;
      }
      ImageBound(m, keys - {k}, image - {v});
    }
  }

  // ----------------------------------------------------------- transitive: any order

  /** A detection left over would leave its whole cluster one detection short. */
  lemma {:induction false} NoneLeftOver(dets: seq<Detection>, gold: seq<Gold>, d: nat)
    requires Answers(dets, gold) && NonEmpty(dets) && Transitive(dets) && d < |dets|
    ensures d in Matching(dets, gold)
  {
    hide Matching, Alike, Fits;
    var m, x, spans := Matching(dets, gold), dets[d], SpansOf(gold);
    if d !in m {
      var wanted, cluster := AlikeAt(spans, x), AlikeAt(dets, x);
      CountPermuted(dets, spans, x);
      CountIsSize(dets, x);
      CountIsSize(spans, x);
      MatchingIsOneToOne(dets, gold);
      var takers := set e | e in m && e in cluster;
      assert d in cluster by { SelfAlike(dets, d); }
      assert takers <= cluster - {d};
      Smaller(takers, cluster - {d});
      forall g | g in wanted ensures exists e :: e in takers && m[e] == g {
        TakerIsAlike(dets, gold, d, g);
      }
      ImageBound(m, takers, wanted);
      assert false;
    }
  }

  lemma {:induction false} SelfAlike(dets: seq<Detection>, d: nat)
    requires NonEmpty(dets) && d < |dets|
    ensures Alike(dets[d], dets[d])
  {
    assert dets[d] in dets;
  }

  lemma {:induction false} Smaller(a: set<nat>, b: set<nat>)
    requires a <= b
    ensures |a| <= |b|
  {
    assert b == a + (b - a);
  }

  lemma {:induction false} TakerIsAlike(dets: seq<Detection>, gold: seq<Gold>, d: nat, g: nat)
    requires Answers(dets, gold) && Transitive(dets) && d < |dets| && d !in Matching(dets, gold)
    requires g < |gold| && Alike(SpanOf(gold[g]), dets[d])
    ensures exists e :: e in Matching(dets, gold) && Matching(dets, gold)[e] == g && e < |dets| && Alike(dets[e], dets[d])
  {
    hide Matching, Alike, Fits;
    var m := Matching(dets, gold);
    FitsIsAlike(dets[d], gold[g]);
    assert g in m.Values by {
      if g !in m.Values { MatchingIsMaximal(dets, gold, d, g); SymmetricFits(dets[d], gold[g]); }
    }
    var e :| e in m && m[e] == g;
    MatchingIsOneToOne(dets, gold);
    FitsIsAlike(dets[e], gold[g]);
    assert SpansOf(gold)[g] in multiset(SpansOf(gold)) && SpanOf(gold[g]) in dets;
    assert dets[e] in dets && dets[d] in dets;
  }

  lemma {:induction false} SymmetricFits(d: Detection, g: Gold)
    requires Alike(SpanOf(g), d)
    ensures Fits(d, g)
  {
  }

  lemma {:induction false} TransitiveIsComplete(dets: seq<Detection>, gold: seq<Gold>)
    requires Answers(dets, gold) && NonEmpty(dets) && Transitive(dets)
    ensures Complete(dets, gold)
  {
    hide Matching, Fits, Alike, Transitive, NonEmpty;
    var m := Matching(dets, gold);
    forall d: nat | d < |dets| ensures d in m {
      NoneLeftOver(dets, gold, d);
    }
    assert |multiset(dets)| == |multiset(SpansOf(gold))|;
    MatchingIsOneToOne(dets, gold);
    AllTaken(m, |gold|);
  }

  /** As many takers as there are places, no place taken twice: every place is taken. */
  lemma {:induction false} AllTaken(m: map<nat, nat>, n: nat)
    requires (forall d: nat :: d in m <==> d < n) && (forall d :: d in m ==> m[d] < n)
    requires forall d, e :: d in m && e in m && m[d] == m[e] ==> d == e
    ensures forall g: nat :: g < n ==> g in m.Values
  {
    assert m.Keys == Places(n);
    forall g: nat | g < n ensures g in m.Values {
      if g !in m.Values { OneShort(m, n, g); }
    }
  }

  /** If a place is not taken, the takers fit into the others. */
  lemma {:induction false} OneShort(m: map<nat, nat>, n: nat, g: nat)
    requires g < n && g !in m.Values && forall d :: d in m ==> m[d] < n
    requires forall d, e :: d in m && e in m && m[d] == m[e] ==> d == e
    ensures |m.Keys| < n
  {
    assert |Places(n)| == |Places(n) - {g}| + 1;
    forall k | k in m.Keys ensures m[k] in Places(n) - {g} {
      assert m[k] in m.Values;
    }
    TakersBound(m, m.Keys, Places(n) - {g});
  }

  ghost function Places(n: nat): (s: set<nat>)
    ensures |s| == n && forall i: nat :: i in s <==> i < n
  {
    if n == 0 then {} else Places(n - 1) + {n - 1}
  }

  lemma {:induction false} TakersBound(m: map<nat, nat>, keys: set<nat>, places: set<nat>)
    requires keys <= m.Keys && forall k :: k in keys ==> m[k] in places
    requires forall d, e :: d in keys && e in keys && m[d] == m[e] ==> d == e
    ensures |keys| <= |places|
    decreases |keys|
  {
    if keys != {} {
      var k :| k in keys;
      TakersBound(m, keys - {k}, places - {m[k]});
    }
  }

  /** Where no two gold spans of a type overlap, each detection takes the very span it
      found, in whatever order they come. */
  lemma {:induction false} DisjointMatches(dets: seq<Detection>, gold: seq<Gold>)
    requires Answers(dets, gold) && NonEmpty(dets)
    requires forall i, j :: 0 <= i < j < |gold| ==> !Alike(SpanOf(gold[i]), SpanOf(gold[j])) && !Alike(SpanOf(gold[j]), SpanOf(gold[i]))
    ensures Complete(dets, gold)
    ensures forall d: nat :: d < |dets| ==>
      (d in Matching(dets, gold) && Matching(dets, gold)[d] < |gold| && SpanOf(gold[Matching(dets, gold)[d]]) == dets[d])
  {
    hide Matching, Fits, Alike, NonEmpty;
    forall a, b | a in dets && b in dets && Alike(a, b) ensures a == b {
      var i := PlaceOf(dets, gold, a);
      var j := PlaceOf(dets, gold, b);
    }
    assert Transitive(dets);
    TransitiveIsComplete(dets, gold);
    MatchingIsOneToOne(dets, gold);
    forall d: nat | d < |dets| ensures SpanOf(gold[Matching(dets, gold)[d]]) == dets[d] {
      var g := Matching(dets, gold)[d];
      FitsIsAlike(dets[d], gold[g]);
      assert SpansOf(gold)[g] in multiset(SpansOf(gold)) && dets[d] in dets;
    }
  }

  lemma {:induction false} PlaceOf(dets: seq<Detection>, gold: seq<Gold>, d: Detection) returns (i: nat)
    requires Answers(dets, gold) && d in dets
    ensures i < |gold| && SpanOf(gold[i]) == d
  {
    assert d in multiset(SpansOf(gold));
    i :| 0 <= i < |SpansOf(gold)| && SpansOf(gold)[i] == d;
  }

  // ------------------------------------------------------ not transitive: some order misses

  function Without(gold: seq<Gold>, g: Gold): (rest: seq<Gold>)
    requires g in gold
    ensures multiset(rest) == multiset(gold) - multiset{g}
    decreases |gold|
  {
    assert gold == gold[..|gold| - 1] + [gold[|gold| - 1]];
    if gold[|gold| - 1] == g then gold[..|gold| - 1] else Without(gold[..|gold| - 1], g) + [gold[|gold| - 1]]
  }

  lemma {:induction false} SpansAppend(a: seq<Gold>, b: seq<Gold>)
    ensures SpansOf(a + b) == SpansOf(a) + SpansOf(b)
  {
  }

  /** From three spans of which only two pairs overlap: the middle one first takes the
      first, the last takes the middle one, and the first is left with nothing it fits. */
  lemma {:induction false} IntransitiveMisses(gold: seq<Gold>, a: Gold, b: Gold, c: Gold) returns (dets: seq<Detection>, order: seq<Gold>)
    requires NonEmpty(SpansOf(gold)) && a in gold && b in gold && c in gold
    requires Alike(SpanOf(b), SpanOf(a)) && Alike(SpanOf(c), SpanOf(b)) && !Alike(SpanOf(a), SpanOf(c))
    ensures multiset(order) == multiset(gold) && Answers(dets, gold) && !Complete(dets, order)
  {
    hide Matching, Complete, NonEmpty, Alike, SpansOf, Fits;
    var rest := SetAside(gold, a, b, c);
    order := [a, b] + rest + [c];
    dets := [SpanOf(b), SpanOf(c)] + SpansOf(rest) + [SpanOf(a)];
    Rotated(gold, order, dets, rest, a, b, c);
    forall r | r in rest ensures Fits(SpanOf(r), r) {
      assert r in multiset(order) && r in multiset(gold);
      SelfFits(gold, r);
    }
    FitsIsAlike(SpanOf(b), a);
    FitsIsAlike(SpanOf(c), b);
    FitsIsAlike(SpanOf(a), c);
    SymmetricAlike(SpanOf(b), SpanOf(a));
    SymmetricAlike(SpanOf(c), SpanOf(b));
    LastMisses(dets, order, rest, a, b, c);
  }

  lemma {:induction false} SelfFits(gold: seq<Gold>, g: Gold)
    requires NonEmpty(SpansOf(gold)) && g in gold
    ensures Fits(SpanOf(g), g)
  {
    SpansMembers(gold);
  }

  /** The other gold spans. */
  lemma {:induction false} SetAside(gold: seq<Gold>, a: Gold, b: Gold, c: Gold) returns (rest: seq<Gold>)
    requires NonEmpty(SpansOf(gold)) && a in gold && b in gold && c in gold
    requires Alike(SpanOf(b), SpanOf(a)) && Alike(SpanOf(c), SpanOf(b)) && !Alike(SpanOf(a), SpanOf(c))
    ensures multiset([a, b] + rest + [c]) == multiset(gold)
  {
    SpansMembers(gold);
    assert SpanOf(a) in SpansOf(gold);
    assert a != b && b != c && a != c;
    assert b in multiset(Without(gold, a));
    var two := Without(Without(gold, a), b);
    assert c in multiset(two);
    rest := Without(two, c);
    Gathered(gold, rest, a, b, c);
  }

  lemma {:induction false} Gathered<T>(s: seq<T>, rest: seq<T>, a: T, b: T, c: T)
    requires a in s && b in s && c in s && a != b && b != c && a != c
    requires multiset(rest) == multiset(s) - multiset{a} - multiset{b} - multiset{c}
    ensures multiset([a, b] + rest + [c]) == multiset(s)
  {
    assert multiset([a, b] + rest + [c]) == multiset(rest) + multiset{a} + multiset{b} + multiset{c};
  }

  lemma {:induction false} Rotation<T>(rest: seq<T>, a: T, b: T, c: T)
    ensures multiset([b, c] + rest + [a]) == multiset([a, b] + rest + [c])
  {
  }

  lemma {:induction false} Rotated(gold: seq<Gold>, order: seq<Gold>, dets: seq<Detection>, rest: seq<Gold>, a: Gold, b: Gold, c: Gold)
    requires order == [a, b] + rest + [c] && multiset(order) == multiset(gold)
    requires dets == [SpanOf(b), SpanOf(c)] + SpansOf(rest) + [SpanOf(a)]
    ensures Answers(dets, gold)
  {
    hide SpansOf, SpanOf;
    SpansPermuted(order, gold);
    assert order == ([a] + ([b] + rest)) + [c];
    SpansSnoc([a] + ([b] + rest), c);
    SpansCons(a, [b] + rest);
    SpansCons(b, rest);
    assert SpansOf(order) == [SpanOf(a), SpanOf(b)] + SpansOf(rest) + [SpanOf(c)];
    Rotation(SpansOf(rest), SpanOf(a), SpanOf(b), SpanOf(c));
  }

  lemma {:induction false} SpansSnoc(gold: seq<Gold>, g: Gold)
    ensures SpansOf(gold + [g]) == SpansOf(gold) + [SpanOf(g)]
  {
    hide SpanOf;
  }

  lemma {:induction false} SpansCons(g: Gold, gold: seq<Gold>)
    ensures SpansOf([g] + gold) == [SpanOf(g)] + SpansOf(gold)
  {
    hide SpanOf;
  }

  lemma {:induction false} SpansMembers(gold: seq<Gold>)
    ensures forall g :: g in gold ==> SpanOf(g) in SpansOf(gold)
  {
    forall g | g in gold ensures SpanOf(g) in SpansOf(gold) {
      var i :| 0 <= i < |gold| && gold[i] == g;
      assert SpansOf(gold)[i] == SpanOf(g);
    }
  }

  lemma {:induction false} SpansPermuted(x: seq<Gold>, y: seq<Gold>)
    requires multiset(x) == multiset(y)
    ensures multiset(SpansOf(x)) == multiset(SpansOf(y))
    decreases |x|
  {
    hide SpansOf, SpanOf;
    if x == [] {
      assert |multiset(y)| == 0;
    } else {
      var init, g := x[..|x| - 1], x[|x| - 1];
      assert x == init + [g] && g in multiset(y);
      var a, b := Around(y, g);
      TakenOut(init, g, a, b);
      SpansPermuted(init, a + b);
      SpansAppend(a, b);
      SpansAppend(a, [g] + b);
      SpansCons(g, b);
      SpansSnoc(init, g);
      PutIn(SpansOf(init), SpanOf(g), SpansOf(a), SpansOf(b));
    }
  }

  lemma {:induction false} LastMisses(dets: seq<Detection>, order: seq<Gold>, rest: seq<Gold>, a: Gold, b: Gold, c: Gold)
    requires dets == [SpanOf(b), SpanOf(c)] + SpansOf(rest) + [SpanOf(a)] && order == [a, b] + rest + [c]
    requires Fits(SpanOf(b), a) && Fits(SpanOf(c), b) && !Fits(SpanOf(a), c) && forall r :: r in rest ==> Fits(SpanOf(r), r)
    ensures !Complete(dets, order)
  {
    hide Fits;
    var n := |dets| - 1;
    var init := dets[..n];
    forall i | 0 <= i < n ensures Fits(init[i], order[i]) {
      if i >= 2 { assert init[i] == SpanOf(rest[i - 2]) && rest[i - 2] in rest; }
    }
    PairedMatches(init, order);
    var m := Matching(init, order);
    forall i: nat | i < n ensures i in m.Values {
      assert i in m && m[i] == i;
    }
    assert order[n] == c && dets[n] == SpanOf(a);
    assert FirstFree(dets[n], order, m.Values, 0).None?;
    assert n !in Matching(dets, order);
  }

  /** Whatever the order of the answer and of the labels, exactly the gold spans are always
      matched completely if and only if overlap within a type is transitive among them. */
  lemma {:induction false} EveryOrderCompleteExactly(gold: seq<Gold>)
    requires NonEmpty(SpansOf(gold))
    ensures Transitive(SpansOf(gold)) <==>
      forall dets, order :: multiset(order) == multiset(gold) && Answers(dets, gold) ==> Complete(dets, order)
  {
    hide Complete, Alike, NonEmpty;
    var spans := SpansOf(gold);
    if Transitive(spans) {
      forall dets, order | multiset(order) == multiset(gold) && Answers(dets, gold) ensures Complete(dets, order) {
        SpansPermuted(order, gold);
        SameMembers(dets, spans);
        TransitiveIsComplete(dets, order);
      }
    } else {
      var x, y, z :| x in spans && y in spans && z in spans && Alike(x, y) && Alike(y, z) && !Alike(x, z);
      var a, b, c := GoldAt(gold, x), GoldAt(gold, y), GoldAt(gold, z);
      SymmetricAlike(x, y);
      SymmetricAlike(y, z);
      var dets, order := IntransitiveMisses(gold, a, b, c);
    }
  }

  lemma {:induction false} SymmetricAlike(d: Detection, e: Detection)
    ensures Alike(d, e) ==> Alike(e, d)
  {
  }

  ghost function GoldAt(gold: seq<Gold>, d: Detection): (g: Gold)
    requires d in SpansOf(gold)
    ensures g in gold && SpanOf(g) == d
  {
    var i :| 0 <= i < |gold| && SpansOf(gold)[i] == d;
    gold[i]
  }

  lemma {:induction false} SameMembers(ds: seq<Detection>, es: seq<Detection>)
    requires multiset(ds) == multiset(es)
    ensures NonEmpty(ds) <==> NonEmpty(es)
    ensures Transitive(ds) <==> Transitive(es)
  {
    hide Alike;
    assert forall d :: d in ds <==> d in multiset(ds);
    assert forall d :: d in es <==> d in multiset(es);
  }

  /** Three such spans, in an order that costs a miss and a false alarm. */
  lemma {:induction false} OrderMatters(t: string) returns (dets: seq<Detection>, gold: seq<Gold>)
    ensures Answers(dets, gold) && Fp(dets, gold, t) == 1 && Fn(dets, gold, t) == 1
  {
    hide Matching, FirstFree, LastHits, Fp, Fn, Unused, Answers, Fits;
    gold := [Gold(t, 0, 6, "a"), Gold(t, 5, 10, "f"), Gold(t, 9, 12, "j")];
    var a, b, c := Detection(t, 0, 6), Detection(t, 5, 10), Detection(t, 9, 12);
    dets := [b, c, a];
    OrderAnswers(a, b, c, gold);
    OrderFits(a, b, c, gold);
    OrderMatching(a, b, c, gold);
    OrderHits(a, b, c, gold);
    assert dets[..2] == [b, c] && [b, c][..1] == [b];
    OrderCounts(dets, gold, t);
  }

  lemma {:induction false} OrderAnswers(a: Detection, b: Detection, c: Detection, gold: seq<Gold>)
    requires |gold| == 3 && SpanOf(gold[0]) == a && SpanOf(gold[1]) == b && SpanOf(gold[2]) == c
    ensures Answers([b, c, a], gold)
  {
    hide SpanOf, SpansOf;
    assert SpansOf(gold) == [a] + [b, c];
    assert [b, c, a] == [b, c] + [a];
  }

  lemma {:induction false} OrderFits(a: Detection, b: Detection, c: Detection, gold: seq<Gold>)
    requires |gold| == 3 && a.ty == b.ty == c.ty && gold[0].ty == gold[1].ty == gold[2].ty == a.ty
    requires a.start == 0 && a.end == 6 && b.start == 5 && b.end == 10 && c.start == 9 && c.end == 12
    requires gold[0].start == 0 && gold[0].end == 6 && gold[1].start == 5 && gold[1].end == 10 && gold[2].start == 9
    ensures Fits(b, gold[0]) && !Fits(c, gold[0]) && Fits(c, gold[1]) && !Fits(a, gold[2])
  {
  }

  lemma {:induction false} OrderCounts(dets: seq<Detection>, gold: seq<Gold>, t: string)
    requires |dets| == 3 && dets[2].ty == t && |gold| == 3 && gold[2].ty == t
    requires LastHits(dets[..2][..1], gold) && LastHits(dets[..2], gold) && !LastHits(dets, gold)
    requires Matching(dets, gold).Values == {0, 1}
    ensures Fp(dets, gold, t) == 1 && Fn(dets, gold, t) == 1
  {
    hide Matching, LastHits;
    assert Fp(dets[..2][..1][..0], gold, t) == 0 && Fp(dets[..2][..1], gold, t) == 0 && Fp(dets[..2], gold, t) == 0;
    assert Unused(gold[..2][..1][..0], {0, 1}, t) == 0;
    assert Unused(gold[..2][..1], {0, 1}, t) == 0 && Unused(gold[..2], {0, 1}, t) == 0;
  }

  lemma {:induction false} OrderMatching(a: Detection, b: Detection, c: Detection, gold: seq<Gold>)
    requires |gold| == 3 && Fits(b, gold[0]) && !Fits(c, gold[0]) && Fits(c, gold[1]) && !Fits(a, gold[2])
    ensures Matching([b], gold).Values == {0} && Matching([b, c], gold).Values == {0, 1}
    ensures Matching([b, c, a], gold).Values == {0, 1}
  {
    hide Fits;
    assert [b, c, a][..2] == [b, c] && [b, c][..1] == [b] && [b][..0] == [];
    assert Matching([], gold).Values == {};
    var m := Matching([b], gold);
    assert m == map[0 := 0] && m[0] == 0 && m.Values == {0};
    assert FirstFree(c, gold, {0}, 0) == Some(1);
    var m' := Matching([b, c], gold);
    assert m' == map[0 := 0, 1 := 1] && m'[0] == 0 && m'[1] == 1 && m'.Values == {0, 1};
  }

  lemma {:induction false} OrderHits(a: Detection, b: Detection, c: Detection, gold: seq<Gold>)
    requires |gold| == 3 && Fits(b, gold[0]) && !Fits(c, gold[0]) && Fits(c, gold[1]) && !Fits(a, gold[2])
    requires Matching([b], gold).Values == {0} && Matching([b, c], gold).Values == {0, 1}
    ensures LastHits([b], gold) && LastHits([b, c], gold) && !LastHits([b, c, a], gold)
  {
    hide Fits;
    assert [b, c, a][..2] == [b, c] && [b, c][..1] == [b] && [b][..0] == [];
    assert Matching([], gold).Values == {};
    hide Matching;
  }
}
