/** Running a champion and a challenger side by side, and the gate on promoting the challenger. */
module ShadowScoring {
  import opened Sequences

  datatype Disagreement<T> = Disagreement(rowIndex: nat, champion: int, challenger: int, features: T)

  datatype ShadowComparison<T> = ShadowComparison(
    championAnomalies: nat, challengerAnomalies: nat, rowsCompared: nat,
    agreement: real, alertDelta: real, examples: seq<Disagreement<T>>)

  datatype Verdict = TooFewRows | DeltaTooLarge | Safe

  const MIN_ROWS := 100
  const INFINITE_DELTA := 1000.0
  const DEFAULT_MAX_DELTA := 20.0

  predicate IsAnomaly(prediction: int) { prediction == -1 }

  predicate AreLabels(predictions: seq<int>) { forall i | 0 <= i < |predictions| :: predictions[i] in {-1, 1} }

  /** The rows on which the two models differ, in order. */
  function Differing(xs: seq<int>, ys: seq<int>): (r: seq<nat>)
    requires |xs| == |ys|
    ensures forall k | 0 <= k < |r| :: r[k] < |xs|
  {
    if xs == [] then []
    else
      var n, before := |xs| - 1, Differing(xs[..|xs| - 1], ys[..|ys| - 1]);
      if xs[n] == ys[n] then before else before + [n]
  }

  /** What a slice keeps of a list of `n`: a negative bound counts from the end. */
  function SliceBound(n: nat, bound: int): (k: nat)
    ensures k <= n
    ensures bound >= 0 ==> k <= bound && (k < bound ==> k == n)
    ensures bound < 0 ==> if n + bound > 0 then k == n + bound else k == 0
  {
    if bound >= 0 then (if bound < n then bound else n) else (if n + bound > 0 then n + bound else 0)
  }

  /** The change of alert volume in percent; growth from nothing counts as a fixed large number. */
  function AlertDelta(champion: nat, challenger: nat): real {
    if champion == 0 then (if challenger > 0 then INFINITE_DELTA else 0.0)
    else (challenger - champion) as real / champion as real * 100.0
  }

  function ExampleOf<T>(rows: seq<T>, xs: seq<int>, ys: seq<int>, i: nat): Disagreement<T>
    requires i < |rows| == |xs| == |ys|
  {
    Disagreement(i, xs[i], ys[i], rows[i])
  }

  /** The models map a batch to one prediction per row. */
  method ShadowScore<T>(champion: seq<T> -> seq<int>, challenger: seq<T> -> seq<int>, rows: seq<T>, sample: int)
    returns (comparison: ShadowComparison<T>)
    requires |champion(rows)| == |challenger(rows)| == |rows|
    ensures comparison.championAnomalies == Count(champion(rows), IsAnomaly)
    ensures comparison.challengerAnomalies == Count(challenger(rows), IsAnomaly)
    ensures comparison.rowsCompared == |rows|
    ensures comparison.agreement
            == if rows == [] then 1.0
               else (|rows| - |Differing(champion(rows), challenger(rows))|) as real / |rows| as real
    ensures comparison.alertDelta == AlertDelta(comparison.championAnomalies, comparison.challengerAnomalies)
    ensures var differing := Differing(champion(rows), challenger(rows));
            && |comparison.examples| == SliceBound(|differing|, sample)
            && forall k | 0 <= k < |comparison.examples| ::
                 var example, i := comparison.examples[k], differing[k];
                 && example.rowIndex == i && example.features == rows[i]
                 && example.champion == champion(rows)[i] != challenger(rows)[i] == example.challenger
  {
    if rows == [] {
      return ShadowComparison(0, 0, 0, 1.0, 0.0, []);
    }
    var xs, ys := champion(rows), challenger(rows);
    var championAnomalies, challengerAnomalies := Count(xs, IsAnomaly), Count(ys, IsAnomaly);
    var differing := Differing(xs, ys);
    DifferingIsShort(xs, ys);
    var agreement := (|rows| - |differing|) as real / |rows| as real;
    var delta := AlertDelta(championAnomalies, challengerAnomalies);
    var chosen := differing[..SliceBound(|differing|, sample)];
    var examples: seq<Disagreement<T>> := [];
    for k := 0 to |chosen|
      invariant |examples| == k
      invariant forall j | 0 <= j < k :: examples[j] == ExampleOf(rows, xs, ys, differing[j])
    {
      examples := examples + [ExampleOf(rows, xs, ys, chosen[k])];
    }
    forall k | 0 <= k < |examples|
      ensures xs[differing[k]] != ys[differing[k]]
    {
      DifferingIsExact(xs, ys, differing[k]);
    }
    comparison := ShadowComparison(championAnomalies, challengerAnomalies, |rows|, agreement, delta, examples);
  }

  function ShouldPromote<T>(comparison: ShadowComparison<T>, maxDelta: real): Verdict {
    if comparison.rowsCompared < MIN_ROWS then TooFewRows
    else if comparison.alertDelta > maxDelta || -comparison.alertDelta > maxDelta then DeltaTooLarge
    else Safe
  }

  // ---------------------------------------------------------------- counting facts

  lemma {:induction false} DifferingIsShort(xs: seq<int>, ys: seq<int>)
    requires |xs| == |ys|
    ensures |Differing(xs, ys)| <= |xs|
  {
    if xs == [] {
    } else {
      DifferingIsShort(xs[..|xs| - 1], ys[..|ys| - 1]);
    }
  }

  /** They are listed in row order. */
  lemma {:induction false} DifferingAscends(xs: seq<int>, ys: seq<int>)
    requires |xs| == |ys|
    ensures forall i, j | 0 <= i < j < |Differing(xs, ys)| :: Differing(xs, ys)[i] < Differing(xs, ys)[j]
  {
    if xs == [] {
    } else {
      DifferingAscends(xs[..|xs| - 1], ys[..|ys| - 1]);
    }
  }

  /** The rows listed are exactly those on which the models differ. */
  lemma {:induction false} DifferingIsExact(xs: seq<int>, ys: seq<int>, i: nat)
    requires |xs| == |ys| && i < |xs|
    ensures i in Differing(xs, ys) <==> xs[i] != ys[i]
  {
    var n := |xs| - 1;
    if i < n {
      DifferingIsExact(xs[..n], ys[..n], i);
    } else {
      forall k | k in Differing(xs[..n], ys[..n])
        ensures k < n
      {
      }
    }
  }

  /** The change in anomaly counts is at most the number of rows that differ, and odd exactly with it. */
  lemma {:induction false} CountsDifferByDisagreements(xs: seq<int>, ys: seq<int>)
    requires |xs| == |ys| && AreLabels(xs) && AreLabels(ys)
    ensures var change, d := Count(ys, IsAnomaly) - Count(xs, IsAnomaly), |Differing(xs, ys)|;
            -d <= change <= d && (d - change) % 2 == 0
  {
    if xs == [] {
    } else {
      var n := |xs| - 1;
      CountsDifferByDisagreements(xs[..n], ys[..n]);
      assert xs[n] in {-1, 1} && ys[n] in {-1, 1};
    }
  }

  // ---------------------------------------------------------------- the gate

  lemma QuotientBound(change: real, base: real, limit: real)
    requires base > 0.0
    ensures change / base * 100.0 <= limit <==> 100.0 * change <= limit * base
  {
    var q := change / base;
    assert q * base == change;
    if q * 100.0 <= limit {
      ScaleUp(q * 100.0, limit, base);
      assert 100.0 * change == (q * 100.0) * base;
    } else {
      ScaleUpStrictly(limit, q * 100.0, base);
      assert 100.0 * change == (q * 100.0) * base;
    }
  }

  lemma ScaleUp(x: real, y: real, base: real)
    requires x <= y && base > 0.0
    ensures x * base <= y * base
  {
  }

  lemma ScaleUpStrictly(x: real, y: real, base: real)
    requires x < y && base > 0.0
    ensures x * base < y * base
  {
  }

  lemma NegatedQuotient(x: real, base: real)
    requires base > 0.0
    ensures -(x / base) == (-x) / base
  {
    var q := x / base;
    assert q * base == x;
    assert (-q) * base == -x;
  }

  function Distance(a: nat, b: nat): nat { if a >= b then a - b else b - a }

  lemma DeltaWithin(champion: nat, challenger: nat, limit: real)
    requires champion > 0
    ensures (AlertDelta(champion, challenger) <= limit && -AlertDelta(champion, challenger) <= limit)
            <==> 100.0 * Distance(champion, challenger) as real <= limit * champion as real
  {
    var change, base := (challenger - champion) as real, champion as real;
    QuotientBound(change, base, limit);
    QuotientBound(-change, base, limit);
    NegatedQuotient(change, base);
    assert Distance(champion, challenger) as real == if change >= 0.0 then change else -change;
  }

  /** The delta grows with the challenger's alerts, is nothing exactly when the two agree, and reverses with them:
      it tells more alerts from fewer. */
  lemma DeltaTellsDirection(champion: nat, challenger: nat, more: nat)
    requires challenger < more
    ensures champion > 0 || challenger == 0 ==> AlertDelta(champion, challenger) < AlertDelta(champion, more)
    ensures AlertDelta(champion, challenger) > 0.0 <==> challenger > champion
    ensures AlertDelta(champion, challenger) < 0.0 <==> challenger < champion
    ensures champion > 0 ==> AlertDelta(champion, 2 * champion) == 100.0 && AlertDelta(champion, 0) == -100.0
  {
    if champion > 0 {
      var base := champion as real;
      QuotientsCompare((challenger - champion) as real, (more - champion) as real, base);
      QuotientsCompare((challenger - champion) as real, 0.0, base);
      QuotientsCompare(0.0, (challenger - champion) as real, base);
      WholeChange(base);
    }
  }

  lemma QuotientsCompare(x: real, y: real, base: real)
    requires base > 0.0
    ensures x < y <==> x / base < y / base
  {
    var p, q := x / base, y / base;
    assert p * base == x && q * base == y;
    assert (q - p) * base == y - x;
  }

  lemma WholeChange(base: real)
    requires base > 0.0
    ensures base / base == 1.0 && (-base) / base == -1.0
  {
    NegatedQuotient(base, base);
  }

  /** A comparison of too few rows is refused for that, whatever its delta. */
  lemma FewRowsAreRefused<T>(comparison: ShadowComparison<T>, limit: real)
    ensures ShouldPromote(comparison, limit) == TooFewRows <==> comparison.rowsCompared < 100
  {
  }

  /** When the gate opens, for any limit. Growth from nothing passes once the limit reaches its stand-in. */
  lemma GateOpensExactly<T>(comparison: ShadowComparison<T>, limit: real)
    requires comparison.alertDelta == AlertDelta(comparison.championAnomalies, comparison.challengerAnomalies)
    ensures var before, after := comparison.championAnomalies, comparison.challengerAnomalies;
            ShouldPromote(comparison, limit) == Safe
            <==> && comparison.rowsCompared >= 100
                 && (if before > 0 then 100.0 * Distance(before, after) as real <= limit * before as real
                     else if after > 0 then limit >= 1000.0
                     else limit >= 0.0)
  {
    if comparison.championAnomalies > 0 {
      DeltaWithin(comparison.championAnomalies, comparison.challengerAnomalies, limit);
    }
  }

  /** The default gate: a hundred rows, and five times the change within the champion's count. */
  lemma DefaultGateOpensExactly<T>(comparison: ShadowComparison<T>)
    requires comparison.alertDelta == AlertDelta(comparison.championAnomalies, comparison.challengerAnomalies)
    ensures ShouldPromote(comparison, DEFAULT_MAX_DELTA) == Safe
            <==> && comparison.rowsCompared >= 100
                 && 5 * Distance(comparison.championAnomalies, comparison.challengerAnomalies)
                    <= comparison.championAnomalies
  {
    GateOpensExactly(comparison, DEFAULT_MAX_DELTA);
    var before := comparison.championAnomalies;
    var change := Distance(before, comparison.challengerAnomalies);
    assert 100.0 * change as real <= 20.0 * before as real <==> 5 * change <= before;
  }

  /** A challenger that differs on few enough rows always passes the default gate. */
  lemma FewDisagreementsPass<T>(comparison: ShadowComparison<T>, xs: seq<int>, ys: seq<int>)
    requires |xs| == |ys| == comparison.rowsCompared >= 100 && AreLabels(xs) && AreLabels(ys)
    requires comparison.championAnomalies == Count(xs, IsAnomaly)
    requires comparison.challengerAnomalies == Count(ys, IsAnomaly)
    requires comparison.alertDelta == AlertDelta(comparison.championAnomalies, comparison.challengerAnomalies)
    requires 5 * |Differing(xs, ys)| <= Count(xs, IsAnomaly)
    ensures ShouldPromote(comparison, DEFAULT_MAX_DELTA) == Safe
  {
    CountsDifferByDisagreements(xs, ys);
    DefaultGateOpensExactly(comparison);
  }
}
