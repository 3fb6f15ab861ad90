/**
 The similarity-threshold sweep: 101 thresholds, the best F1 score, ties to the higher threshold.

 Every dataset item has a route, so an item is a true positive, a false positive or a false negative
 at each threshold. F1 then depends on the true positives alone and cannot rise with the threshold.
 */
module Calibration {
  datatype Score = Score(similarity: real, predicted: string, truth: string, found: bool)

  const STEPS := 101

  function Threshold(i: nat): real {
    i as real / (STEPS - 1) as real
  }

  predicate Matched(s: Score, t: real) {
    s.found && s.similarity >= t
  }

  function TP(ss: seq<Score>, t: real, n: nat): nat
    requires n <= |ss|
  {
    if n == 0 then 0
    else TP(ss, t, n - 1) + if Matched(ss[n - 1], t) && ss[n - 1].predicted == ss[n - 1].truth then 1 else 0
  }

  function FP(ss: seq<Score>, t: real, n: nat): nat
    requires n <= |ss|
  {
    if n == 0 then 0
    else FP(ss, t, n - 1) + if Matched(ss[n - 1], t) && ss[n - 1].predicted != ss[n - 1].truth then 1 else 0
  }

  function FN(ss: seq<Score>, t: real, n: nat): nat
    requires n <= |ss|
  {
    if n == 0 then 0 else FN(ss, t, n - 1) + if Matched(ss[n - 1], t) then 0 else 1
  }

  // ---- What the counts and figures mean ---------------------------------------------------------------

  // The items among the first `n` matched at threshold `t` with the right route, with a wrong one, and not matched.
  ghost function CorrectTo(ss: seq<Score>, t: real, n: nat): set<int>
    requires n <= |ss|
  {
    set i | 0 <= i < n && ss[i].found && ss[i].similarity >= t && ss[i].predicted == ss[i].truth
  }

  ghost function WrongTo(ss: seq<Score>, t: real, n: nat): set<int>
    requires n <= |ss|
  {
    set i | 0 <= i < n && ss[i].found && ss[i].similarity >= t && ss[i].predicted != ss[i].truth
  }

  ghost function UnmatchedTo(ss: seq<Score>, t: real, n: nat): set<int>
    requires n <= |ss|
  {
    set i | 0 <= i < n && !(ss[i].found && ss[i].similarity >= t)
  }

  ghost function Correct(ss: seq<Score>, t: real): nat {
    |CorrectTo(ss, t, |ss|)|
  }

  ghost function Wrong(ss: seq<Score>, t: real): nat {
    |WrongTo(ss, t, |ss|)|
  }

  ghost function Unmatched(ss: seq<Score>, t: real): nat {
    |UnmatchedTo(ss, t, |ss|)|
  }

  lemma CorrectStep(ss: seq<Score>, t: real, n: nat)
    requires n < |ss|
    ensures var s := ss[n];
            CorrectTo(ss, t, n + 1) == CorrectTo(ss, t, n) +
              if s.found && s.similarity >= t && s.predicted == s.truth then {n} else {}
    ensures n !in CorrectTo(ss, t, n)
  {
  }

  lemma {:induction false} CorrectCount(ss: seq<Score>, t: real, n: nat)
    requires n <= |ss|
    ensures TP(ss, t, n) == |CorrectTo(ss, t, n)|
  {
    if n == 0 {
      assert CorrectTo(ss, t, n) == {};
    } else {
      CorrectStep(ss, t, n - 1);
      hide CorrectTo;
      CorrectCount(ss, t, n - 1);
    }
  }

  lemma WrongStep(ss: seq<Score>, t: real, n: nat)
    requires n < |ss|
    ensures var s := ss[n];
            WrongTo(ss, t, n + 1) == WrongTo(ss, t, n) +
              if s.found && s.similarity >= t && s.predicted != s.truth then {n} else {}
    ensures n !in WrongTo(ss, t, n)
  {
  }

  lemma {:induction false} WrongCount(ss: seq<Score>, t: real, n: nat)
    requires n <= |ss|
    ensures FP(ss, t, n) == |WrongTo(ss, t, n)|
  {
    if n == 0 {
      assert WrongTo(ss, t, n) == {};
    } else {
      WrongStep(ss, t, n - 1);
      hide WrongTo;
      WrongCount(ss, t, n - 1);
    }
  }

  lemma UnmatchedStep(ss: seq<Score>, t: real, n: nat)
    requires n < |ss|
    ensures var s := ss[n];
            UnmatchedTo(ss, t, n + 1) == UnmatchedTo(ss, t, n) + if !(s.found && s.similarity >= t) then {n} else {}
    ensures n !in UnmatchedTo(ss, t, n)
  {
  }

  lemma {:induction false} UnmatchedCount(ss: seq<Score>, t: real, n: nat)
    requires n <= |ss|
    ensures FN(ss, t, n) == |UnmatchedTo(ss, t, n)|
  {
    if n == 0 {
      assert UnmatchedTo(ss, t, n) == {};
    } else {
      UnmatchedStep(ss, t, n - 1);
      hide UnmatchedTo;
      UnmatchedCount(ss, t, n - 1);
    }
  }

  /** The counts are the numbers of items matched rightly, matched wrongly and not matched. */
  lemma CountsExactly(ss: seq<Score>, t: real)
    ensures TP(ss, t, |ss|) == Correct(ss, t) && FP(ss, t, |ss|) == Wrong(ss, t) && FN(ss, t, |ss|) == Unmatched(ss, t)
  {
    CorrectCount(ss, t, |ss|);
    WrongCount(ss, t, |ss|);
    UnmatchedCount(ss, t, |ss|);
  }

  /** Precision is the share of correct matches among all matches, and 1 without any; recall the share of correct
      matches among correct matches and unmatched items, and 0 without any. */
  lemma FiguresExactly(tp: nat, fp: nat, fn: nat)
    ensures IsShare(Precision(tp, fp), tp, tp + fp, 1.0) && IsShare(Recall(tp, fn), tp, tp + fn, 0.0)
  {
  }

  // `x` is the share of `part` in `whole`, or `empty` when there is no whole.
  predicate IsShare(x: real, part: nat, whole: nat, empty: real) {
    if whole > 0 then x * whole as real == part as real else x == empty
  }

  function Precision(tp: nat, fp: nat): real {
    if tp + fp > 0 then tp as real / (tp + fp) as real else 1.0
  }

  function Recall(tp: nat, fn: nat): real {
    if tp + fn > 0 then tp as real / (tp + fn) as real else 0.0
  }

  function HarmonicMean(p: real, r: real): real {
    if p + r > 0.0 then 2.0 * p * r / (p + r) else 0.0
  }

  function F1(ss: seq<Score>, t: real): real {
    var tp, fp, fn := TP(ss, t, |ss|), FP(ss, t, |ss|), FN(ss, t, |ss|);
    HarmonicMean(Precision(tp, fp), Recall(tp, fn))
  }

  // ---- F1 as a function of the true positives ------------------------------------------------------

  lemma {:induction false} Partition(ss: seq<Score>, t: real, n: nat)
    requires n <= |ss|
    ensures TP(ss, t, n) + FP(ss, t, n) + FN(ss, t, n) == n
  {
    if n > 0 {
      Partition(ss, t, n - 1);
    }
  }

  // The closed form, with no true positives giving 0.
  function ClosedF1(tp: nat, n: nat): real {
    if tp == 0 then 0.0 else 2.0 * tp as real / (n + tp) as real
  }

  lemma ClosedExactly(tp: nat, n: nat)
    ensures if tp == 0 then ClosedF1(tp, n) == 0.0 else ClosedF1(tp, n) * (n + tp) as real == 2.0 * tp as real
  {
  }

  lemma HarmonicOfRatios(x: real, a: real, b: real)
    requires x > 0.0 && a >= x && b >= x
    ensures HarmonicMean(x / a, x / b) == 2.0 * x / (a + b)
  {
    RatioSpec(x, a);
    RatioSpec(x, b);
    HarmonicStep(x, a, b, x / a, x / b);
  }

  lemma RatioSpec(x: real, a: real)
    requires x > 0.0 && a > 0.0
    ensures x / a > 0.0 && (x / a) * a == x
  {
  }

  lemma HarmonicStep(x: real, a: real, b: real, p: real, r: real)
    requires a > 0.0 && b > 0.0 && p > 0.0 && r > 0.0 && p * a == x && r * b == x
    ensures HarmonicMean(p, r) == 2.0 * x / (a + b)
  {
    Cross(x, a, b, p, r);
    Quotient(2.0 * p * r, p + r, 2.0 * x, a + b);
  }

  lemma Cross(x: real, a: real, b: real, p: real, r: real)
    requires a > 0.0 && b > 0.0 && p * a == x && r * b == x
    ensures 2.0 * p * r * (a + b) == 2.0 * x * (p + r)
  {
    calc {
      2.0 * p * r * (a + b);
      2.0 * r * (p * a) + 2.0 * p * (r * b);
      2.0 * r * x + 2.0 * p * x;
      2.0 * x * (p + r);
    }
  }

  lemma Quotient(u: real, v: real, w: real, z: real)
    requires v > 0.0 && z > 0.0 && u * z == w * v
    ensures u / v == w / z
  {
    var q := u / v;
    assert q * v == u;
    assert q * v * z == w * v;
    assert (q * z - w) * v == 0.0;
    assert q * z == w;
  }

  /** F1 is 2·TP / (n + TP), and 0 without true positives. */
  lemma F1Closed(ss: seq<Score>, t: real)
    ensures F1(ss, t) == ClosedF1(TP(ss, t, |ss|), |ss|)
    ensures var tp := TP(ss, t, |ss|);
            if tp == 0 then F1(ss, t) == 0.0 else F1(ss, t) * (|ss| + tp) as real == 2.0 * tp as real
  {
    ClosedExactly(TP(ss, t, |ss|), |ss|);
    hide TP, FP, FN;
    Partition(ss, t, |ss|);
    var tp, fp, fn := TP(ss, t, |ss|), FP(ss, t, |ss|), FN(ss, t, |ss|);
    if tp == 0 {
      assert Recall(tp, fn) == 0.0;
      var p := Precision(tp, fp);
      assert 2.0 * p * 0.0 == 0.0;
    } else {
      HarmonicOfRatios(tp as real, (tp + fp) as real, (tp + fn) as real);
      assert (tp + fp) as real + (tp + fn) as real == (|ss| + tp) as real;
    }
  }

  lemma ClosedF1Monotone(a: nat, b: nat, n: nat)
    requires a < b <= n
    ensures ClosedF1(a, n) < ClosedF1(b, n)
  {
    var x, y, m := a as real, b as real, n as real;
    assert (n + a) as real == m + x && (n + b) as real == m + y;
    if a == 0 {
      RatioSpec(2.0 * y, m + y);
    } else {
      assert x * m < y * m;
      assert 2.0 * x * (m + y) < 2.0 * y * (m + x);
      FractionLess(2.0 * x, m + x, 2.0 * y, m + y);
    }
  }

  lemma FractionLess(u: real, v: real, w: real, z: real)
    requires v > 0.0 && z > 0.0 && u * z < w * v
    ensures u / v < w / z
  {
    var p, q := u / v, w / z;
    assert p * v == u && q * z == w;
    calc {
      (q - p) * (v * z);
      (q * z) * v - (p * v) * z;
      w * v - u * z;
    }
    PositiveFactor(q - p, v * z);
  }

  lemma PositiveFactor(d: real, k: real)
    requires k > 0.0 && d * k > 0.0
    ensures d > 0.0
  {
  }

  lemma {:induction false} TPAntitone(ss: seq<Score>, t: real, u: real, n: nat)
    requires n <= |ss| && t <= u
    ensures TP(ss, u, n) <= TP(ss, t, n) <= n
  {
    if n > 0 {
      TPAntitone(ss, t, u, n - 1);
    }
  }

  /** F1 cannot rise with the threshold, and equals its value at 0 exactly while no true positive is lost. */
  lemma F1Antitone(ss: seq<Score>, t: real, u: real)
    requires t <= u
    ensures F1(ss, u) <= F1(ss, t)
    ensures F1(ss, u) == F1(ss, t) <==> TP(ss, u, |ss|) == TP(ss, t, |ss|)
  {
    hide TP, F1;
    TPAntitone(ss, t, u, |ss|);
    F1Closed(ss, t);
    F1Closed(ss, u);
    if TP(ss, u, |ss|) < TP(ss, t, |ss|) {
      ClosedF1Monotone(TP(ss, u, |ss|), TP(ss, t, |ss|), |ss|);
    }
  }

  // ---- The sweep ------------------------------------------------------------------------------------

  lemma ThresholdMonotone(i: nat, j: nat)
    requires i <= j
    ensures Threshold(i) <= Threshold(j)
  {
  }

  method Confusion(ss: seq<Score>, t: real) returns (tp: nat, fp: nat, fn: nat)
    ensures tp == TP(ss, t, |ss|) && fp == FP(ss, t, |ss|) && fn == FN(ss, t, |ss|)
  {
    tp, fp, fn := 0, 0, 0;
    for i := 0 to |ss|
      invariant tp == TP(ss, t, i) && fp == FP(ss, t, i) && fn == FN(ss, t, i)
    {
      var s := ss[i];
      if s.found && s.similarity >= t {
        if s.predicted == s.truth {
          tp := tp + 1;
        } else {
          fp := fp + 1;
        }
      } else {
        fn := fn + 1;
      }
    }
  }

  // `i` is the largest grid index below `n` that loses no true positive.
  ghost predicate LastFull(ss: seq<Score>, n: nat, i: nat) {
    && i < n && TP(ss, Threshold(i), |ss|) == TP(ss, 0.0, |ss|)
    && forall j | i < j < n :: TP(ss, Threshold(j), |ss|) < TP(ss, 0.0, |ss|)
  }

  // `t` is the largest of 0.00, 0.01, ..., 1.00 that loses no true positive.
  ghost predicate LargestFull(ss: seq<Score>, t: real) {
    exists i: nat ::
      && i <= 100 && t == i as real / 100.0
      && KeepsAll(ss, i) && forall j: nat | i < j <= 100 :: !KeepsAll(ss, j)
  }

  // Threshold i / 100 has as many correct matches as threshold 0.
  ghost predicate KeepsAll(ss: seq<Score>, i: nat) {
    Correct(ss, i as real / 100.0) == Correct(ss, 0.0)
  }

  lemma LargestIsLast(ss: seq<Score>, i: nat)
    requires LastFull(ss, STEPS, i)
    ensures LargestFull(ss, Threshold(i))
  {
    hide TP;
    CountsExactly(ss, 0.0);
    CountsExactly(ss, Threshold(i));
    assert KeepsAll(ss, i);
    forall j: nat | i < j <= 100 ensures !KeepsAll(ss, j) {
      CountsExactly(ss, Threshold(j));
    }
  }

  /** The sweep always returns the largest grid threshold that keeps as many correct matches as threshold 0,
      with that threshold's precision, recall and F1. */
  method SweepThresholds(ss: seq<Score>) returns (threshold: real, precision: real, recall: real, f1: real)
    ensures LargestFull(ss, threshold)
    ensures precision == Precision(TP(ss, threshold, |ss|), FP(ss, threshold, |ss|))
    ensures recall == Recall(TP(ss, threshold, |ss|), FN(ss, threshold, |ss|))
    ensures IsShare(precision, Correct(ss, threshold), Correct(ss, threshold) + Wrong(ss, threshold), 1.0)
    ensures IsShare(recall, Correct(ss, threshold), Correct(ss, threshold) + Unmatched(ss, threshold), 0.0)
    ensures f1 == F1(ss, threshold) == ClosedF1(Correct(ss, 0.0), |ss|)
    ensures var tp := Correct(ss, 0.0); if tp == 0 then f1 == 0.0 else f1 * (|ss| + tp) as real == 2.0 * tp as real
  {
    hide TP, FP, FN, ClosedF1, Correct, Wrong, Unmatched, LargestFull, IsShare, Precision, Recall, HarmonicMean;
    var bestF1 := -1.0;
    threshold, precision, recall, f1 := 0.0, 0.0, 0.0, 0.0;
    ghost var index: nat := 0;
    assert Threshold(0) == 0.0;
    F1Closed(ss, 0.0);
    NonNegative(ss);
    for i := 0 to STEPS
      invariant i == 0 ==> bestF1 == -1.0
      invariant i > 0 ==> LastFull(ss, i, index) && threshold == Threshold(index)
      invariant i > 0 ==> bestF1 == f1 == F1(ss, threshold) == F1(ss, 0.0)
      invariant i > 0 ==> precision == Precision(TP(ss, threshold, |ss|), FP(ss, threshold, |ss|))
      invariant i > 0 ==> recall == Recall(TP(ss, threshold, |ss|), FN(ss, threshold, |ss|))
    {
      var t := i as real / (STEPS - 1) as real;
      assert t == Threshold(i);
      var tp, fp, fn := Confusion(ss, t);
      var p := Precision(tp, fp);
      var r := Recall(tp, fn);
      var f := HarmonicMean(p, r);
      assert f == F1(ss, t);
      ThresholdMonotone(0, i);
      F1Antitone(ss, 0.0, t);
      TPAntitone(ss, 0.0, t, |ss|);
      if f >= bestF1 {
        bestF1, threshold, precision, recall, f1 := f, t, p, r, f;
        index := i;
      }
    }
    LargestIsLast(ss, index);
    ClosedExactly(Correct(ss, 0.0), |ss|);
    CountsExactly(ss, threshold);
    CountsExactly(ss, 0.0);
    FiguresExactly(TP(ss, threshold, |ss|), FP(ss, threshold, |ss|), FN(ss, threshold, |ss|));
  }

  lemma NonNegative(ss: seq<Score>)
    ensures F1(ss, 0.0) >= 0.0
  {
    F1Closed(ss, 0.0);
  }
}
