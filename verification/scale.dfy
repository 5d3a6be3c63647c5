/**
  The price-scale search of `Signal._factor` (trader/signal.py).

  Providers sometimes publish prices with the decimal point dropped
  ("28390" for 0.02839). `_factor` tries the factors 10^-6, 10^-5, ..., 10^0
  in increasing order, measuring how far the rescaled price lands from the
  live mark price, and stops at the first factor that is not strictly
  closer than the best so far. This module models that loop exactly and
  proves that, for a positive mark price, the early stop still returns the
  global minimiser (the smallest one on ties), because the distance is a
  convex function of the factor.
 */
module Scale {
  import opened Decimal

  /** `Signal.MIN_PRECISION`: the smallest factor tried is 10^-MinPrecision. */
  const MinPrecision: nat := 6

  /**
    The i-th factor tried, `1 / (10 ** (MIN_PRECISION - i))`: the last one
    is 1 and each is a tenth of the next (`CandidateFormula` proves the
    closed form).
   */
  function Candidate(i: nat): (f: real)
    requires i <= MinPrecision
    ensures 0.0 < f <= 1.0
    decreases MinPrecision - i
  {
    if i == MinPrecision then 1.0 else Candidate(i + 1) / 10.0
  }

  function Abs(x: real): real {
    if x < 0.0 then -x else x
  }

  /** How far the price `x` lies from the mark price, relative to the mark. */
  function Gap(x: real, markP: real): real
    requires markP != 0.0
  {
    Abs(x - markP) / markP
  }

  /** `abs(sig_p * f - mark_p) / mark_p` */
  function Dist(sigP: real, f: real, markP: real): real
    requires markP != 0.0
  {
    Gap(sigP * f, markP)
  }

  /** The distance reached with the i-th factor. */
  function DistAt(sigP: real, markP: real, i: nat): real
    requires markP != 0.0 && i <= MinPrecision
  {
    Dist(sigP, Candidate(i), markP)
  }

  /** The loop variable `minima`, which starts at `math.inf`. */
  datatype Bound = Infinity | Finite(value: real)

  predicate Below(d: real, minima: Bound) {
    minima.Infinity? || d < minima.value
  }

  /** `f` is one of the seven factors the loop tries. */
  predicate IsCandidate(f: real) {
    exists k :: 0 <= k <= MinPrecision && f == Candidate(k)
  }

  /**
    The loop of `_factor` from iteration `i` on, with the current `minima`
    and `factor`: take the i-th factor while it is strictly closer, else
    break and return the factor kept so far.
   */
  function Scan(sigP: real, markP: real, i: nat, minima: Bound, factor: real): (r: real)
    requires markP != 0.0 && i <= MinPrecision + 1
    requires IsCandidate(factor)
    ensures IsCandidate(r)
    decreases MinPrecision + 1 - i
  {
    if i > MinPrecision then factor
    else
      var f := Candidate(i);
      var d := Dist(sigP, f, markP);
      if Below(d, minima) then Scan(sigP, markP, i + 1, Finite(d), f) else factor
  }

  /**
    `Signal._factor(sig_p, mark_p)`. Python raises ZeroDivisionError when
    the mark price is zero, so the model requires a non-zero mark.
   */
  function Factor(sigP: real, markP: real): (r: real)
    requires markP != 0.0
    ensures IsCandidate(r)
    ensures 0.0 < r <= 1.0
  {
    assert Candidate(MinPrecision) == 1.0;
    Scan(sigP, markP, 0, Infinity, 1.0)
  }

  // ---------------------------------------------------------------------
  // The factors

  /** Consecutive factors differ by a factor of ten. */
  lemma CandidateStep(i: nat)
    requires i < MinPrecision
    ensures Candidate(i + 1) == 10.0 * Candidate(i)
  {
  }

  /** The factors are exactly the source's `1 / (10 ** (MIN_PRECISION - i))`. */
  lemma {:induction false} CandidateFormula(i: nat)
    requires i <= MinPrecision
    ensures Candidate(i) == 1.0 / Pow10(MinPrecision - i)
    decreases MinPrecision - i
  {
    if i < MinPrecision {
      CandidateFormula(i + 1);
      var p := Pow10(MinPrecision - i - 1);
      assert Pow10(MinPrecision - i) == 10.0 * p;
      assert Candidate(i + 1) * p == 1.0;
      assert Candidate(i) * (10.0 * p) == 1.0;
    }
  }

  /** The seven factors, spelled out. */
  lemma CandidateValues()
    ensures Candidate(0) == 0.000001 && Candidate(1) == 0.00001 && Candidate(2) == 0.0001
    ensures Candidate(3) == 0.001 && Candidate(4) == 0.01 && Candidate(5) == 0.1
    ensures Candidate(6) == 1.0
  {
    assert Candidate(5) == 0.1;
    assert Candidate(4) == 0.01;
    assert Candidate(3) == 0.001;
    assert Candidate(2) == 0.0001;
    assert Candidate(1) == 0.00001;
  }

  /** The factors are tried in strictly increasing order. */
  lemma {:induction false} CandidateIncreasing(i: nat, j: nat)
    requires i < j <= MinPrecision
    ensures Candidate(i) < Candidate(j)
    decreases j - i
  {
    CandidateStep(j - 1);
    if i < j - 1 {
      CandidateIncreasing(i, j - 1);
    }
  }

  // ---------------------------------------------------------------------
  // Convexity of the distance along the factors

  /** Comparing distances is comparing absolute deviations, for a positive mark. */
  lemma DistOrder(a: real, b: real, m: real)
    requires m > 0.0
    ensures a / m < b / m <==> a < b
    ensures a / m <= b / m <==> a <= b
  {
    assert a / m * m == a;
    assert b / m * m == b;
    if a < b {
      assert (b / m - a / m) * m == b - a;
    }
    if a / m < b / m {
      assert (b / m - a / m) * m == b - a;
    }
    if a <= b {
      assert (b / m - a / m) * m == b - a;
    }
    if a / m <= b / m {
      assert (b / m - a / m) * m == b - a;
    }
  }

  /** `|.|` along three points spaced 1 : 10 cannot fall again once it has risen. */
  lemma AbsStep(u: real, v: real, w: real)
    requires w - v == 10.0 * (v - u)
    ensures Abs(v) >= Abs(u) ==> Abs(w) >= Abs(v)
  {
  }

  /** The same fact for the gaps of the prices a, b = 10a and c = 10b. */
  lemma ConvexAt(a: real, b: real, c: real, m: real)
    requires m > 0.0 && b == 10.0 * a && c == 10.0 * b
    ensures Gap(b, m) >= Gap(a, m) ==> Gap(c, m) >= Gap(b, m)
  {
    AbsStep(a - m, b - m, c - m);
    DistOrder(Abs(a - m), Abs(b - m), m);
    DistOrder(Abs(b - m), Abs(c - m), m);
  }

  /** The convexity of the gaps, for the prices `sigP` takes under factors ten apart. */
  lemma ConvexScaled(sigP: real, markP: real, f0: real, f1: real, f2: real)
    requires markP > 0.0 && f1 == 10.0 * f0 && f2 == 10.0 * f1
    ensures Dist(sigP, f1, markP) >= Dist(sigP, f0, markP)
        ==> Dist(sigP, f2, markP) >= Dist(sigP, f1, markP)
  {
    assert sigP * f1 == 10.0 * (sigP * f0);
    assert sigP * f2 == 10.0 * (sigP * f1);
    ConvexAt(sigP * f0, sigP * f1, sigP * f2, markP);
  }

  /** Once the distance stops falling it never falls again. */
  lemma ConvexStep(sigP: real, markP: real, j: nat)
    requires markP > 0.0 && j + 2 <= MinPrecision
    ensures DistAt(sigP, markP, j + 1) >= DistAt(sigP, markP, j)
        ==> DistAt(sigP, markP, j + 2) >= DistAt(sigP, markP, j + 1)
  {
    CandidateStep(j);
    CandidateStep(j + 1);
    ConvexScaled(sigP, markP, Candidate(j), Candidate(j + 1), Candidate(j + 2));
  }

  /** The distance falls strictly over the first `n` factors. */
  predicate DecreasingUpTo(sigP: real, markP: real, n: nat)
    requires markP != 0.0 && n <= MinPrecision + 1
  {
    forall j :: 0 <= j && j + 1 < n ==> DistAt(sigP, markP, j + 1) < DistAt(sigP, markP, j)
  }

  /**
    Index `k` is the leftmost minimiser of the distance over all seven
    factors: strictly better than every smaller factor, no worse than every
    larger one.
   */
  predicate IsLeftmostArgmin(sigP: real, markP: real, k: nat)
    requires markP != 0.0
  {
    && k <= MinPrecision
    && (forall j :: 0 <= j < k ==> DistAt(sigP, markP, k) < DistAt(sigP, markP, j))
    && (forall j :: k < j <= MinPrecision ==> DistAt(sigP, markP, k) <= DistAt(sigP, markP, j))
  }

  lemma {:induction false} ChainBelow(sigP: real, markP: real, n: nat, j: nat, k: nat)
    requires markP != 0.0 && n <= MinPrecision + 1
    requires DecreasingUpTo(sigP, markP, n)
    requires j < k < n
    ensures DistAt(sigP, markP, k) < DistAt(sigP, markP, j)
    decreases k - j
  {
    if j + 1 < k {
      ChainBelow(sigP, markP, n, j, k - 1);
    }
  }

  lemma {:induction false} StepsUp(sigP: real, markP: real, k: nat, i: nat)
    requires markP > 0.0 && k <= i < MinPrecision
    requires DistAt(sigP, markP, k + 1) >= DistAt(sigP, markP, k)
    ensures DistAt(sigP, markP, i + 1) >= DistAt(sigP, markP, i)
    decreases i - k
  {
    if k < i {
      StepsUp(sigP, markP, k, i - 1);
      ConvexStep(sigP, markP, i - 1);
    }
  }

  lemma {:induction false} ChainAbove(sigP: real, markP: real, k: nat, j: nat)
    requires markP > 0.0 && k < j <= MinPrecision
    requires DistAt(sigP, markP, k + 1) >= DistAt(sigP, markP, k)
    ensures DistAt(sigP, markP, j) >= DistAt(sigP, markP, k)
    decreases j - k
  {
    if k + 1 < j {
      ChainAbove(sigP, markP, k, j - 1);
      StepsUp(sigP, markP, k, j - 1);
    }
  }

  // ---------------------------------------------------------------------
  // The early break finds the global minimum

  /**
    From iteration `i` on, with the distance strictly falling so far, the
    loop returns the leftmost minimiser.
   */
  lemma {:induction false} ScanFinds(sigP: real, markP: real, i: nat) returns (k: nat)
    requires markP > 0.0 && 1 <= i <= MinPrecision + 1
    requires DecreasingUpTo(sigP, markP, i)
    ensures i - 1 <= k <= MinPrecision
    ensures Scan(sigP, markP, i, Finite(DistAt(sigP, markP, i - 1)), Candidate(i - 1)) == Candidate(k)
    ensures IsLeftmostArgmin(sigP, markP, k)
    decreases MinPrecision + 1 - i
  {
    if i == MinPrecision + 1 {
      k := MinPrecision;
      forall j | 0 <= j < k ensures DistAt(sigP, markP, k) < DistAt(sigP, markP, j) {
        ChainBelow(sigP, markP, i, j, k);
      }
    } else if DistAt(sigP, markP, i) < DistAt(sigP, markP, i - 1) {
      assert DecreasingUpTo(sigP, markP, i + 1);
      k := ScanFinds(sigP, markP, i + 1);
    } else {
      k := i - 1;
      forall j | 0 <= j < k ensures DistAt(sigP, markP, k) < DistAt(sigP, markP, j) {
        ChainBelow(sigP, markP, i, j, k);
      }
      forall j | k < j <= MinPrecision ensures DistAt(sigP, markP, k) <= DistAt(sigP, markP, j) {
        ChainAbove(sigP, markP, k, j);
      }
    }
  }

  /**
    For a positive mark price `_factor` returns the factor whose rescaled
    price is nearest the mark, the smallest such factor on ties.
   */
  lemma FactorArgmin(sigP: real, markP: real) returns (k: nat)
    requires markP > 0.0
    ensures k <= MinPrecision && Factor(sigP, markP) == Candidate(k)
    ensures IsLeftmostArgmin(sigP, markP, k)
  {
    assert Candidate(MinPrecision) == 1.0;
    assert Factor(sigP, markP)
        == Scan(sigP, markP, 1, Finite(DistAt(sigP, markP, 0)), Candidate(0));
    k := ScanFinds(sigP, markP, 1);
  }

  /** A leftmost minimiser rules out every other index. */
  lemma OtherIndexNotArgmin(sigP: real, markP: real, k: nat, k': nat)
    requires markP != 0.0
    requires IsLeftmostArgmin(sigP, markP, k) && k' <= MinPrecision && k' != k
    ensures !IsLeftmostArgmin(sigP, markP, k')
  {
    if k < k' {
      assert DistAt(sigP, markP, k) <= DistAt(sigP, markP, k');
    } else {
      assert DistAt(sigP, markP, k) < DistAt(sigP, markP, k');
    }
  }

  /** There is only one leftmost minimiser. */
  lemma LeftmostArgminUnique(sigP: real, markP: real, k: nat, k': nat)
    requires markP != 0.0 && k <= MinPrecision && k' <= MinPrecision
    ensures IsLeftmostArgmin(sigP, markP, k) && IsLeftmostArgmin(sigP, markP, k') ==> k == k'
  {
    if IsLeftmostArgmin(sigP, markP, k) && k != k' {
      OtherIndexNotArgmin(sigP, markP, k, k');
    }
  }

  /** Distinct indices give distinct factors. */
  lemma CandidateInjective(i: nat, j: nat)
    requires i <= MinPrecision && j <= MinPrecision
    ensures Candidate(i) == Candidate(j) ==> i == j
  {
    if i < j {
      CandidateIncreasing(i, j);
    } else if j < i {
      CandidateIncreasing(j, i);
    }
  }

  /**
    Both directions: `_factor` returns the k-th factor exactly when k is
    the leftmost minimiser of the distance.
   */
  lemma FactorIsLeftmostArgmin(sigP: real, markP: real, k: nat)
    requires markP > 0.0 && k <= MinPrecision
    ensures Factor(sigP, markP) == Candidate(k) <==> IsLeftmostArgmin(sigP, markP, k)
  {
    var k0 := FactorArgmin(sigP, markP);
    CandidateInjective(k, k0);
    LeftmostArgminUnique(sigP, markP, k, k0);
  }

  /** No factor brings the price nearer the mark than the one `_factor` returns. */
  lemma FactorMinimises(sigP: real, markP: real, j: nat)
    requires markP > 0.0 && j <= MinPrecision
    ensures Dist(sigP, Factor(sigP, markP), markP) <= DistAt(sigP, markP, j)
  {
    var k := FactorArgmin(sigP, markP);
    if j < k {
      assert DistAt(sigP, markP, k) < DistAt(sigP, markP, j);
    } else if k < j {
      assert DistAt(sigP, markP, k) <= DistAt(sigP, markP, j);
    }
  }

  /** On a tie with another factor, `_factor` returned the smaller one. */
  lemma FactorSmallestOnTies(sigP: real, markP: real, j: nat)
    requires markP > 0.0 && j <= MinPrecision
    ensures DistAt(sigP, markP, j) == Dist(sigP, Factor(sigP, markP), markP)
        ==> Factor(sigP, markP) <= Candidate(j)
  {
    var k := FactorArgmin(sigP, markP);
    assert Dist(sigP, Factor(sigP, markP), markP) == DistAt(sigP, markP, k);
    if j < k {
      assert DistAt(sigP, markP, k) < DistAt(sigP, markP, j);
    } else if k < j {
      CandidateIncreasing(k, j);
    }
  }

  // ---------------------------------------------------------------------
  // A corrected price is stable

  /**
    When the distance falls at the last step, a convex profile falls at
    every step, so the last factor is the leftmost minimiser.
   */
  lemma LastIsLeftmost(q: real, markP: real)
    requires markP > 0.0
    requires DistAt(q, markP, 6) < DistAt(q, markP, 5)
    ensures IsLeftmostArgmin(q, markP, MinPrecision)
  {
    ConvexStep(q, markP, 4);
    ConvexStep(q, markP, 3);
    ConvexStep(q, markP, 2);
    ConvexStep(q, markP, 1);
    ConvexStep(q, markP, 0);
    forall j | 0 <= j < MinPrecision
      ensures DistAt(q, markP, MinPrecision) < DistAt(q, markP, j)
    {
      if j == 0 {
      } else if j == 1 {
      } else if j == 2 {
      } else if j == 3 {
      } else if j == 4 {
      } else {
        assert j == 5;
      }
    }
  }

  /** The last step of the second scan compares the k-th factor with the one before it. */
  lemma SettledLastStep(sigP: real, markP: real, k: nat, f: real, q: real)
    requires markP > 0.0 && 1 <= k <= MinPrecision
    requires IsLeftmostArgmin(sigP, markP, k) && f == Candidate(k) && q == sigP * f
    ensures DistAt(q, markP, 6) < DistAt(q, markP, 5)
  {
    ScaledBySame(sigP, f, Candidate(k), q);
    RescaledByOne(sigP, markP, k);
    RescaledByTenth(sigP, markP, k);
    assert DistAt(sigP, markP, k) < DistAt(sigP, markP, k - 1);
  }

  /** A price scaled by a factor is scaled by anything equal to it. */
  lemma ScaledBySame(sigP: real, f: real, c: real, q: real)
    requires f == c && q == sigP * f
    ensures q == sigP * c
  {
  }

  /** Rescaling the k-th price by the last factor, 1, leaves its distance alone. */
  lemma RescaledByOne(sigP: real, markP: real, k: nat)
    requires markP != 0.0 && k <= MinPrecision
    ensures DistAt(sigP * Candidate(k), markP, MinPrecision) == DistAt(sigP, markP, k)
  {
    var q := sigP * Candidate(k);
    assert Candidate(MinPrecision) == 1.0;
    assert DistAt(q, markP, MinPrecision) == Dist(q, 1.0, markP);
    ShiftedDist(sigP, Candidate(k), Candidate(k), markP, 1.0);
    assert Dist(q, 1.0, markP) == Dist(sigP, Candidate(k), markP);
    assert Dist(sigP, Candidate(k), markP) == DistAt(sigP, markP, k);
  }

  /** Rescaling the k-th price by the factor 0.1 lands on the (k-1)-th price. */
  lemma RescaledByTenth(sigP: real, markP: real, k: nat)
    requires markP != 0.0 && 1 <= k <= MinPrecision
    ensures DistAt(sigP * Candidate(k), markP, MinPrecision - 1) == DistAt(sigP, markP, k - 1)
  {
    assert Candidate(MinPrecision - 1) == 0.1;
    CandidateStep(k - 1);
    TenthDist(sigP, Candidate(k), Candidate(k - 1), markP);
  }

  /** Two ways of writing the same rescaled price are equally far from the mark. */
  lemma ShiftedDist(sigP: real, c: real, d: real, markP: real, f: real)
    requires markP != 0.0 && (sigP * c) * f == sigP * d
    ensures Dist(sigP * c, f, markP) == Dist(sigP, d, markP)
  {
  }

  /** Scaling by a factor and then by 0.1 is scaling by a tenth of the factor. */
  lemma TenthDist(sigP: real, ck: real, ck1: real, markP: real)
    requires markP != 0.0 && ck == 10.0 * ck1
    ensures Dist(sigP * ck, 0.1, markP) == Dist(sigP, ck1, markP)
  {
    calc {
      (sigP * ck) * 0.1;
    ==
      sigP * (10.0 * ck1) * 0.1;
    ==
      sigP * ck1;
    }
    ShiftedDist(sigP, ck, ck1, markP, 0.1);
  }

  /**
    Conditional idempotence of the correction: when the factor chosen for a
    price was larger than 10^-6, rescanning the corrected price against the
    same mark price picks the factor 1.
   */
  lemma FactorSettles(sigP: real, markP: real)
    requires markP > 0.0
    requires Factor(sigP, markP) != Candidate(0)
    ensures Factor(sigP * Factor(sigP, markP), markP) == 1.0
  {
    SettlesAt(sigP, markP, Factor(sigP, markP), sigP * Factor(sigP, markP));
  }

  /**
    The price `q` corrected by a factor `f` other than 10^-6 sits where the
    rescan's last step still falls, so the rescan picks the factor 1.
   */
  lemma SettlesAt(sigP: real, markP: real, f: real, q: real)
    requires markP > 0.0
    requires f == Factor(sigP, markP) && f != Candidate(0) && q == sigP * f
    ensures Factor(q, markP) == 1.0
  {
    var k :| 0 <= k <= MinPrecision && f == Candidate(k);
    FactorIsLeftmostArgmin(sigP, markP, k);
    SettledLastStep(sigP, markP, k, f, q);
    LastIsLeftmost(q, markP);
    RescanPicksOne(q, markP);
  }

  /** A price whose leftmost minimiser is the last factor is rescaled by 1. */
  lemma RescanPicksOne(q: real, markP: real)
    requires markP > 0.0 && IsLeftmostArgmin(q, markP, MinPrecision)
    ensures Factor(q, markP) == 1.0
  {
    FactorIsLeftmostArgmin(q, markP, MinPrecision);
    assert Candidate(MinPrecision) == 1.0;
  }
}
