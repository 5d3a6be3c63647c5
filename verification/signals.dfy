/**
  The `Signal` value of trader/signal.py (an identical copy sits in
  trader/__init__.py): one entry price, one stop-loss, an ordered list of
  take-profit targets, position fraction, leverage and whether to wait for
  the entry price. Its derived quantities and the in-place `autocorrect`
  become pure functions over exact reals.
 */
module Signals {
  import opened Scale

  datatype Signal = Signal(
    coin: string,
    entry: real,
    sl: real,
    targets: seq<real>,
    fraction: real,
    leverage: int,
    waitEntry: bool)

  /** Constructor defaults: `fraction=0.025, leverage=10, wait_entry=False`. */
  const DefaultFraction: real := 0.025
  const DefaultLeverage: int := 10

  /** `Signal(coin, entry, sl, targets)` with every keyword argument defaulted. */
  function WithDefaults(coin: string, entry: real, sl: real, targets: seq<real>): Signal {
    Signal(coin, entry, sl, targets, DefaultFraction, DefaultLeverage, false)
  }

  /** `is_long`: the stop-loss lies below the entry. */
  predicate IsLong(s: Signal) {
    s.sl < s.entry
  }

  /** `is_short` is the negation of `is_long`, so a stop-loss at the entry counts as short. */
  predicate IsShort(s: Signal) {
    !IsLong(s)
  }

  /**
    `max_entry`: the price 20% of the way from the entry to the first
    target. Python raises IndexError when there are no targets.
   */
  function MaxEntry(s: Signal): (r: real)
    requires |s.targets| > 0
    ensures s.entry <= s.targets[0] ==> s.entry <= r <= s.targets[0]
    ensures s.targets[0] <= s.entry ==> s.targets[0] <= r <= s.entry
    ensures 4.0 * (r - s.entry) == s.targets[0] - r
  {
    s.entry + (s.targets[0] - s.entry) * 0.2
  }

  /** `q` is `p` times one of the factors 10^-6 .. 10^0. */
  predicate ScaledBy(q: real, p: real) {
    exists k :: 0 <= k <= MinPrecision && q == p * Candidate(k)
  }

  /** One price rescaled by its own factor: `p *= self._factor(p, price)`. */
  function Rescale(p: real, price: real): (r: real)
    requires price != 0.0
    ensures ScaledBy(r, p)
  {
    p * Factor(p, price)
  }

  /**
    `autocorrect(price)`: entry, stop-loss and each target are rescaled
    independently, each by the factor chosen for that price; everything
    else is kept.
   */
  function Autocorrect(s: Signal, price: real): (r: Signal)
    requires price != 0.0
    ensures r.coin == s.coin && r.fraction == s.fraction
    ensures r.leverage == s.leverage && r.waitEntry == s.waitEntry
    ensures |r.targets| == |s.targets|
    ensures ScaledBy(r.entry, s.entry) && ScaledBy(r.sl, s.sl)
    ensures forall i :: 0 <= i < |s.targets| ==> ScaledBy(r.targets[i], s.targets[i])
    ensures r.entry == Rescale(s.entry, price) && r.sl == Rescale(s.sl, price)
    ensures forall i :: 0 <= i < |s.targets| ==> r.targets[i] == Rescale(s.targets[i], price)
  {
    s.(entry := Rescale(s.entry, price),
       sl := Rescale(s.sl, price),
       targets := seq(|s.targets|, i requires 0 <= i < |s.targets| => Rescale(s.targets[i], price)))
  }

  // ---------------------------------------------------------------------
  // Laws

  /** Exactly one of `is_long` and `is_short` holds; `sl == entry` is short. */
  lemma Direction(s: Signal)
    ensures IsLong(s) != IsShort(s)
    ensures IsShort(s) <==> s.entry <= s.sl
  {
  }

  /** Rescaling never enlarges a price and never changes its sign. */
  lemma RescaleShrinks(p: real, price: real)
    requires price != 0.0
    ensures p > 0.0 ==> 0.0 < Rescale(p, price) <= p
    ensures p < 0.0 ==> p <= Rescale(p, price) < 0.0
    ensures p == 0.0 ==> Rescale(p, price) == 0.0
  {
    var f := Factor(p, price);
    if p > 0.0 {
      assert p * f <= p * 1.0;
    } else if p < 0.0 {
      assert p * f >= p * 1.0;
    }
  }

  /**
    For a positive mark price the rescaled price is the one, among
    p * 10^-6 .. p * 10^0, nearest the mark, and the smallest such on ties.
   */
  lemma RescaleNearest(p: real, price: real, j: nat)
    requires price > 0.0 && j <= MinPrecision
    ensures Gap(Rescale(p, price), price) <= DistAt(p, price, j)
    ensures DistAt(p, price, j) == Gap(Rescale(p, price), price) ==> Factor(p, price) <= Candidate(j)
  {
    FactorMinimises(p, price, j);
    FactorSmallestOnTies(p, price, j);
  }

  /** A price whose factor was above 10^-6 is left alone by a second rescale. */
  lemma RescaleSettles(p: real, price: real)
    requires price > 0.0
    requires Factor(p, price) > Candidate(0)
    ensures Rescale(Rescale(p, price), price) == Rescale(p, price)
  {
    FactorSettles(p, price);
  }

  /** Every price of `s` had its factor chosen above the smallest, 10^-6. */
  predicate AboveFloor(s: Signal, price: real)
    requires price != 0.0
  {
    && Factor(s.entry, price) > Candidate(0)
    && Factor(s.sl, price) > Candidate(0)
    && forall i :: 0 <= i < |s.targets| ==> Factor(s.targets[i], price) > Candidate(0)
  }

  /**
    Conditional idempotence of `autocorrect`: when no price needed the
    extreme factor 10^-6, correcting again with the same mark price
    changes nothing.
   */
  lemma AutocorrectIdempotent(s: Signal, price: real)
    requires price > 0.0
    requires AboveFloor(s, price)
    ensures Autocorrect(Autocorrect(s, price), price) == Autocorrect(s, price)
  {
    var once := Autocorrect(s, price);
    var twice := Autocorrect(once, price);
    RescaleSettles(s.entry, price);
    RescaleSettles(s.sl, price);
    forall i | 0 <= i < |s.targets| ensures twice.targets[i] == once.targets[i] {
      RescaleSettles(s.targets[i], price);
    }
  }
}
