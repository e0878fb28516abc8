/** The exposure limits of a candidate response, with every float operation rounded. */
module Exposure {
  import opened Text

  /** One target of a response; `None` stands for a wrongly typed field. */
  datatype Target = Target(symbol: string, weight: Option<real>)

  datatype Limits = Limits(caps: map<string, real>, tolerance: real, maximumGross: real, minimumCash: real)

  type Rounding = real -> real

  /** One unit of relative rounding error. */
  const UNIT: real := 1.0 / 9007199254740992.0

  function Abs(x: real): real { if x < 0.0 then -x else x }

  /** Rounding to nearest in binary64, underflow and overflow aside. */
  ghost predicate Faithful(round: Rounding) {
    forall x :: Abs(round(x) - x) <= UNIT * Abs(x)
  }

  // ---- the check -----------------------------------------------------------------------

  function Weight(t: Target): real { if t.weight.Some? then t.weight.value else 0.0 }

  /** The sum as the loop accumulates it. */
  function Gross(round: Rounding, targets: seq<Target>): real {
    if targets == [] then 0.0
    else round(Gross(round, targets[..|targets| - 1]) + Weight(targets[|targets| - 1]))
  }

  /** The exact sum. */
  function Sum(targets: seq<Target>): real {
    if targets == [] then 0.0 else Sum(targets[..|targets| - 1]) + Weight(targets[|targets| - 1])
  }

  function Symbols(targets: seq<Target>): (r: seq<string>)
    ensures |r| == |targets| && forall i :: 0 <= i < |targets| ==> r[i] == targets[i].symbol
  {
    seq(|targets|, i requires 0 <= i < |targets| => targets[i].symbol)
  }

  predicate Capped(round: Rounding, t: Target, limits: Limits) {
    && t.weight.Some? && t.symbol in limits.caps
    && t.weight.value <= round(limits.caps[t.symbol] + limits.tolerance)
  }

  ghost predicate Accepted(round: Rounding, symbols: seq<string>, targets: seq<Target>, limits: Limits) {
    && Symbols(targets) == symbols
    && (forall i :: 0 <= i < |targets| ==> Capped(round, targets[i], limits))
    && Gross(round, targets) <= round(limits.maximumGross + limits.tolerance)
    && round(1.0 - Gross(round, targets)) >= round(limits.minimumCash - limits.tolerance)
  }

  /** The exposure part of the response check, as it runs. */
  method CheckExposure(round: Rounding, symbols: seq<string>, targets: seq<Target>, limits: Limits) returns (ok: bool)
    ensures ok <==> Accepted(round, symbols, targets, limits)
  {
    hide Capped, Symbols;
    if Symbols(targets) != symbols { return false; }
    var gross := 0.0;
    for i := 0 to |targets|
      invariant gross == Gross(round, targets[..i])
      invariant forall j :: 0 <= j < i ==> Capped(round, targets[j], limits)
    {
      var t := targets[i];
      if t.weight == None || t.symbol !in limits.caps
        || t.weight.value > round(limits.caps[t.symbol] + limits.tolerance) {
        NotCapped(round, t, limits);
        return false;
      }
      IsCapped(round, t, limits);
      assert targets[..i + 1][..i] == targets[..i];
      gross := round(gross + Weight(t));
    }
    assert targets[..|targets|] == targets;
    if gross > round(limits.maximumGross + limits.tolerance) { return false; }
    return !(round(1.0 - gross) < round(limits.minimumCash - limits.tolerance));
  }

  lemma IsCapped(round: Rounding, t: Target, limits: Limits)
    requires t.weight.Some? && t.symbol in limits.caps
    requires t.weight.value <= round(limits.caps[t.symbol] + limits.tolerance)
    ensures Capped(round, t, limits)
  {
  }

  lemma NotCapped(round: Rounding, t: Target, limits: Limits)
    requires t.weight.Some? && t.symbol in limits.caps ==>
      t.weight.value > round(limits.caps[t.symbol] + limits.tolerance)
    ensures !Capped(round, t, limits)
  {
  }

  // ---- the error of the sum --------------------------------------------------------------

  ghost predicate NonNegative(targets: seq<Target>) {
    forall i :: 0 <= i < |targets| ==> Weight(targets[i]) >= 0.0
  }

  lemma Product(a: real, b: real)
    requires a >= 0.0 && b >= 0.0
    ensures a * b >= 0.0
  {
  }

  /** One rounded addition loses at most one unit. */
  lemma StepLoss(g: real, s: real, w: real, k: real, r: real)
    requires 0.0 <= w && 0.0 <= s && 0.0 <= k && g >= s * (1.0 - k * UNIT) && g >= 0.0
    requires Abs(r - (g + w)) <= UNIT * Abs(g + w)
    ensures r >= (s + w) * (1.0 - (k + 1.0) * UNIT) && r >= 0.0
  {
    var u := UNIT;
    var x := g + w;
    assert r >= x * (1.0 - u) by { assert Abs(x) == x; assert x * (1.0 - u) == x - u * x; }
    var y := (s + w) * (1.0 - k * u);
    assert x >= y by {
      Product(w, k * u) by { Product(k, u); }
      assert (s + w) * (1.0 - k * u) == s * (1.0 - k * u) + w - w * (k * u);
    }
    Product(x - y, 1.0 - u);
    assert (x - y) * (1.0 - u) == x * (1.0 - u) - y * (1.0 - u);
    Product(s + w, k * u * u) by { Product(k, u * u); assert k * u * u == k * (u * u); }
    assert y * (1.0 - u) == (s + w) * (1.0 - (k + 1.0) * u) + (s + w) * (k * u * u);
    Product(x, 1.0 - u);
  }

  /** An exact sum less one unit for each of `n` roundings. */
  function Discounted(s: real, n: nat): real { s * (1.0 - (n as real) * UNIT) }

  lemma StepDiscount(g: real, s: real, w: real, n: nat, r: real)
    requires 0.0 <= w && 0.0 <= s && g >= Discounted(s, n) && g >= 0.0
    requires Abs(r - (g + w)) <= UNIT * Abs(g + w)
    ensures r >= Discounted(s + w, n + 1) && r >= 0.0
  {
    StepLoss(g, s, w, n as real, r);
  }

  lemma RoundedWithin(round: Rounding, x: real)
    requires Faithful(round)
    ensures Abs(round(x) - x) <= UNIT * Abs(x)
  {
  }

  /** The accumulated sum falls short of the exact one by at most one unit per target. */
  lemma {:induction false} GrossBound(round: Rounding, targets: seq<Target>)
    requires Faithful(round) && NonNegative(targets)
    ensures Gross(round, targets) >= Discounted(Sum(targets), |targets|)
    ensures Gross(round, targets) >= 0.0 && Sum(targets) >= 0.0
  {
    hide Faithful, Abs, Discounted;
    if targets == [] {
      NothingDiscounted();
    } else {
      var init, last := targets[..|targets| - 1], targets[|targets| - 1];
      assert forall i :: 0 <= i < |init| ==> init[i] == targets[i];
      assert Weight(last) >= 0.0;
      GrossBound(round, init);
      RoundedWithin(round, Gross(round, init) + Weight(last));
      StepDiscount(Gross(round, init), Sum(init), Weight(last), |init|, Gross(round, targets));
    }
  }

  lemma Expanded(x: real, k: real, u: real)
    ensures (x + u * x) * (1.0 - (k + 1.0) * u) == x * (1.0 - k * u) - x * ((k + 1.0) * (u * u))
  {
    var y := (k + 1.0) * u;
    assert (x + u * x) * (1.0 - y) == x + u * x - x * y - u * x * y;
    assert x * y == x * (k * u) + x * u;
    assert u * x * y == x * ((k + 1.0) * (u * u));
  }

  /** One rounded addition gains at most one unit. */
  lemma StepGain(g: real, s: real, w: real, k: real, r: real)
    requires 0.0 <= w && 0.0 <= g && 0.0 <= s && 0.0 <= k && 0.0 <= r && g * (1.0 - k * UNIT) <= s
    requires Abs(r - (g + w)) <= UNIT * Abs(g + w)
    ensures r * (1.0 - (k + 1.0) * UNIT) <= s + w
  {
    var u := UNIT;
    var x, d := g + w, 1.0 - (k + 1.0) * u;
    if d >= 0.0 {
      var top := x + u * x;
      assert r <= top by { assert Abs(x) == x; }
      Product(top - r, d);
      assert (top - r) * d == top * d - r * d;
      Product(x, (k + 1.0) * (u * u)) by { Product(k + 1.0, u * u); }
      Expanded(x, k, u);
      Product(w, k * u) by { Product(k, u); }
      assert x * (1.0 - k * u) == g * (1.0 - k * u) + w - w * (k * u);
    } else {
      Product(r, -d);
      assert r * -d == -(r * d);
    }
  }

  lemma StepInflate(g: real, s: real, w: real, n: nat, r: real)
    requires 0.0 <= w && 0.0 <= g && 0.0 <= s && 0.0 <= r && Discounted(g, n) <= s
    requires Abs(r - (g + w)) <= UNIT * Abs(g + w)
    ensures Discounted(r, n + 1) <= s + w
  {
    StepGain(g, s, w, n as real, r);
  }

  /** The accumulated sum exceeds the exact one by at most one unit per target: less that, it is
      at most the exact sum. */
  lemma {:induction false} GrossCeiling(round: Rounding, targets: seq<Target>)
    requires Faithful(round) && NonNegative(targets)
    ensures Discounted(Gross(round, targets), |targets|) <= Sum(targets)
  {
    hide Faithful, Abs, Discounted;
    if targets == [] {
      NothingDiscounted();
    } else {
      var init, last := targets[..|targets| - 1], targets[|targets| - 1];
      assert forall i :: 0 <= i < |init| ==> init[i] == targets[i];
      assert Weight(last) >= 0.0;
      GrossBound(round, init);
      GrossBound(round, targets);
      GrossCeiling(round, init);
      RoundedWithin(round, Gross(round, init) + Weight(last));
      StepInflate(Gross(round, init), Sum(init), Weight(last), |init|, Gross(round, targets));
    }
  }

  lemma NothingDiscounted()
    ensures Discounted(0.0, 0) == 0.0
  {
  }

  lemma WithinBy(r: real, x: real, e: real)
    requires Abs(r - x) <= e
    ensures x - e <= r <= x + e
  {
  }

  /** A rounded value is at most one unit above the exact one, and at least one below. */
  lemma RoundedBounds(round: Rounding, x: real)
    requires Faithful(round)
    ensures x - UNIT * Abs(x) <= round(x) <= x + UNIT * Abs(x)
  {
    RoundedWithin(round, x);
    WithinBy(round(x), x, UNIT * Abs(x));
  }

  /** An accepted response lists the requested symbols in order, each weight within its cap up to
      the rounding of the cap. */
  lemma AcceptedTargets(round: Rounding, symbols: seq<string>, targets: seq<Target>, limits: Limits, i: nat)
    requires Faithful(round) && Accepted(round, symbols, targets, limits) && i < |targets|
    ensures |targets| == |symbols| && targets[i].symbol == symbols[i] && symbols[i] in limits.caps
    ensures var cap := limits.caps[symbols[i]] + limits.tolerance; Weight(targets[i]) <= cap + UNIT * Abs(cap)
  {
    assert Symbols(targets)[i] == targets[i].symbol && Capped(round, targets[i], limits);
    hide Faithful, Gross, Abs;
    CapHolds(round, targets[i], limits);
  }

  /** A limit with the rounding of its own value. */
  function Widened(x: real): real { x + UNIT * Abs(x) }

  /** What the minimum cash leaves, with the rounding of both sides of the comparison; `gross` is
      the other limit. */
  function CashBound(cash: real, gross: real): real {
    1.0 - cash + UNIT * Abs(cash) + UNIT * (1.0 + Abs(gross) * (1.0 + UNIT))
  }

  /** The exact weight sum of an accepted response exceeds the gross limit, and what the minimum
      cash leaves, by no more than one unit of rounding per target and the rounding of the limits
      themselves: an error in the number of targets and the limits alone. */
  lemma AcceptedExposure(round: Rounding, symbols: seq<string>, targets: seq<Target>, limits: Limits)
    requires Faithful(round) && NonNegative(targets) && Accepted(round, symbols, targets, limits)
    ensures var gross, cash := limits.maximumGross + limits.tolerance, limits.minimumCash - limits.tolerance;
      && Discounted(Sum(targets), |targets|) <= Widened(gross)
      && Discounted(Sum(targets), |targets|) <= CashBound(cash, gross)
      && (|targets| < 9007199254740992 ==>
            && Sum(targets) <= Widened(gross) / (1.0 - (|targets| as real) * UNIT)
            && Sum(targets) <= CashBound(cash, gross) / (1.0 - (|targets| as real) * UNIT))
  {
    hide Faithful, Abs, Discounted, Gross, Sum, Capped, Widened, CashBound;
    var gross, cash := limits.maximumGross + limits.tolerance, limits.minimumCash - limits.tolerance;
    GrossBound(round, targets);
    GrossHolds(round, Gross(round, targets), limits);
    CashHolds(round, Gross(round, targets), limits);
    LeftBounded(Gross(round, targets), cash, gross);
    if |targets| < 9007199254740992 {
      Divided(Sum(targets), |targets|, Widened(gross));
      Divided(Sum(targets), |targets|, CashBound(cash, gross));
    }
  }

  /** What is left of an accepted sum is no larger than one and the gross limit together. */
  lemma LeftBounded(g: real, cash: real, gross: real)
    requires 0.0 <= g <= Widened(gross) && g <= 1.0 - cash + UNIT * Abs(1.0 - g) + UNIT * Abs(cash)
    ensures g <= CashBound(cash, gross)
  {
    var left := 1.0 + Abs(gross) * (1.0 + UNIT);
    assert Abs(gross) * (1.0 + UNIT) == Abs(gross) + UNIT * Abs(gross);
    assert Abs(1.0 - g) <= left;
    assert UNIT * Abs(1.0 - g) <= UNIT * left;
  }

  lemma Divided(s: real, n: nat, bound: real)
    requires Discounted(s, n) <= bound && n < 9007199254740992
    ensures 1.0 - (n as real) * UNIT > 0.0 && s <= bound / (1.0 - (n as real) * UNIT)
  {
    var d := 1.0 - (n as real) * UNIT;
    assert (n as real) * UNIT < 1.0;
    Quotient(s, d, bound);
  }

  lemma Above(s: real, q: real, d: real)
    requires d > 0.0 && s > q
    ensures s * d > q * d
  {
    var gap := s - q;
    assert s * d == (q + gap) * d == q * d + gap * d;
    assert gap * d > 0.0;
  }

  lemma Quotient(s: real, d: real, bound: real)
    requires d > 0.0 && s * d <= bound
    ensures s <= bound / d
  {
    var q := bound / d;
    assert q * d == bound;
    if s > q { Above(s, q, d); }
  }

  lemma CapHolds(round: Rounding, t: Target, limits: Limits)
    requires Faithful(round) && Capped(round, t, limits)
    ensures var cap := limits.caps[t.symbol] + limits.tolerance; Weight(t) <= cap + UNIT * Abs(cap)
  {
    hide Faithful, Abs;
    RoundedBounds(round, limits.caps[t.symbol] + limits.tolerance);
  }

  lemma GrossHolds(round: Rounding, g: real, limits: Limits)
    requires Faithful(round) && g <= round(limits.maximumGross + limits.tolerance)
    ensures g <= Widened(limits.maximumGross + limits.tolerance)
  {
    hide Faithful, Abs;
    RoundedBounds(round, limits.maximumGross + limits.tolerance);
  }

  lemma CashHolds(round: Rounding, g: real, limits: Limits)
    requires Faithful(round) && round(1.0 - g) >= round(limits.minimumCash - limits.tolerance)
    ensures var cash := limits.minimumCash - limits.tolerance; g <= 1.0 - cash + UNIT * Abs(1.0 - g) + UNIT * Abs(cash)
  {
    hide Faithful, Abs;
    RoundedBounds(round, 1.0 - g);
    RoundedBounds(round, limits.minimumCash - limits.tolerance);
  }

  // ---- responses well inside their limits --------------------------------------------------

  /** A limit less the rounding of its own value. */
  function Narrowed(x: real): real { x - UNIT * Abs(x) }

  /** What the minimum cash surely leaves, with the rounding of both sides of the comparison. */
  function CashRoom(cash: real): real { (1.0 - UNIT - cash - UNIT * Abs(cash)) / (1.0 + UNIT) }

  lemma RoomLeaves(round: Rounding, g: real, cash: real)
    requires Faithful(round) && 0.0 <= g <= CashRoom(cash)
    ensures round(1.0 - g) >= round(cash)
  {
    hide Faithful, Abs;
    RoundedBounds(round, 1.0 - g);
    RoundedBounds(round, cash);
    RoomScaled(g, cash);
  }

  lemma RoomScaled(g: real, cash: real)
    requires 0.0 <= g <= CashRoom(cash)
    ensures 1.0 - g - UNIT * Abs(1.0 - g) >= cash + UNIT * Abs(cash)
  {
    var room := 1.0 - UNIT - cash - UNIT * Abs(cash);
    assert CashRoom(cash) * (1.0 + UNIT) == room;
    assert g * (1.0 + UNIT) <= room by {
      Product(CashRoom(cash) - g, 1.0 + UNIT);
      assert (CashRoom(cash) - g) * (1.0 + UNIT) == CashRoom(cash) * (1.0 + UNIT) - g * (1.0 + UNIT);
    }
    assert Abs(1.0 - g) <= 1.0 + g;
    assert UNIT * Abs(1.0 - g) <= UNIT * (1.0 + g);
    assert g * (1.0 + UNIT) == g + UNIT * g;
  }

  lemma Undiscounted(g: real, n: nat, s: real, bound: real)
    requires n < 9007199254740992 && Discounted(g, n) <= s && s <= Discounted(bound, n)
    ensures g <= bound
  {
    var d := 1.0 - (n as real) * UNIT;
    assert d > 0.0;
    assert g * d <= s <= bound * d;
    if g > bound { Above(g, bound, d); }
  }

  lemma GrossInside(round: Rounding, targets: seq<Target>, bound: real)
    requires Faithful(round) && NonNegative(targets) && |targets| < 9007199254740992
    requires Sum(targets) <= Discounted(bound, |targets|)
    ensures 0.0 <= Gross(round, targets) <= bound
  {
    hide Abs, Discounted, Gross, Sum, Faithful;
    GrossBound(round, targets);
    GrossCeiling(round, targets);
    Undiscounted(Gross(round, targets), |targets|, Sum(targets), bound);
  }

  /** A response for the requested symbols, each weight below its cap by the rounding of the cap
      and the exact sum below both limits by their rounding and one unit per target, is accepted. */
  lemma InsideAccepted(round: Rounding, symbols: seq<string>, targets: seq<Target>, limits: Limits)
    requires Faithful(round) && NonNegative(targets) && |targets| < 9007199254740992 && Symbols(targets) == symbols
    requires forall i :: 0 <= i < |targets| ==>
      && targets[i].weight.Some? && targets[i].symbol in limits.caps
      && targets[i].weight.value <= Narrowed(limits.caps[targets[i].symbol] + limits.tolerance)
    requires Sum(targets) <= Discounted(Narrowed(limits.maximumGross + limits.tolerance), |targets|)
    requires Sum(targets) <= Discounted(CashRoom(limits.minimumCash - limits.tolerance), |targets|)
    ensures Accepted(round, symbols, targets, limits)
  {
    hide Abs, Discounted, Gross, Sum, CashRoom, Narrowed, Faithful, Symbols, Capped, NonNegative;
    GrossInside(round, targets, Narrowed(limits.maximumGross + limits.tolerance));
    GrossInside(round, targets, CashRoom(limits.minimumCash - limits.tolerance));
    NarrowedHolds(round, Gross(round, targets), limits.maximumGross + limits.tolerance);
    RoomLeaves(round, Gross(round, targets), limits.minimumCash - limits.tolerance);
    forall i | 0 <= i < |targets| ensures Capped(round, targets[i], limits) { InsideCapped(round, targets[i], limits); }
  }

  lemma NarrowedHolds(round: Rounding, g: real, x: real)
    requires Faithful(round) && g <= Narrowed(x)
    ensures g <= round(x)
  {
    hide Abs, Faithful;
    RoundedBounds(round, x);
  }

  lemma InsideCapped(round: Rounding, t: Target, limits: Limits)
    requires Faithful(round) && t.weight.Some? && t.symbol in limits.caps
    requires t.weight.value <= Narrowed(limits.caps[t.symbol] + limits.tolerance)
    ensures Capped(round, t, limits)
  {
    hide Abs, Faithful, Narrowed;
    NarrowedHolds(round, t.weight.value, limits.caps[t.symbol] + limits.tolerance);
  }
}
