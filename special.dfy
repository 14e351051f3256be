/**
 * Promotional pricing rules (src/Special.hpp, src/Special.cpp).
 *
 * A special is a closed family of three configurations. Every rule is a pure
 * function of its configuration and the call's arguments: `calcPrice` is `const`
 * in the source, which a datatype and functions over it give for free.
 * Money and weights are `real`; unit counts are `nat`.
 */
module Specials {

  /** `fabs`: the correction applied to prices, weights and group prices. */
  function Abs(x: real): (r: real)
    ensures r >= 0.0
    ensures r == x || r == -x
    ensures x >= 0.0 ==> r == x
  {
    if x < 0.0 then -x else x
  }

  /**
   * The fraction a BOGO constructor stores for a percentage: percent/100 when
   * the percentage lies in [0, 100], and 0 (no discount) otherwise.
   */
  function PercentFraction(percent: real): (f: real)
    ensures 0.0 <= f <= 1.0
    ensures 0.0 <= percent <= 100.0 ==> f * 100.0 == percent
    ensures percent < 0.0 || percent > 100.0 ==> f == 0.0
  {
    if percent < 0.0 || percent > 100.0 then 0.0 else percent / 100.0
  }

  /**
   * The three rule variants with their stored configuration. `percentOff` is
   * the stored decimal fraction, not the percentage given to the constructor.
   */
  datatype Special =
    | BuyOneGetOneUnit(needed: nat, receive: nat, percentOff: real)
    | BuyOneGetOneWeight(neededWeight: real, receiveWeight: real, percentOff: real)
    | NforX(needed: nat, discPrice: real)
  {
    /** What the constructors establish about the stored configuration. */
    predicate Valid() {
      match this
      case BuyOneGetOneUnit(_, _, pct) => 0.0 <= pct <= 1.0
      case BuyOneGetOneWeight(n, r, pct) => n >= 0.0 && r >= 0.0 && 0.0 <= pct <= 1.0
      case NforX(_, disc) => disc >= 0.0
    }

    /**
     * The group the rule divides the amount by is non-empty. The source
     * divides by `needed + receive` (or `needed`), so pricing needs this.
     */
    predicate Priceable() {
      match this
      case BuyOneGetOneUnit(n, r, _) => n + r > 0
      case BuyOneGetOneWeight(n, r, _) => n + r > 0.0
      case NforX(n, _) => n > 0
    }
  }

  /** BuyOneGetOneUnit(needed, receive, percent); the base-class `needed` is stored as `needed`. */
  function NewBuyOneGetOneUnit(needed: nat, receive: nat, percent: real): (s: Special)
    ensures s.BuyOneGetOneUnit? && s.Valid()
    ensures s.needed == needed && s.receive == receive
    ensures s.percentOff == PercentFraction(percent)
  {
    BuyOneGetOneUnit(needed, receive, PercentFraction(percent))
  }

  /** BuyOneGetOneWeight(needed, receive, percent): negative weights are made positive. */
  function NewBuyOneGetOneWeight(needed: real, receive: real, percent: real): (s: Special)
    ensures s.BuyOneGetOneWeight? && s.Valid()
    ensures s.neededWeight == Abs(needed) && s.receiveWeight == Abs(receive)
    ensures s.percentOff == PercentFraction(percent)
  {
    BuyOneGetOneWeight(Abs(needed), Abs(receive), PercentFraction(percent))
  }

  /** NforX(needed, price): a negative group price is made positive. */
  function NewNforX(needed: nat, price: real): (s: Special)
    ensures s.NforX? && s.Valid()
    ensures s.needed == needed && s.discPrice == Abs(price)
  {
    NforX(needed, Abs(price))
  }

  /** `checkArgs`: the amount and the unit price as used for pricing, both non-negative. */
  function CheckArgs(numItems: real, price: real): (r: (real, real))
    ensures r.0 >= 0.0 && r.1 >= 0.0
    ensures r.0 == numItems || r.0 == -numItems
    ensures r.1 == price || r.1 == -price
    ensures numItems >= 0.0 ==> r.0 == numItems
    ensures price >= 0.0 ==> r.1 == price
  {
    (Abs(numItems), Abs(price))
  }

  // ---------------------------------------------------------------------------
  // BuyOneGetOneUnit

  /**
   * BuyOneGetOneUnit::calcPrice exactly as Special.cpp writes it: complete
   * groups of `needed + receive` items pay full price for `needed` items and a
   * discounted price for `receive` items; the leftover items pay full price.
   * The arguments are used as given, without `checkArgs`.
   */
  function BogoUnitTotal(s: Special, numItems: nat, price: real): (r: real)
    requires s.BuyOneGetOneUnit? && s.Priceable()
    ensures numItems < s.needed + s.receive ==> r == numItems as real * price
  {
    var group := s.needed + s.receive;
    var specials := numItems / group;
    var leftover := numItems % group;
    assert numItems < group ==> specials == 0 && leftover == numItems;
    specials as real * (s.needed as real * price + s.receive as real * (price * (1.0 - s.percentOff)))
      + leftover as real * price
  }

  /** Integer division and remainder, viewed in the reals. */
  lemma DivModAsReal(n: nat, g: nat)
    requires g > 0
    ensures n as real == (n / g) as real * g as real + (n % g) as real
  {
    var k, m := n / g, n % g;
    assert n == k * g + m;
    ProductAsReal(k, g);
  }

  lemma {:induction false} ProductAsReal(a: nat, b: nat)
    ensures (a * b) as real == a as real * b as real
  {
    if a > 0 {
      ProductAsReal(a - 1, b);
      assert a * b == (a - 1) * b + b;
    }
  }

  lemma MulMonotone(a: real, b: real, c: real)
    requires a >= 0.0 && b <= c
    ensures a * b <= a * c
  {
  }

  lemma MulNonNegative(a: real, b: real)
    requires a >= 0.0 && b >= 0.0
    ensures a * b >= 0.0
  {
  }

  lemma DiscountedUnitPrice(price: real, pct: real)
    requires 0.0 <= pct <= 1.0 && price >= 0.0
    ensures 0.0 <= price * (1.0 - pct) <= price
  {
    MulNonNegative(price, 1.0 - pct);
    MulNonNegative(price, pct);
  }

  lemma GroupAlgebra(k: real, m: real, n: real, r: real, p: real, pct: real)
    ensures k * (n * p + r * (p * (1.0 - pct))) + m * p == (k * (n + r) + m) * p - (k * r) * p * pct
  {
  }

  /**
   * The discount form of the unit BOGO total: full price for every item, less
   * the percentage on `receive` items of every complete group.
   */
  lemma BogoUnitDiscountForm(s: Special, numItems: nat, price: real)
    requires s.BuyOneGetOneUnit? && s.Priceable()
    ensures var freeItems := (numItems / (s.needed + s.receive)) * s.receive;
            BogoUnitTotal(s, numItems, price) == numItems as real * price - freeItems as real * price * s.percentOff
  {
    var g := s.needed + s.receive;
    DivModAsReal(numItems, g);
    ProductAsReal(numItems / g, s.receive);
    GroupAlgebra((numItems / g) as real, (numItems % g) as real, s.needed as real, s.receive as real, price, s.percentOff);
  }

  /** A rule whose stored fraction is 0 (as for an out-of-range percentage) never discounts. */
  lemma BogoUnitZeroPercent(needed: nat, receive: nat, percent: real, numItems: nat, price: real)
    requires needed + receive > 0
    requires percent < 0.0 || percent > 100.0 || percent == 0.0
    ensures BogoUnitTotal(NewBuyOneGetOneUnit(needed, receive, percent), numItems, price) == numItems as real * price
  {
    BogoUnitDiscountForm(NewBuyOneGetOneUnit(needed, receive, percent), numItems, price);
  }

  /**
   * For a non-negative price the total lies between full price for every item
   * less the whole of every group's `receive` items, and full price.
   */
  lemma BogoUnitBounds(s: Special, numItems: nat, price: real)
    requires s.BuyOneGetOneUnit? && s.Priceable() && s.Valid()
    requires price >= 0.0
    ensures var freeItems := (numItems / (s.needed + s.receive)) * s.receive;
            numItems as real * price - freeItems as real * price
              <= BogoUnitTotal(s, numItems, price) <= numItems as real * price
  {
    BogoUnitDiscountForm(s, numItems, price);
    var free := ((numItems / (s.needed + s.receive)) * s.receive) as real;
    DiscountBetween(numItems as real, free, price, s.percentOff, BogoUnitTotal(s, numItems, price));
  }

  lemma DiscountBetween(n: real, free: real, p: real, pct: real, t: real)
    requires free >= 0.0 && p >= 0.0 && 0.0 <= pct <= 1.0
    requires t == n * p - free * p * pct
    ensures n * p - free * p <= t <= n * p
  {
    MulNonNegative(free, p);
    MulMonotone(free * p, pct, 1.0);
    MulNonNegative(free * p, pct);
  }

  /** Buy two get one free at 1.5: three items cost two, four cost three, seven cost five. */
  lemma BogoUnitWorkedCases(price: real)
    ensures var s := NewBuyOneGetOneUnit(2, 1, 100.0);
            BogoUnitTotal(s, 2, price) == 2.0 * price
            && BogoUnitTotal(s, 3, price) == 2.0 * price
            && BogoUnitTotal(s, 4, price) == 3.0 * price
            && BogoUnitTotal(s, 7, price) == 5.0 * price
  {
  }

  // ---------------------------------------------------------------------------
  // BuyOneGetOneWeight

  /** Number of rounds left in the weight BOGO walk; only used for termination. */
  function Rounds(rem: real, group: real): nat
    requires group > 0.0
  {
    if rem <= 0.0 then 0 else (rem / group).Floor + 1
  }

  /** How the weight BOGO walk divides a weight: the part paying full price and the discounted part. */
  datatype WeightSplit = WeightSplit(full: real, discounted: real)

  /**
   * The weight BOGO walk over a non-negative weight: while more than `needed`
   * remains, `needed` pays full price and up to `receive` of what is left is
   * discounted; whatever is not above `needed` at the end pays full price.
   * A last group that is short of `receive` gets its discount on exactly the
   * weight available past `needed`.
   */
  function BogoWeightSplit(rem: real, needed: real, receive: real): (r: WeightSplit)
    requires rem >= 0.0 && needed >= 0.0 && receive >= 0.0 && needed + receive > 0.0
    ensures r.full >= 0.0 && r.discounted >= 0.0
    ensures r.full + r.discounted == rem
    ensures rem <= needed ==> r.discounted == 0.0
    ensures needed < rem <= needed + receive ==> r.discounted == rem - needed
    ensures rem > needed && receive > 0.0 ==> r.discounted > 0.0
    decreases Rounds(rem, needed + receive)
  {
    if rem <= needed then WeightSplit(rem, 0.0)
    else
      var part := if rem - needed < receive then rem - needed else receive;
      var rest := rem - needed - part;
      RoundsDecrease(rem, rest, needed + receive);
      var tail := BogoWeightSplit(rest, needed, receive);
      WeightSplit(needed + tail.full, part + tail.discounted)
  }

  /**
   * Each further whole group adds `needed` at full price and `receive` at the
   * discount, so the short last group of a long weight is pro-rated exactly as
   * when it is the first.
   */
  lemma BogoWeightSplitShift(rem: real, needed: real, receive: real)
    requires rem > 0.0 && needed > 0.0 && receive > 0.0
    ensures var tail := BogoWeightSplit(rem, needed, receive);
            BogoWeightSplit(rem + needed + receive, needed, receive)
              == WeightSplit(tail.full + needed, tail.discounted + receive)
  {
    RoundsDecrease(rem + needed + receive, rem, needed + receive);
  }

  lemma RoundsDecrease(rem: real, rest: real, group: real)
    requires group > 0.0 && rem > 0.0 && rest >= 0.0
    requires rest == 0.0 || rest == rem - group
    ensures Rounds(rest, group) < Rounds(rem, group)
  {
    if rest > 0.0 {
      DivShift(rem, group);
    }
  }

  lemma DivShift(a: real, g: real)
    requires g > 0.0
    ensures (a - g) / g == a / g - 1.0
  {
    var x, y := a / g, (a - g) / g;
    assert x * g == a;
    assert y * g == a - g;
    assert (y - (x - 1.0)) * g == 0.0;
    ZeroFactor(y - (x - 1.0), g);
  }

  lemma ZeroFactor(z: real, g: real)
    requires g > 0.0 && z * g == 0.0
    ensures z == 0.0
  {
    SignOfProduct(z, g);
  }

  lemma SignOfProduct(z: real, g: real)
    requires g > 0.0
    ensures z > 0.0 ==> z * g > 0.0
    ensures z < 0.0 ==> z * g < 0.0
  {
  }

  /** The weight BOGO price: full price on the full part, the discounted unit price on the rest. */
  function BogoWeightTotal(weight: real, needed: real, receive: real, pct: real, price: real): (r: real)
    requires weight >= 0.0 && needed >= 0.0 && receive >= 0.0 && needed + receive > 0.0
    ensures weight <= needed ==> r == weight * price
  {
    var split := BogoWeightSplit(weight, needed, receive);
    split.full * price + split.discounted * (price * (1.0 - pct))
  }

  /**
   * For a non-negative price and a fraction in [0, 1] the weight BOGO total
   * lies between the discounted and the full price of the whole weight, and a
   * weight not above `needed` pays full price.
   */
  lemma BogoWeightBounds(weight: real, needed: real, receive: real, pct: real, price: real)
    requires weight >= 0.0 && needed >= 0.0 && receive >= 0.0 && needed + receive > 0.0
    requires 0.0 <= pct <= 1.0 && price >= 0.0
    ensures weight * (price * (1.0 - pct)) <= BogoWeightTotal(weight, needed, receive, pct, price) <= weight * price
    ensures weight <= needed ==> BogoWeightTotal(weight, needed, receive, pct, price) == weight * price
  {
    var split := BogoWeightSplit(weight, needed, receive);
    var total := BogoWeightTotal(weight, needed, receive, pct, price);
    assert total == split.full * price + split.discounted * (price * (1.0 - pct));
    WeightPriceFacts(split.full, split.discounted, weight, price, pct, total);
    if weight <= needed {
      assert split == WeightSplit(weight, 0.0);
    }
  }

  lemma WeightPriceFacts(full: real, disc: real, weight: real, price: real, pct: real, total: real)
    requires full >= 0.0 && disc >= 0.0 && full + disc == weight
    requires 0.0 <= pct <= 1.0 && price >= 0.0
    requires total == full * price + disc * (price * (1.0 - pct))
    ensures total == weight * price - disc * price * pct
    ensures weight * (price * (1.0 - pct)) <= total <= weight * price
  {
    SplitAlgebra(full, disc, weight, price, pct);
    DiscountBetween(weight, disc, price, pct, total);
    MulMonotone(price * pct, disc, weight);
    MulNonNegative(price, pct);
  }

  lemma SplitAlgebra(full: real, disc: real, weight: real, price: real, pct: real)
    requires full + disc == weight
    ensures full * price + disc * (price * (1.0 - pct)) == weight * price - disc * price * pct
    ensures weight * (price * (1.0 - pct)) == weight * price - weight * price * pct
  {
  }

  /** Weight BOGO with 1.5 needed and 0.5 received free. */
  lemma BogoWeightWorkedCases(price: real)
    ensures BogoWeightTotal(1.0, 1.5, 0.5, 1.0, price) == 1.0 * price
    ensures BogoWeightTotal(2.0, 1.5, 0.5, 1.0, price) == 1.5 * price
    ensures BogoWeightTotal(1.75, 1.5, 0.5, 1.0, price) == 1.5 * price
    ensures BogoWeightTotal(2.5, 1.5, 0.5, 1.0, price) == 2.0 * price
    ensures BogoWeightTotal(3.75, 1.5, 0.5, 1.0, price) == 3.0 * price
    ensures BogoWeightTotal(3.75, 1.5, 0.5, 0.25, price) == 3.0 * price + 0.75 * (price * 0.75)
  {
    assert BogoWeightSplit(1.75, 1.5, 0.5) == WeightSplit(1.5, 0.25);
    assert BogoWeightSplit(3.75, 1.5, 0.5) == WeightSplit(3.0, 0.75) by {
      assert BogoWeightSplit(1.75, 1.5, 0.5) == WeightSplit(1.5, 0.25);
    }
    assert BogoWeightSplit(2.5, 1.5, 0.5) == WeightSplit(2.0, 0.5);
  }

  // ---------------------------------------------------------------------------
  // NforX

  /** N for X: every complete group of `needed` items costs `discPrice`, the rest pay full price. */
  function NforXTotal(s: Special, numItems: nat, price: real): (r: real)
    requires s.NforX? && s.Priceable()
    ensures numItems < s.needed ==> r == numItems as real * price
  {
    assert numItems < s.needed ==> numItems / s.needed == 0 && numItems % s.needed == numItems;
    (numItems / s.needed) as real * s.discPrice + (numItems % s.needed) as real * price
  }

  /**
   * Against full price: a group price equal to `needed` full-price items changes
   * nothing, a lower one never charges more than full price, and fewer items
   * than a group always pay full price.
   */
  lemma NforXAgainstFullPrice(s: Special, numItems: nat, price: real)
    requires s.NforX? && s.Priceable()
    ensures s.discPrice == s.needed as real * price ==> NforXTotal(s, numItems, price) == numItems as real * price
    ensures s.discPrice <= s.needed as real * price ==> NforXTotal(s, numItems, price) <= numItems as real * price
    ensures numItems < s.needed ==> NforXTotal(s, numItems, price) == numItems as real * price
  {
    DivModAsReal(numItems, s.needed);
    var k := (numItems / s.needed) as real;
    assert k >= 0.0;
    if s.discPrice <= s.needed as real * price {
      assert k * s.discPrice <= k * (s.needed as real * price);
    }
  }

  /** Three for 10 at 5.5: two items cost 11, three cost 10, four cost 15.5, seven cost 25.5. */
  lemma NforXWorkedCases()
    ensures var s := NewNforX(3, 10.0);
            NforXTotal(s, 2, 5.5) == 11.0 && NforXTotal(s, 3, 5.5) == 10.0
            && NforXTotal(s, 4, 5.5) == 15.5 && NforXTotal(s, 7, 5.5) == 25.5
  {
  }

  // ---------------------------------------------------------------------------
  // Dispatch

  /**
   * Special::calcPrice: the arguments are corrected by `checkArgs`, the two
   * unit rules take the whole number of items (the floor of the corrected
   * amount), and the variant's rule prices the amount.
   */
  function CalcPrice(s: Special, numItems: real, price: real): (r: real)
    requires s.Valid() && s.Priceable()
    ensures r >= 0.0
  {
    var (amount, unitPrice) := CheckArgs(numItems, price);
    match s
    case BuyOneGetOneUnit(_, _, _) =>
      CalcPriceUnitBounds(s, amount, unitPrice);
      BogoUnitTotal(s, amount.Floor, unitPrice)
    case BuyOneGetOneWeight(n, r, pct) =>
      CalcPriceWeightBounds(s, amount, unitPrice);
      BogoWeightTotal(amount, n, r, pct, unitPrice)
    case NforX(_, _) =>
      NforXNonNegative(s, amount.Floor, unitPrice);
      NforXTotal(s, amount.Floor, unitPrice)
  }

  /**
   * Whatever the signs of the arguments, a constructed special prices to a
   * non-negative total, and the two BOGO rules never exceed full price for the
   * corrected amount.
   */
  lemma CalcPriceBounds(s: Special, numItems: real, price: real)
    requires s.Valid() && s.Priceable()
    ensures CalcPrice(s, numItems, price) >= 0.0
    ensures !s.NforX? ==> CalcPrice(s, numItems, price) <= Abs(numItems) * Abs(price)
  {
    var amount, unitPrice := Abs(numItems), Abs(price);
    assert CheckArgs(numItems, price) == (amount, unitPrice);
    if s.BuyOneGetOneUnit? {
      assert CalcPrice(s, numItems, price) == BogoUnitTotal(s, amount.Floor, unitPrice);
      CalcPriceUnitBounds(s, amount, unitPrice);
    } else if s.BuyOneGetOneWeight? {
      assert CalcPrice(s, numItems, price)
        == BogoWeightTotal(amount, s.neededWeight, s.receiveWeight, s.percentOff, unitPrice);
      CalcPriceWeightBounds(s, amount, unitPrice);
    }
  }

  lemma CalcPriceWeightBounds(s: Special, amount: real, unitPrice: real)
    requires s.BuyOneGetOneWeight? && s.Valid() && s.Priceable()
    requires amount >= 0.0 && unitPrice >= 0.0
    ensures var t := BogoWeightTotal(amount, s.neededWeight, s.receiveWeight, s.percentOff, unitPrice);
            0.0 <= t <= amount * unitPrice
  {
    DiscountedUnitPrice(unitPrice, s.percentOff);
    BogoWeightBounds(amount, s.neededWeight, s.receiveWeight, s.percentOff, unitPrice);
    MulNonNegative(amount, unitPrice * (1.0 - s.percentOff));
  }

  lemma NforXNonNegative(s: Special, n: nat, unitPrice: real)
    requires s.NforX? && s.Valid() && s.Priceable() && unitPrice >= 0.0
    ensures NforXTotal(s, n, unitPrice) >= 0.0
  {
    MulNonNegative((n / s.needed) as real, s.discPrice);
    MulNonNegative((n % s.needed) as real, unitPrice);
  }

  lemma CalcPriceUnitBounds(s: Special, amount: real, unitPrice: real)
    requires s.BuyOneGetOneUnit? && s.Valid() && s.Priceable()
    requires amount >= 0.0 && unitPrice >= 0.0
    ensures 0.0 <= BogoUnitTotal(s, amount.Floor, unitPrice) <= amount * unitPrice
  {
    var n := amount.Floor;
    var free := (n / (s.needed + s.receive)) * s.receive;
    var total := BogoUnitTotal(s, n, unitPrice);
    BogoUnitBounds(s, n, unitPrice);
    FreeAtMostAll(n, s.needed, s.receive);
    BoundsChain(total, free as real, n as real, amount, unitPrice);
  }

  /** A total between `n·p - free·p` and `n·p`, with `free <= n <= amount`, lies in [0, amount·p]. */
  lemma BoundsChain(total: real, free: real, n: real, amount: real, p: real)
    requires p >= 0.0 && free <= n <= amount
    requires n * p - free * p <= total <= n * p
    ensures 0.0 <= total <= amount * p
  {
    MulMonotone(p, free, n);
    MulMonotone(p, n, amount);
  }

  /** The discounted items of the complete groups are among the items. */
  lemma FreeAtMostAll(n: nat, needed: nat, receive: nat)
    requires needed + receive > 0
    ensures (n / (needed + receive)) * receive <= n
  {
    var g := needed + receive;
    var k := n / g;
    assert k * receive <= k * g;
    assert k * g <= n;
  }

  /** `checkArgs` makes pricing blind to the signs of the amount and of the unit price. */
  lemma CalcPriceIgnoresSigns(s: Special, numItems: real, price: real)
    requires s.Valid() && s.Priceable()
    ensures CalcPrice(s, numItems, price) == CalcPrice(s, -numItems, price)
    ensures CalcPrice(s, numItems, price) == CalcPrice(s, numItems, -price)
  {
    assert Abs(-numItems) == Abs(numItems);
    assert Abs(-price) == Abs(price);
  }

  /**
   * Special.cpp's unit BOGO prices its arguments without `checkArgs`: three
   * items at -1.5 under buy two get one free come to -3, where the declared
   * contract (absolute values) and the dispatching CalcPrice give 3.
   */
  lemma BogoUnitNegativePriceAsWritten()
    ensures BogoUnitTotal(NewBuyOneGetOneUnit(2, 1, 100.0), 3, -1.5) == -3.0
    ensures CalcPrice(NewBuyOneGetOneUnit(2, 1, 100.0), 3.0, -1.5) == 3.0
  {
    assert (3.0).Floor == 3;
  }
}
