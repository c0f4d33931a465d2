/** Price grid, price band, aggregate clearing states and their ranking. */
module Clearing {
  import opened Domain

  datatype AuctionPressureRule = Ignore | FavorImbalance

  datatype AuctionFinalTieBreak = LowerPrice | HigherPrice

  datatype AuctionPricePolicy =
    AuctionPricePolicy(pressureRule: AuctionPressureRule, finalTieBreak: AuctionFinalTieBreak)

  /** Positive raw-price increment; the grid is anchored at raw price zero. */
  datatype AuctionPriceGrid = AuctionPriceGrid(tick: i64) {
    ghost predicate Valid() {
      tick >= 1
    }

    predicate Contains(price: Price)
      requires Valid()
    {
      price % tick == 0
    }

    function Successor(price: Price): Option<Price> {
      if I64_MIN <= price + tick <= I64_MAX then Some(price + tick) else None
    }

    function Predecessor(price: Price): Option<Price> {
      if I64_MIN <= price - tick <= I64_MAX then Some(price - tick) else None
    }

    function Maximum(): Price
      requires Valid()
    {
      I64_MAX - I64_MAX % tick
    }

    function Minimum(): Price
      requires Valid()
    {
      var remainder := I64_MIN % tick;
      if remainder == 0 then I64_MIN else I64_MIN + (tick - remainder)
    }
  }

  datatype AuctionPriceBand = AuctionPriceBand(minimum: Price, maximum: Price)

  datatype AuctionClearing = AuctionClearing(
    price: Price,
    executableQuantity: u128,
    buyQuantity: u128,
    sellQuantity: u128,
    imbalanceSide: Option<Side>,
    imbalanceQuantity: u128)

  function FromQuantities(price: Price, buyQuantity: u128, sellQuantity: u128): (c: AuctionClearing)
    ensures c.price == price && c.buyQuantity == buyQuantity && c.sellQuantity == sellQuantity
    ensures c.executableQuantity <= buyQuantity && c.executableQuantity <= sellQuantity
    ensures c.executableQuantity == buyQuantity || c.executableQuantity == sellQuantity
    ensures 2 * c.executableQuantity + c.imbalanceQuantity == buyQuantity + sellQuantity
    ensures c.imbalanceSide == Some(Buy) <==> buyQuantity > sellQuantity
    ensures c.imbalanceSide == Some(Sell) <==> buyQuantity < sellQuantity
  {
    var executable := if buyQuantity < sellQuantity then buyQuantity else sellQuantity;
    var (side, imbalance) :=
      if buyQuantity > sellQuantity then (Some(Buy), buyQuantity - sellQuantity)
      else if sellQuantity > buyQuantity then (Some(Sell), sellQuantity - buyQuantity)
      else (None, 0);
    AuctionClearing(price, executable, buyQuantity, sellQuantity, side, imbalance)
  }

  /** Whether `a` outranks `b`: volume, then imbalance, then optional same-side pressure,
      then distance to the reference, then the explicit final rule. */
  predicate IsBetterThan(a: AuctionClearing, b: AuctionClearing, reference: Price, policy: AuctionPricePolicy) {
    if a.executableQuantity != b.executableQuantity then
      a.executableQuantity > b.executableQuantity
    else if a.imbalanceQuantity != b.imbalanceQuantity then
      a.imbalanceQuantity < b.imbalanceQuantity
    else if policy.pressureRule == FavorImbalance && a.imbalanceSide == b.imbalanceSide
            && a.price != b.price && a.imbalanceSide.Some? then
      if a.imbalanceSide.value == Buy then a.price > b.price else a.price < b.price
    else
      var aDistance := AbsDiff(a.price, reference);
      var bDistance := AbsDiff(b.price, reference);
      if aDistance != bDistance then
        aDistance < bDistance
      else
        match policy.finalTieBreak
        case LowerPrice => a.price < b.price
        case HigherPrice => a.price > b.price
  }

  // ----- what the ranking prefers, in demand and supply

  /** Lots that trade when `demand` meets `supply`. */
  ghost function Traded(demand: nat, supply: nat): nat {
    if demand <= supply then demand else supply
  }

  ghost function LeftOver(demand: nat, supply: nat): nat {
    if demand <= supply then supply - demand else demand - supply
  }

  ghost function Distance(price: int, reference: int): nat {
    if price <= reference then reference - price else price - reference
  }

  /** Clearing at `p` is to be preferred to clearing at `q`: it trades no less; at the same volume it
      leaves no more over; and at the same volume and remainder the price follows the side left over,
      when that rule applies and both leave the same side, and stays close to the reference otherwise,
      the final rule settling equal distances. */
  ghost predicate ClearsBetter(p: Price, demandAtP: nat, supplyAtP: nat, q: Price, demandAtQ: nat, supplyAtQ: nat,
                               reference: Price, policy: AuctionPricePolicy) {
    var sameVolume := Traded(demandAtP, supplyAtP) == Traded(demandAtQ, supplyAtQ);
    var sameRemainder := sameVolume && LeftOver(demandAtP, supplyAtP) == LeftOver(demandAtQ, supplyAtQ);
    var buyersLeft := policy.pressureRule == FavorImbalance && demandAtP > supplyAtP && demandAtQ > supplyAtQ;
    var sellersLeft := policy.pressureRule == FavorImbalance && demandAtP < supplyAtP && demandAtQ < supplyAtQ;
    && Traded(demandAtP, supplyAtP) >= Traded(demandAtQ, supplyAtQ)
    && (sameVolume ==> LeftOver(demandAtP, supplyAtP) <= LeftOver(demandAtQ, supplyAtQ))
    && (sameRemainder && buyersLeft ==> p > q)
    && (sameRemainder && sellersLeft ==> p < q)
    && (sameRemainder && !buyersLeft && !sellersLeft ==>
          && Distance(p, reference) <= Distance(q, reference)
          && (Distance(p, reference) == Distance(q, reference) ==> if policy.finalTieBreak == LowerPrice then p < q else p > q))
  }

  /** The aggregate state is the evaluation of some demand and supply at its price. */
  ghost predicate WellFormed(c: AuctionClearing) {
    c == FromQuantities(c.price, c.buyQuantity, c.sellQuantity)
  }

  /** Two states that can lie on one market: demand falls and supply rises with price. */
  ghost predicate OnOneMarket(a: AuctionClearing, b: AuctionClearing) {
    && (a.price <= b.price ==> a.buyQuantity >= b.buyQuantity && a.sellQuantity <= b.sellQuantity)
    && (b.price <= a.price ==> b.buyQuantity >= a.buyQuantity && b.sellQuantity <= a.sellQuantity)
  }

  /** No candidate outranks itself, and no two candidates outrank each other. */
  lemma RankingIsAsymmetric(a: AuctionClearing, b: AuctionClearing, reference: Price, policy: AuctionPricePolicy)
    ensures !(IsBetterThan(a, b, reference, policy) && IsBetterThan(b, a, reference, policy))
  {
  }

  lemma RankingIsTotal(a: AuctionClearing, b: AuctionClearing, reference: Price, policy: AuctionPricePolicy)
    ensures a.price != b.price ==>
              IsBetterThan(a, b, reference, policy) || IsBetterThan(b, a, reference, policy)
    ensures !IsBetterThan(a, a, reference, policy)
  {
  }

  /** What it means to outrank a state at another price. */
  lemma RankingMeans(a: AuctionClearing, b: AuctionClearing, reference: Price, policy: AuctionPricePolicy)
    requires WellFormed(a) && WellFormed(b) && a.price != b.price
    ensures IsBetterThan(a, b, reference, policy) <==>
              ClearsBetter(a.price, a.buyQuantity, a.sellQuantity, b.price, b.buyQuantity, b.sellQuantity, reference, policy)
  {
  }

  /** `c` records what clearing at its price trades and leaves over, and on which side. */
  ghost predicate Records(c: AuctionClearing, demand: nat, supply: nat) {
    && c.buyQuantity == demand && c.sellQuantity == supply
    && c.executableQuantity == Traded(demand, supply) && c.imbalanceQuantity == LeftOver(demand, supply)
    && (c.imbalanceSide == Some(Buy) <==> demand > supply) && (c.imbalanceSide == Some(Sell) <==> demand < supply)
  }

  lemma RecordsState(c: AuctionClearing, state: AuctionClearing)
    requires WellFormed(state) && state.price == c.price
    ensures c == state <==> Records(c, state.buyQuantity, state.sellQuantity)
  {
    match c.imbalanceSide
    case None =>
    case Some(side) => assert side == Buy || side == Sell;
  }

  /** On one market the ranking is transitive, whatever the policy. */
  lemma RankingIsTransitive(a: AuctionClearing, b: AuctionClearing, c: AuctionClearing, reference: Price, policy: AuctionPricePolicy)
    requires WellFormed(a) && WellFormed(b) && WellFormed(c)
    requires OnOneMarket(a, b) && OnOneMarket(b, c) && OnOneMarket(a, c)
    requires IsBetterThan(a, b, reference, policy) && IsBetterThan(b, c, reference, policy)
    ensures IsBetterThan(a, c, reference, policy)
  {
  }

  /** Off one market the pressure rule cycles: three states, each outranking the next. */
  lemma RankingCyclesOffMarket() returns (a: AuctionClearing, b: AuctionClearing, c: AuctionClearing, policy: AuctionPricePolicy)
    ensures WellFormed(a) && WellFormed(b) && WellFormed(c)
    ensures IsBetterThan(a, b, 0, policy) && IsBetterThan(b, c, 0, policy) && IsBetterThan(c, a, 0, policy)
  {
    policy := AuctionPricePolicy(FavorImbalance, LowerPrice);
    // Buy-imbalanced at 1 and at 10, sell-imbalanced at 5: supply falls as the price rises.
    a := FromQuantities(10, 2, 1);
    b := FromQuantities(1, 2, 1);
    c := FromQuantities(5, 1, 2);
  }

  // ----- exactly when the ranking fails to be transitive

  /** `x` stands further in the direction its imbalance pushes the price than `y`. */
  ghost predicate Pushes(x: AuctionClearing, y: AuctionClearing, side: Side) {
    if side == Buy then x.price > y.price else x.price < y.price
  }

  /** Equal volume and imbalance, `x` and `y` imbalanced to one side and `z` to the other. */
  ghost predicate OneOpposed(x: AuctionClearing, y: AuctionClearing, z: AuctionClearing) {
    && x.executableQuantity == y.executableQuantity == z.executableQuantity
    && x.imbalanceQuantity == y.imbalanceQuantity == z.imbalanceQuantity
    && x.imbalanceSide.Some? && x.imbalanceSide == y.imbalanceSide && z.imbalanceSide.Some? && z.imbalanceSide != x.imbalanceSide
  }

  /** `x` outranks `y` by pressure, while `z`, opposed to both, can stand between them by distance. */
  ghost predicate CycleShape(x: AuctionClearing, y: AuctionClearing, z: AuctionClearing) {
    && OneOpposed(x, y, z) && z.price != y.price
    && Pushes(x, y, x.imbalanceSide.value) && Pushes(x, z, x.imbalanceSide.value)
  }

  ghost predicate Cycle(a: AuctionClearing, b: AuctionClearing, c: AuctionClearing, reference: Price, policy: AuctionPricePolicy) {
    IsBetterThan(a, b, reference, policy) && IsBetterThan(b, c, reference, policy) && IsBetterThan(c, a, reference, policy)
  }

  /** A reference halfway between the opposed state and the nearer of the two others closes the cycle. */
  lemma ShapeCycles(x: AuctionClearing, y: AuctionClearing, z: AuctionClearing) returns (reference: Price, policy: AuctionPricePolicy)
    requires CycleShape(x, y, z)
    ensures Cycle(x, y, z, reference, policy)
  {
    if x.imbalanceSide == Some(Buy) {
      reference := if z.price > y.price then y.price else (z.price + y.price + 1) / 2;
      policy := AuctionPricePolicy(FavorImbalance, if (z.price + y.price) % 2 == 0 then HigherPrice else LowerPrice);
    } else {
      reference := if z.price < y.price then y.price else (z.price + y.price) / 2;
      policy := AuctionPricePolicy(FavorImbalance, if (z.price + y.price) % 2 == 0 then LowerPrice else HigherPrice);
    }
  }

  lemma CyclesHaveShape(a: AuctionClearing, b: AuctionClearing, c: AuctionClearing, reference: Price, policy: AuctionPricePolicy)
    requires WellFormed(a) && WellFormed(b) && WellFormed(c) && Cycle(a, b, c, reference, policy)
    ensures CycleShape(a, b, c) || CycleShape(b, c, a) || CycleShape(c, a, b)
  {
  }

  /** Three states outrank one another in a circle, under some reference and policy, exactly when
      one of the three rotations has the cycle's shape. */
  lemma CyclesExactly(a: AuctionClearing, b: AuctionClearing, c: AuctionClearing)
    requires WellFormed(a) && WellFormed(b) && WellFormed(c)
    ensures (exists reference: Price, policy :: Cycle(a, b, c, reference, policy)) <==>
              CycleShape(a, b, c) || CycleShape(b, c, a) || CycleShape(c, a, b)
  {
    hide WellFormed, CycleShape, Cycle;
    if CycleShape(a, b, c) {
      var reference, policy := ShapeCycles(a, b, c);
    } else if CycleShape(b, c, a) {
      var reference, policy := ShapeCycles(b, c, a);
      CycleTurns(b, c, a, reference, policy);
    } else if CycleShape(c, a, b) {
      var reference, policy := ShapeCycles(c, a, b);
      CycleTurns(c, a, b, reference, policy);
    }
    forall reference: Price, policy | Cycle(a, b, c, reference, policy)
      ensures CycleShape(a, b, c) || CycleShape(b, c, a) || CycleShape(c, a, b)
    {
      CyclesHaveShape(a, b, c, reference, policy);
    }
  }

  lemma CycleTurns(a: AuctionClearing, b: AuctionClearing, c: AuctionClearing, reference: Price, policy: AuctionPricePolicy)
    requires Cycle(a, b, c, reference, policy)
    ensures Cycle(b, c, a, reference, policy) && Cycle(c, a, b, reference, policy)
  {
  }

  ghost predicate Transitive(a: AuctionClearing, b: AuctionClearing, c: AuctionClearing, reference: Price, policy: AuctionPricePolicy) {
    IsBetterThan(a, b, reference, policy) && IsBetterThan(b, c, reference, policy) ==> IsBetterThan(a, c, reference, policy)
  }

  /** The cycle shapes, and their edges: an opposed state at the very price of the state it cannot
      outrank, so that neither outranks the other. */
  ghost predicate IntransitiveShape(a: AuctionClearing, b: AuctionClearing, c: AuctionClearing) {
    || CycleShape(a, b, c) || CycleShape(b, c, a) || CycleShape(c, a, b)
    || (OneOpposed(a, b, c) && Pushes(a, b, a.imbalanceSide.value) && c.price == a.price)
    || (OneOpposed(b, c, a) && Pushes(b, c, b.imbalanceSide.value) && a.price == c.price)
  }

  /** Three states rank transitively under every reference and policy exactly when they do not have
      an intransitive shape. */
  lemma TransitiveExactly(a: AuctionClearing, b: AuctionClearing, c: AuctionClearing)
    requires WellFormed(a) && WellFormed(b) && WellFormed(c)
    ensures (forall reference: Price, policy :: Transitive(a, b, c, reference, policy)) <==> !IntransitiveShape(a, b, c)
  {
    forall reference: Price, policy | !IntransitiveShape(a, b, c) ensures Transitive(a, b, c, reference, policy) {
      IntransitiveHaveShape(a, b, c, reference, policy);
    }
    if IntransitiveShape(a, b, c) {
      var reference, policy := ShapeIsIntransitive(a, b, c);
    }
  }

  lemma IntransitiveHaveShape(a: AuctionClearing, b: AuctionClearing, c: AuctionClearing, reference: Price, policy: AuctionPricePolicy)
    requires WellFormed(a) && WellFormed(b) && WellFormed(c)
    ensures Transitive(a, b, c, reference, policy) || IntransitiveShape(a, b, c)
  {
  }

  lemma ShapeIsIntransitive(a: AuctionClearing, b: AuctionClearing, c: AuctionClearing) returns (reference: Price, policy: AuctionPricePolicy)
    requires IntransitiveShape(a, b, c)
    ensures !Transitive(a, b, c, reference, policy)
  {
    if CycleShape(a, b, c) {
      reference, policy := ShapeCycles(a, b, c);
      RankingIsAsymmetric(a, c, reference, policy);
    } else if CycleShape(b, c, a) {
      reference, policy := ShapeCycles(b, c, a);
      RankingIsAsymmetric(a, c, reference, policy);
    } else if CycleShape(c, a, b) {
      reference, policy := ShapeCycles(c, a, b);
      RankingIsAsymmetric(a, c, reference, policy);
    } else {
      policy := AuctionPricePolicy(FavorImbalance, LowerPrice);
      reference := if c.price == a.price && OneOpposed(a, b, c) then b.price else c.price;
    }
  }
}
