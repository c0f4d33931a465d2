/** Clearing-price discovery: the interval sweep, proved against the enumeration of every
    on-grid price in the band. */
module Discovery {
  import opened Arithmetic
  import opened Clearing
  import opened Domain

  /** A positive aggregate quantity; a level of zero quantity cannot be constructed. */
  type Volume = x: int | 1 <= x <= U128_MAX witness 1

  datatype AuctionLevel = AuctionLevel(price: Price, quantity: Volume)

  datatype AuctionMarketInterest = AuctionMarketInterest(buyQuantity: u128, sellQuantity: u128)

  datatype AuctionError =
    | PriceBandInverted
    | PriceBandMinimumOffGrid
    | PriceBandMaximumOffGrid
    | PriceOffGrid(side: Side, index: nat)
    | ReferencePriceOffGrid
    | NonCanonicalLevels(side: Side, index: nat)
    | QuantityOverflow(side: Side)
    | QuantityUnderflow(side: Side)

  // ----- the declarative market

  ghost function TotalOf(levels: seq<AuctionLevel>): nat {
    if levels == [] then 0 else TotalOf(levels[..|levels| - 1]) + levels[|levels| - 1].quantity
  }

  predicate LevelEligible(level: AuctionLevel, side: Side, price: int) {
    match side
    case Buy => level.price >= price
    case Sell => level.price <= price
  }

  /** Quantity of the levels eligible at one price. */
  ghost function EligibleTotal(levels: seq<AuctionLevel>, side: Side, price: int): nat {
    if levels == [] then 0 else
    var last := levels[|levels| - 1];
    EligibleTotal(levels[..|levels| - 1], side, price) + if LevelEligible(last, side, price) then last.quantity else 0
  }

  /** Levels strictly best-to-worst: bids descend, asks ascend. */
  predicate StrictlyBetter(a: AuctionLevel, b: AuctionLevel, side: Side) {
    match side
    case Buy => a.price > b.price
    case Sell => a.price < b.price
  }

  ghost predicate Canonical(levels: seq<AuctionLevel>, side: Side, grid: AuctionPriceGrid)
    requires grid.Valid()
  {
    && (forall i :: 0 <= i < |levels| ==> grid.Contains(levels[i].price))
    && (forall i, j :: 0 <= i < j < |levels| ==> StrictlyBetter(levels[i], levels[j], side))
  }

  /** One market: the aggregate interest of both sides, small enough for 128-bit totals. */
  datatype AggregateMarket = AggregateMarket(bids: seq<AuctionLevel>, asks: seq<AuctionLevel>, interest: AuctionMarketInterest) {
    ghost predicate Representable() {
      && interest.buyQuantity + TotalOf(bids) <= U128_MAX
      && interest.sellQuantity + TotalOf(asks) <= U128_MAX
    }

    ghost function Demand(price: int): nat {
      interest.buyQuantity + EligibleTotal(bids, Buy, price)
    }

    ghost function Supply(price: int): nat {
      interest.sellQuantity + EligibleTotal(asks, Sell, price)
    }

    ghost predicate Crosses(price: int) {
      Demand(price) > 0 && Supply(price) > 0
    }

    /** The clearing state of this market at one price. */
    ghost function StateAt(price: Price): (c: AuctionClearing)
      requires Representable()
      ensures c.price == price && WellFormed(c)
      ensures c.executableQuantity > 0 <==> Crosses(price)
    {
      EligibleAtMostTotal(bids, Buy, price);
      EligibleAtMostTotal(asks, Sell, price);
      FromQuantities(price, Demand(price), Supply(price))
    }
  }

  ghost predicate IsCandidate(price: int, grid: AuctionPriceGrid, band: AuctionPriceBand)
    requires grid.Valid()
  {
    band.minimum <= price <= band.maximum && price % grid.tick == 0
  }

  /** `best` is what trying every candidate price and keeping the best ranked one gives. */
  ghost predicate IsDiscovery(best: Option<AuctionClearing>, market: AggregateMarket, grid: AuctionPriceGrid,
                              band: AuctionPriceBand, reference: Price, policy: AuctionPricePolicy)
    requires grid.Valid() && market.Representable()
  {
    match best
    case None =>
      forall price: Price :: IsCandidate(price, grid, band) ==> !market.Crosses(price)
    case Some(c) =>
      && IsCandidate(c.price, grid, band) && market.Crosses(c.price) && c == market.StateAt(c.price)
      && forall price: Price :: IsCandidate(price, grid, band) && market.Crosses(price) && price != c.price ==>
           IsBetterThan(c, market.StateAt(price), reference, policy)
  }

  /** The answer in demand and supply alone: the state at the one price of the band, on the grid, that
      is to be preferred to every other where both sides have interest, or none without such a price. */
  ghost predicate IsBestOfMarket(best: Option<AuctionClearing>, market: AggregateMarket, grid: AuctionPriceGrid,
                                 band: AuctionPriceBand, reference: Price, policy: AuctionPricePolicy)
    requires grid.Valid()
  {
    match best
    case None =>
      forall q: Price :: band.minimum <= q <= band.maximum && q % grid.tick == 0 ==> market.Demand(q) == 0 || market.Supply(q) == 0
    case Some(c) =>
      && band.minimum <= c.price <= band.maximum && c.price % grid.tick == 0 && market.Demand(c.price) > 0 && market.Supply(c.price) > 0
      && Records(c, market.Demand(c.price), market.Supply(c.price))
      && forall q: Price :: && band.minimum <= q <= band.maximum && q % grid.tick == 0 && q != c.price
                            && market.Demand(q) > 0 && market.Supply(q) > 0 ==>
           ClearsBetter(c.price, market.Demand(c.price), market.Supply(c.price), q, market.Demand(q), market.Supply(q), reference, policy)
  }

  /** Being the best ranked candidate is being the best price of the band. */
  lemma DiscoveryMeans(best: Option<AuctionClearing>, market: AggregateMarket, grid: AuctionPriceGrid,
                       band: AuctionPriceBand, reference: Price, policy: AuctionPricePolicy)
    requires grid.Valid() && market.Representable()
    ensures IsDiscovery(best, market, grid, band, reference, policy) <==> IsBestOfMarket(best, market, grid, band, reference, policy)
  {
    hide IsBetterThan, ClearsBetter;
    forall price: Price {:trigger market.Demand(price)}
      ensures IsCandidate(price, grid, band) <==> band.minimum <= price <= band.maximum && price % grid.tick == 0
      ensures market.Crosses(price) <==> market.Demand(price) > 0 && market.Supply(price) > 0
    {
    }
    match best
    case None =>
    case Some(c) =>
      StateRecords(c, market);
      forall price: Price {:trigger market.Demand(price)} | c == market.StateAt(c.price) && price != c.price
        ensures IsBetterThan(c, market.StateAt(price), reference, policy) <==>
                  ClearsBetter(c.price, market.Demand(c.price), market.Supply(c.price), price, market.Demand(price), market.Supply(price), reference, policy)
      {
        RankingMeans(c, market.StateAt(price), reference, policy);
      }
  }

  lemma StateRecords(c: AuctionClearing, market: AggregateMarket)
    requires market.Representable()
    ensures c == market.StateAt(c.price) <==> Records(c, market.Demand(c.price), market.Supply(c.price))
  {
    RecordsState(c, market.StateAt(c.price));
  }

  // ----- lemmas on totals

  lemma EligibleAtMostTotal(levels: seq<AuctionLevel>, side: Side, price: int)
    ensures EligibleTotal(levels, side, price) <= TotalOf(levels)
  {
  }

  lemma PrefixStep(levels: seq<AuctionLevel>, n: nat)
    requires n < |levels|
    ensures TotalOf(levels[..n + 1]) == TotalOf(levels[..n]) + levels[n].quantity
  {
    assert levels[..n + 1][..n] == levels[..n];
  }

  lemma {:induction false} PrefixAtMostTotal(levels: seq<AuctionLevel>, n: nat)
    requires n <= |levels|
    ensures TotalOf(levels[..n]) <= TotalOf(levels)
    decreases |levels| - n
  {
    if n == |levels| {
      assert levels[..n] == levels;
    } else {
      PrefixStep(levels, n);
      PrefixAtMostTotal(levels, n + 1);
    }
  }

  /** When the eligible levels are exactly the first `n`, their quantity is the prefix total. */
  lemma {:induction false} EligibleIsPrefix(levels: seq<AuctionLevel>, side: Side, price: int, n: nat)
    requires n <= |levels|
    requires forall i :: 0 <= i < |levels| ==> (LevelEligible(levels[i], side, price) <==> i < n)
    ensures EligibleTotal(levels, side, price) == TotalOf(levels[..n])
  {
    if levels == [] {
    } else {
      var front := levels[..|levels| - 1];
      if n == |levels| {
        assert levels[..n] == levels;
        assert front[..n - 1] == front;
        EligibleIsPrefix(front, side, price, n - 1);
      } else {
        assert !LevelEligible(levels[|levels| - 1], side, price);
        assert front[..n] == levels[..n];
        EligibleIsPrefix(front, side, price, n);
      }
    }
  }

  lemma {:induction false} EligibleMonotone(levels: seq<AuctionLevel>, low: int, high: int)
    requires low <= high
    ensures EligibleTotal(levels, Buy, low) >= EligibleTotal(levels, Buy, high)
    ensures EligibleTotal(levels, Sell, low) <= EligibleTotal(levels, Sell, high)
  {
    if levels == [] {
    } else {
      EligibleMonotone(levels[..|levels| - 1], low, high);
    }
  }

  lemma StatesShareMarket(market: AggregateMarket, a: Price, b: Price)
    requires market.Representable()
    ensures OnOneMarket(market.StateAt(a), market.StateAt(b))
  {
    if a <= b {
      EligibleMonotone(market.bids, a, b);
      EligibleMonotone(market.asks, a, b);
    }
    if b <= a {
      EligibleMonotone(market.bids, b, a);
      EligibleMonotone(market.asks, b, a);
    }
  }

  /** Discovery has one answer: any two results for the same inputs are equal. */
  lemma DiscoveryIsUnique(x: Option<AuctionClearing>, y: Option<AuctionClearing>, market: AggregateMarket, grid: AuctionPriceGrid,
                          band: AuctionPriceBand, reference: Price, policy: AuctionPricePolicy)
    requires grid.Valid() && market.Representable()
    requires IsDiscovery(x, market, grid, band, reference, policy)
    requires IsDiscovery(y, market, grid, band, reference, policy)
    ensures x == y
  {
    if x.Some? && y.Some? && x.value.price != y.value.price {
      RankingIsAsymmetric(x.value, y.value, reference, policy);
    }
  }

  /** The transitivity step of the sweep: a challenger beating the incumbent beats all it beat. */
  lemma BetterThanIncumbent(market: AggregateMarket, a: Price, b: Price, c: Price, reference: Price, policy: AuctionPricePolicy)
    requires market.Representable()
    requires IsBetterThan(market.StateAt(a), market.StateAt(b), reference, policy)
    requires b == c || IsBetterThan(market.StateAt(b), market.StateAt(c), reference, policy)
    ensures IsBetterThan(market.StateAt(a), market.StateAt(c), reference, policy)
  {
    if b != c {
      StatesShareMarket(market, a, b);
      StatesShareMarket(market, b, c);
      StatesShareMarket(market, a, c);
      RankingIsTransitive(market.StateAt(a), market.StateAt(b), market.StateAt(c), reference, policy);
    }
  }

  /** Distinct multiples of the tick are at least one tick apart. */
  lemma GridGap(tick: int, low: int, high: int)
    requires tick >= 1 && low % tick == 0 && high % tick == 0 && low < high
    ensures low + tick <= high
  {
    var k, m := low / tick, high / tick;
    assert low == k * tick && high == m * tick;
    ScaleIsMonotone(m, k, tick);
    ScaleIsMonotone(k + 1, m, tick);
    assert (k + 1) * tick == low + tick;
  }

  lemma MultipleOnGrid(tick: int, k: int)
    requires tick >= 1
    ensures (k * tick) % tick == 0
  {
    var q, r := (k * tick) / tick, (k * tick) % tick;
    assert r == (k - q) * tick;
    ScaleIsMonotone(1, k - q, tick);
    ScaleIsMonotone(k - q, -1, tick);
  }

  lemma GridStep(tick: int, price: int)
    requires tick >= 1 && price % tick == 0
    ensures (price + tick) % tick == 0 && (price - tick) % tick == 0
  {
    var k := price / tick;
    assert price + tick == (k + 1) * tick && price - tick == (k - 1) * tick;
    MultipleOnGrid(tick, k + 1);
    MultipleOnGrid(tick, k - 1);
  }

  // ----- validation

  lemma CanonicalStep(levels: seq<AuctionLevel>, side: Side, grid: AuctionPriceGrid, index: nat)
    requires grid.Valid() && index < |levels| && Canonical(levels[..index], side, grid)
    ensures Canonical(levels[..index + 1], side, grid) <==>
              grid.Contains(levels[index].price) && (index == 0 || StrictlyBetter(levels[index - 1], levels[index], side))
  {
    var before, after := levels[..index], levels[..index + 1];
    if Canonical(after, side, grid) {
      assert grid.Contains(after[index].price);
      assert index == 0 || StrictlyBetter(after[index - 1], after[index], side);
    }
    if grid.Contains(levels[index].price) && (index == 0 || StrictlyBetter(levels[index - 1], levels[index], side)) {
      forall i, j | 0 <= i < j < |after|
        ensures StrictlyBetter(after[i], after[j], side)
      {
        if j < index {
          assert StrictlyBetter(before[i], before[j], side);
        } else if i < index - 1 {
          assert StrictlyBetter(before[i], before[index - 1], side);
        }
      }
      forall i | 0 <= i < |after| ensures grid.Contains(after[i].price) {
        if i < index { assert grid.Contains(before[i].price); }
      }
    }
  }

  lemma {:induction false} CanonicalPrefix(levels: seq<AuctionLevel>, side: Side, grid: AuctionPriceGrid, n: nat)
    requires grid.Valid() && n <= |levels| && Canonical(levels, side, grid)
    ensures Canonical(levels[..n], side, grid)
  {
  }

  method ValidateLevels(levels: seq<AuctionLevel>, side: Side, grid: AuctionPriceGrid)
    returns (r: Result<u128, AuctionError>)
    requires grid.Valid()
    ensures r.Ok? <==> Canonical(levels, side, grid) && TotalOf(levels) <= U128_MAX
    ensures r.Ok? ==> r.value == TotalOf(levels)
    ensures r.Err? ==> exists n :: FirstOffence(r.error, levels, side, grid, n)
  {
    var total: u128 := 0;
    var index: nat := 0;
    while index < |levels|
      invariant index <= |levels| && Canonical(levels[..index], side, grid)
      invariant total == TotalOf(levels[..index])
    {
      var level := levels[index];
      PrefixStep(levels, index);
      CanonicalStep(levels, side, grid, index);
      if !grid.Contains(level.price) {
        NotCanonical(levels, side, grid, index);
        assert FirstOffence(PriceOffGrid(side, index), levels, side, grid, index);
        return Err(PriceOffGrid(side, index));
      }
      if index > 0 && !StrictlyBetter(levels[index - 1], level, side) {
        NotCanonical(levels, side, grid, index);
        assert FirstOffence(NonCanonicalLevels(side, index), levels, side, grid, index);
        return Err(NonCanonicalLevels(side, index));
      }
      var sum := CheckedAddU128(total, level.quantity);
      if sum.None? {
        PrefixAtMostTotal(levels, index + 1);
        assert FirstOffence(QuantityOverflow(side), levels, side, grid, index);
        return Err(QuantityOverflow(side));
      }
      total := sum.value;
      index := index + 1;
    }
    assert levels[..|levels|] == levels;
    return Ok(total);
  }

  lemma NotCanonical(levels: seq<AuctionLevel>, side: Side, grid: AuctionPriceGrid, index: nat)
    requires grid.Valid() && index < |levels| && !Canonical(levels[..index + 1], side, grid)
    ensures !Canonical(levels, side, grid)
  {
    if Canonical(levels, side, grid) {
      CanonicalPrefix(levels, side, grid, index + 1);
    }
  }

  /** The error names level `n`, the first at which a canonical side stops being one. */
  ghost predicate FirstOffence(error: AuctionError, levels: seq<AuctionLevel>, side: Side, grid: AuctionPriceGrid, n: nat)
    requires grid.Valid()
  {
    && n < |levels| && Canonical(levels[..n], side, grid) && TotalOf(levels[..n]) <= U128_MAX
    && match error
       case PriceOffGrid(s, i) => s == side && i == n && !grid.Contains(levels[n].price)
       case NonCanonicalLevels(s, i) =>
         s == side && i == n && n > 0 && !StrictlyBetter(levels[n - 1], levels[n], side)
       case QuantityOverflow(s) => s == side && TotalOf(levels[..n + 1]) > U128_MAX
       case _ => false
  }

  function ValidatePriceBand(grid: AuctionPriceGrid, minimum: Price, maximum: Price): (r: Option<AuctionError>)
    requires grid.Valid()
    ensures r.None? <==> minimum <= maximum && IsCandidate(minimum, grid, AuctionPriceBand(minimum, maximum))
                         && IsCandidate(maximum, grid, AuctionPriceBand(minimum, maximum))
  {
    if minimum > maximum then Some(PriceBandInverted)
    else if !grid.Contains(minimum) then Some(PriceBandMinimumOffGrid)
    else if !grid.Contains(maximum) then Some(PriceBandMaximumOffGrid)
    else None
  }

  // ----- the sweep

  function MinimumPrice(first: Option<Price>, second: Option<Price>): Option<Price> {
    match (first, second)
    case (Some(a), Some(b)) => Some(if a <= b then a else b)
    case (Some(a), None) => Some(a)
    case (None, b) => b
  }

  function IntervalCandidatePrice(lower: Price, upper: Price, reference: Price, demand: u128, supply: u128,
                                  policy: AuctionPricePolicy): Price {
    if policy.pressureRule == FavorImbalance && demand > supply then upper
    else if policy.pressureRule == FavorImbalance && supply > demand then lower
    else
      var raised := if reference >= lower then reference else lower;
      if raised <= upper then raised else upper
  }

  /** Within one interval of constant demand and supply the chosen price beats every other. */
  lemma IntervalCandidateWins(lower: Price, upper: Price, reference: Price, demand: u128, supply: u128,
                              policy: AuctionPricePolicy, price: Price)
    requires lower <= price <= upper
    ensures var chosen := IntervalCandidatePrice(lower, upper, reference, demand, supply, policy);
            && lower <= chosen <= upper
            && (price != chosen ==>
                  IsBetterThan(FromQuantities(chosen, demand, supply), FromQuantities(price, demand, supply), reference, policy))
  {
  }

  /** The sweep position: the first `bidsLeft` bids and first `asksTaken` asks are exactly those
      eligible at `lower`. */
  ghost predicate AtPosition(market: AggregateMarket, bidsLeft: int, asksTaken: int, lower: int) {
    && 0 <= bidsLeft <= |market.bids| && 0 <= asksTaken <= |market.asks|
    && (forall i :: 0 <= i < |market.bids| ==> (market.bids[i].price >= lower <==> i < bidsLeft))
    && (forall i :: 0 <= i < |market.asks| ==> (market.asks[i].price <= lower <==> i < asksTaken))
  }

  /** `best` answers discovery for the candidates already swept, those below `lower`. */
  ghost predicate SweptBelow(best: Option<AuctionClearing>, lower: int, market: AggregateMarket, grid: AuctionPriceGrid,
                             band: AuctionPriceBand, reference: Price, policy: AuctionPricePolicy)
    requires grid.Valid() && market.Representable()
  {
    match best
    case None =>
      forall price: Price :: IsCandidate(price, grid, band) && price < lower ==> !market.Crosses(price)
    case Some(c) =>
      && IsCandidate(c.price, grid, band) && c.price < lower
      && market.Crosses(c.price) && c == market.StateAt(c.price)
      && forall price: Price :: IsCandidate(price, grid, band) && price < lower && market.Crosses(price) && price != c.price ==>
           IsBetterThan(c, market.StateAt(price), reference, policy)
  }

  /** Between two transitions the market does not move. */
  lemma ConstantOnInterval(market: AggregateMarket, bidsLeft: int, asksTaken: int, lower: Price, upper: Price, price: Price,
                           grid: AuctionPriceGrid)
    requires grid.Valid() && market.Representable()
    requires Canonical(market.bids, Buy, grid) && Canonical(market.asks, Sell, grid)
    requires AtPosition(market, bidsLeft, asksTaken, lower)
    requires lower <= price <= upper && price % grid.tick == 0 && upper % grid.tick == 0
    requires bidsLeft > 0 ==> upper <= market.bids[bidsLeft - 1].price
    requires asksTaken < |market.asks| ==> upper < market.asks[asksTaken].price
    ensures AtPosition(market, bidsLeft, asksTaken, price)
    ensures market.Demand(price) == market.interest.buyQuantity + TotalOf(market.bids[..bidsLeft])
    ensures market.Supply(price) == market.interest.sellQuantity + TotalOf(market.asks[..asksTaken])
  {
    forall i | 0 <= i < bidsLeft
      ensures market.bids[i].price >= price
    {
      if i < bidsLeft - 1 {
        assert StrictlyBetter(market.bids[i], market.bids[bidsLeft - 1], Buy);
      }
    }
    forall i | asksTaken <= i < |market.asks|
      ensures market.asks[i].price > price
    {
      if asksTaken < i {
        assert StrictlyBetter(market.asks[asksTaken], market.asks[i], Sell);
      }
    }
    EligibleIsPrefix(market.bids, Buy, price, bidsLeft);
    EligibleIsPrefix(market.asks, Sell, price, asksTaken);
  }

  /** One interval evaluated: keeping the better of incumbent and interval winner extends the sweep. */
  lemma SweepInterval(best: Option<AuctionClearing>, next: Option<AuctionClearing>, bidsLeft: int, asksTaken: int,
                      lower: Price, upper: Price, market: AggregateMarket, grid: AuctionPriceGrid, band: AuctionPriceBand,
                      reference: Price, policy: AuctionPricePolicy, demand: u128, supply: u128, chosen: Price)
    requires grid.Valid() && market.Representable()
    requires Canonical(market.bids, Buy, grid) && Canonical(market.asks, Sell, grid)
    requires reference % grid.tick == 0
    requires IsCandidate(lower, grid, band) && IsCandidate(upper, grid, band) && lower <= upper
    requires AtPosition(market, bidsLeft, asksTaken, lower)
    requires bidsLeft > 0 ==> upper <= market.bids[bidsLeft - 1].price
    requires asksTaken < |market.asks| ==> upper < market.asks[asksTaken].price
    requires demand == market.interest.buyQuantity + TotalOf(market.bids[..bidsLeft])
    requires supply == market.interest.sellQuantity + TotalOf(market.asks[..asksTaken])
    requires SweptBelow(best, lower, market, grid, band, reference, policy)
    requires chosen == IntervalCandidatePrice(lower, upper, reference, demand, supply, policy)
    requires var candidate := FromQuantities(chosen, demand, supply);
             next == if candidate.executableQuantity != 0 && (best.None? || IsBetterThan(candidate, best.value, reference, policy))
                     then Some(candidate) else best
    ensures SweptBelow(next, upper + grid.tick, market, grid, band, reference, policy)
  {
    assert chosen % grid.tick == 0;
    IntervalCandidateWins(lower, upper, reference, demand, supply, policy, lower);
    ConstantOnInterval(market, bidsLeft, asksTaken, lower, upper, chosen, grid);
    var candidate := FromQuantities(chosen, demand, supply);
    assert candidate == market.StateAt(chosen);
    forall price: Price | IsCandidate(price, grid, band) && price < upper + grid.tick && market.Crosses(price)
      ensures next.Some?
      ensures price != next.value.price ==> IsBetterThan(next.value, market.StateAt(price), reference, policy)
    {
      if price < lower {
        if next != best {
          BetterThanIncumbent(market, chosen, best.value.price, price, reference, policy);
        }
      } else {
        if price > upper {
          GridGap(grid.tick, upper, price);
        }
        ConstantOnInterval(market, bidsLeft, asksTaken, lower, upper, price, grid);
        IntervalCandidateWins(lower, upper, reference, demand, supply, policy, price);
        assert market.StateAt(price) == FromQuantities(price, demand, supply);
        if next == best {
          RankingIsTotal(candidate, best.value, reference, policy);
          BetterThanIncumbent(market, best.value.price, chosen, price, reference, policy);
        }
      }
    }
  }

  lemma PrefixesFit(market: AggregateMarket, n: nat, m: nat)
    requires market.Representable() && n <= |market.bids| && m <= |market.asks|
    ensures market.interest.buyQuantity + TotalOf(market.bids[..n]) <= U128_MAX
    ensures market.interest.sellQuantity + TotalOf(market.asks[..m]) <= U128_MAX
  {
    PrefixAtMostTotal(market.bids, n);
    PrefixAtMostTotal(market.asks, m);
  }

  /** What every caller must supply: an aligned ordered band, an aligned reference, canonical
      sides and totals that fit 128 bits. */
  ghost predicate ValidInputs(market: AggregateMarket, grid: AuctionPriceGrid, band: AuctionPriceBand, reference: Price)
    requires grid.Valid()
  {
    && band.minimum <= band.maximum && grid.Contains(band.minimum) && grid.Contains(band.maximum)
    && grid.Contains(reference)
    && Canonical(market.bids, Buy, grid) && Canonical(market.asks, Sell, grid)
    && market.Representable()
  }

  /** The price at which demand or supply next changes, if inside the band. */
  function NextTransition(market: AggregateMarket, grid: AuctionPriceGrid, band: AuctionPriceBand, bidsLeft: nat, asksTaken: nat): (r: Option<Price>)
    requires grid.Valid() && bidsLeft <= |market.bids| && asksTaken <= |market.asks|
  {
    var bidSuccessor := if bidsLeft == 0 then None else grid.Successor(market.bids[bidsLeft - 1].price);
    var bidTransition := if bidSuccessor.Some? && bidSuccessor.value <= band.maximum then bidSuccessor else None;
    var askTransition :=
      if asksTaken < |market.asks| && market.asks[asksTaken].price <= band.maximum
      then Some(market.asks[asksTaken].price) else None;
    MinimumPrice(bidTransition, askTransition)
  }

  function IntervalUpper(next: Option<Price>, grid: AuctionPriceGrid, band: AuctionPriceBand): Price {
    var predecessor := if next.Some? then grid.Predecessor(next.value) else None;
    if predecessor.Some? then predecessor.value else band.maximum
  }

  /** The interval ending just before the next transition is non-empty, aligned, and crosses no
      bid or ask transition. */
  lemma IntervalIsConstant(market: AggregateMarket, grid: AuctionPriceGrid, band: AuctionPriceBand, bidsLeft: nat, asksTaken: nat, lower: Price)
    requires grid.Valid() && Canonical(market.bids, Buy, grid) && Canonical(market.asks, Sell, grid)
    requires IsCandidate(lower, grid, band) && band.maximum % grid.tick == 0
    requires AtPosition(market, bidsLeft, asksTaken, lower)
    ensures var next := NextTransition(market, grid, band, bidsLeft, asksTaken);
            var upper := IntervalUpper(next, grid, band);
            && IsCandidate(upper, grid, band) && lower <= upper
            && (bidsLeft > 0 ==> upper <= market.bids[bidsLeft - 1].price)
            && (asksTaken < |market.asks| ==> upper < market.asks[asksTaken].price)
            && (next.Some? ==> next.value == upper + grid.tick && IsCandidate(next.value, grid, band))
            && (next.None? ==> upper == band.maximum)
  {
    var next := NextTransition(market, grid, band, bidsLeft, asksTaken);
    if bidsLeft > 0 {
      GridStep(grid.tick, market.bids[bidsLeft - 1].price);
    }
    if next.Some? {
      GridStep(grid.tick, next.value);
      GridGap(grid.tick, lower, next.value);
    } else if bidsLeft > 0 && market.bids[bidsLeft - 1].price < band.maximum {
      GridGap(grid.tick, market.bids[bidsLeft - 1].price, band.maximum);
    }
  }

  lemma AsksSettle(asks: seq<AuctionLevel>, grid: AuctionPriceGrid, transition: Price, taken: nat)
    requires grid.Valid() && Canonical(asks, Sell, grid) && taken <= |asks|
    requires forall i :: taken <= i < |asks| ==> asks[i].price >= transition
    requires taken < |asks| ==> asks[taken].price != transition
    ensures forall i :: taken <= i < |asks| ==> asks[i].price > transition
  {
    forall i | taken <= i < |asks| ensures asks[i].price > transition {
      if taken < i { assert StrictlyBetter(asks[taken], asks[i], Sell); }
    }
  }

  /** Moves every ask priced exactly at the transition into supply. */
  method TakeAsks(ghost m: AggregateMarket, asks: seq<AuctionLevel>, grid: AuctionPriceGrid, transition: Price, supply0: u128, nextAsk0: nat)
    returns (r: Result<(u128, nat), AuctionError>)
    requires grid.Valid() && m.Representable() && m.asks == asks && Canonical(asks, Sell, grid)
    requires nextAsk0 <= |asks|
    requires forall i :: 0 <= i < nextAsk0 ==> asks[i].price <= transition
    requires forall i :: nextAsk0 <= i < |asks| ==> asks[i].price >= transition
    requires supply0 == m.interest.sellQuantity + TotalOf(asks[..nextAsk0])
    ensures r.Ok? && nextAsk0 <= r.value.1 <= |asks|
    ensures nextAsk0 < |asks| && asks[nextAsk0].price == transition ==> nextAsk0 < r.value.1
    ensures forall i :: 0 <= i < |asks| ==> (asks[i].price <= transition <==> i < r.value.1)
    ensures r.value.0 == m.interest.sellQuantity + TotalOf(asks[..r.value.1])
  {
    hide Canonical, AuctionPriceGrid.Valid, AggregateMarket.Representable;
    var supply: u128, nextAsk: nat := supply0, nextAsk0;
    while nextAsk < |asks| && asks[nextAsk].price == transition
      invariant nextAsk0 <= nextAsk <= |asks|
      invariant forall i :: 0 <= i < nextAsk ==> asks[i].price <= transition
      invariant forall i :: nextAsk <= i < |asks| ==> asks[i].price >= transition
      invariant supply == m.interest.sellQuantity + TotalOf(asks[..nextAsk])
    {
      PrefixStep(asks, nextAsk);
      PrefixesFit(m, 0, nextAsk + 1);
      var sum := CheckedAddU128(supply, asks[nextAsk].quantity);
      if sum.None? {
        return Err(QuantityOverflow(Sell));
      }
      supply := sum.value;
      nextAsk := nextAsk + 1;
    }
    AsksSettle(asks, grid, transition, nextAsk);
    return Ok((supply, nextAsk));
  }

  /** Removes from demand every bid whose successor price is exactly the transition. */
  method DropBids(ghost m: AggregateMarket, bids: seq<AuctionLevel>, grid: AuctionPriceGrid, transition: Price, demand0: u128, remaining0: nat)
    returns (r: Result<(u128, nat), AuctionError>)
    requires grid.Valid() && m.Representable() && m.bids == bids && Canonical(bids, Buy, grid)
    requires transition % grid.tick == 0 && remaining0 <= |bids|
    requires forall i :: 0 <= i < remaining0 ==> bids[i].price + grid.tick >= transition
    requires forall i :: remaining0 <= i < |bids| ==> bids[i].price < transition
    requires demand0 == m.interest.buyQuantity + TotalOf(bids[..remaining0])
    ensures r.Ok? && r.value.1 <= remaining0
    ensures remaining0 > 0 && bids[remaining0 - 1].price + grid.tick == transition ==> r.value.1 < remaining0
    ensures forall i :: 0 <= i < |bids| ==> (bids[i].price >= transition <==> i < r.value.1)
    ensures r.value.0 == m.interest.buyQuantity + TotalOf(bids[..r.value.1])
  {
    var demand: u128, remaining: nat := demand0, remaining0;
    while remaining != 0 && grid.Successor(bids[remaining - 1].price) == Some(transition)
      invariant remaining <= remaining0
      invariant forall i :: remaining <= i < |bids| ==> bids[i].price < transition
      invariant demand == m.interest.buyQuantity + TotalOf(bids[..remaining])
    {
      PrefixStep(bids, remaining - 1);
      var difference := CheckedSubU128(demand, bids[remaining - 1].quantity);
      if difference.None? {
        return Err(QuantityUnderflow(Buy));
      }
      demand := difference.value;
      remaining := remaining - 1;
    }
    BidsSettle(bids, grid, transition, remaining);
    return Ok((demand, remaining));
  }

  /** Once the last kept bid's successor is not the transition, every kept bid is at or above it. */
  lemma BidsSettle(bids: seq<AuctionLevel>, grid: AuctionPriceGrid, transition: Price, remaining: nat)
    requires grid.Valid() && Canonical(bids, Buy, grid) && transition % grid.tick == 0 && remaining <= |bids|
    requires forall i :: 0 <= i < remaining ==> bids[i].price + grid.tick >= transition
    requires remaining > 0 ==> grid.Successor(bids[remaining - 1].price) != Some(transition)
    ensures forall i :: 0 <= i < remaining ==> bids[i].price >= transition
  {
    if remaining > 0 && bids[remaining - 1].price < transition {
      GridGap(grid.tick, bids[remaining - 1].price, transition);
    }
    forall i | 0 <= i < remaining ensures bids[i].price >= transition {
      if i < remaining - 1 { assert StrictlyBetter(bids[i], bids[remaining - 1], Buy); }
    }
  }

  /** The levels eligible at the band minimum, with their running total. */
  method CountEligible(levels: seq<AuctionLevel>, side: Side, interest: u128, minimum: Price, grid: AuctionPriceGrid)
    returns (r: Result<(u128, nat), AuctionError>)
    requires grid.Valid() && Canonical(levels, side, grid) && interest + TotalOf(levels) <= U128_MAX
    ensures r.Ok? && r.value.1 <= |levels| && r.value.0 == interest + TotalOf(levels[..r.value.1])
    ensures forall i :: 0 <= i < |levels| ==> (LevelEligible(levels[i], side, minimum) <==> i < r.value.1)
  {
    var total: u128, count: nat := interest, 0;
    while count < |levels| && LevelEligible(levels[count], side, minimum)
      invariant count <= |levels|
      invariant forall i :: 0 <= i < count ==> LevelEligible(levels[i], side, minimum)
      invariant total == interest + TotalOf(levels[..count])
    {
      PrefixStep(levels, count);
      PrefixAtMostTotal(levels, count + 1);
      var sum := CheckedAddU128(total, levels[count].quantity);
      if sum.None? {
        return Err(QuantityOverflow(side));
      }
      total := sum.value;
      count := count + 1;
    }
    forall i | count <= i < |levels| ensures !LevelEligible(levels[i], side, minimum) {
      if count < i { assert StrictlyBetter(levels[count], levels[i], side); }
    }
    return Ok((total, count));
  }

  /** The cumulative quantities at one sweep position. */
  ghost predicate CurvesAt(market: AggregateMarket, bidsLeft: int, asksTaken: int, demand: int, supply: int) {
    && 0 <= bidsLeft <= |market.bids| && 0 <= asksTaken <= |market.asks|
    && demand == market.interest.buyQuantity + TotalOf(market.bids[..bidsLeft])
    && supply == market.interest.sellQuantity + TotalOf(market.asks[..asksTaken])
  }

  /** Evaluates the interval that starts at `lower` and keeps the better of it and the incumbent. */
  method EvaluateInterval(m: AggregateMarket, grid: AuctionPriceGrid, band: AuctionPriceBand, reference: Price, policy: AuctionPricePolicy,
                          incumbent: Option<AuctionClearing>, lower: Price, bidsLeft: nat, asksTaken: nat, demand: u128, supply: u128)
    returns (best: Option<AuctionClearing>, next: Option<Price>)
    requires grid.Valid() && ValidInputs(m, grid, band, reference)
    requires IsCandidate(lower, grid, band) && AtPosition(m, bidsLeft, asksTaken, lower)
    requires CurvesAt(m, bidsLeft, asksTaken, demand, supply)
    requires SweptBelow(incumbent, lower, m, grid, band, reference, policy)
    ensures next == NextTransition(m, grid, band, bidsLeft, asksTaken)
    ensures next.Some? ==> IsCandidate(next.value, grid, band) && SweptBelow(best, next.value, m, grid, band, reference, policy)
    ensures next.None? ==> IsDiscovery(best, m, grid, band, reference, policy)
  {
    next := NextTransition(m, grid, band, bidsLeft, asksTaken);
    var upper := IntervalUpper(next, grid, band);
    IntervalIsConstant(m, grid, band, bidsLeft, asksTaken, lower);
    best := incumbent;
    var chosen := IntervalCandidatePrice(lower, upper, reference, demand, supply, policy);
    var candidate := FromQuantities(chosen, demand, supply);
    if candidate.executableQuantity != 0 && (best.None? || IsBetterThan(candidate, best.value, reference, policy)) {
      best := Some(candidate);
    }
    SweepInterval(incumbent, best, bidsLeft, asksTaken, lower, upper, m, grid, band, reference, policy, demand, supply, chosen);
  }

  /** Where the sweep stands: bids still eligible, asks already eligible, and both totals. */
  datatype SweepPosition = SweepPosition(bidsLeft: nat, asksTaken: nat, demand: u128, supply: u128)

  /** Crosses one transition: asks priced there join supply, bids just below it leave demand. */
  method CrossTransition(m: AggregateMarket, grid: AuctionPriceGrid, band: AuctionPriceBand, lower: Price, transition: Price,
                         bidsLeft0: nat, asksTaken0: nat, demand0: u128, supply0: u128)
    returns (r: Result<SweepPosition, AuctionError>)
    requires grid.Valid() && m.Representable() && band.maximum % grid.tick == 0
    requires Canonical(m.bids, Buy, grid) && Canonical(m.asks, Sell, grid)
    requires IsCandidate(lower, grid, band) && AtPosition(m, bidsLeft0, asksTaken0, lower)
    requires NextTransition(m, grid, band, bidsLeft0, asksTaken0) == Some(transition)
    requires CurvesAt(m, bidsLeft0, asksTaken0, demand0, supply0)
    ensures r.Ok? && AtPosition(m, r.value.bidsLeft, r.value.asksTaken, transition)
    ensures CurvesAt(m, r.value.bidsLeft, r.value.asksTaken, r.value.demand, r.value.supply)
    ensures r.value.bidsLeft + (|m.asks| - r.value.asksTaken) < bidsLeft0 + (|m.asks| - asksTaken0)
  {
    IntervalIsConstant(m, grid, band, bidsLeft0, asksTaken0, lower);
    forall i | asksTaken0 <= i < |m.asks| ensures m.asks[i].price >= transition {
      if asksTaken0 < i { assert StrictlyBetter(m.asks[asksTaken0], m.asks[i], Sell); }
    }
    forall i | 0 <= i < bidsLeft0 ensures m.bids[i].price + grid.tick >= transition {
      if i < bidsLeft0 - 1 { assert StrictlyBetter(m.bids[i], m.bids[bidsLeft0 - 1], Buy); }
    }
    var taken := TakeAsks(m, m.asks, grid, transition, supply0, asksTaken0);
    var dropped := DropBids(m, m.bids, grid, transition, demand0, bidsLeft0);
    match (taken, dropped)
    case (Err(error), _) => return Err(error);
    case (_, Err(error)) => return Err(error);
    case (Ok((supply, asksTaken)), Ok((demand, bidsLeft))) => return Ok(SweepPosition(bidsLeft, asksTaken, demand, supply));
  }

  /** One pass over the constant intervals of the band, without enumerating prices. */
  method Sweep(m: AggregateMarket, grid: AuctionPriceGrid, band: AuctionPriceBand, reference: Price, policy: AuctionPricePolicy)
    returns (r: Result<Option<AuctionClearing>, AuctionError>)
    requires grid.Valid() && ValidInputs(m, grid, band, reference)
    ensures r.Ok? && IsDiscovery(r.value, m, grid, band, reference, policy)
  {
    var eligibleBids := CountEligible(m.bids, Buy, m.interest.buyQuantity, band.minimum, grid);
    var eligibleAsks := CountEligible(m.asks, Sell, m.interest.sellQuantity, band.minimum, grid);
    var bidsLeft, asksTaken, demand, supply;
    match (eligibleBids, eligibleAsks) {
      case (Err(error), _) => return Err(error);
      case (_, Err(error)) => return Err(error);
      case (Ok(bids), Ok(asks)) => bidsLeft, asksTaken, demand, supply := bids.1, asks.1, bids.0, asks.0;
    }
    var lower := band.minimum;
    var best: Option<AuctionClearing>, next: Option<Price> := None, None;
    best, next := EvaluateInterval(m, grid, band, reference, policy, best, lower, bidsLeft, asksTaken, demand, supply);
    while next.Some?
      invariant IsCandidate(lower, grid, band) && AtPosition(m, bidsLeft, asksTaken, lower)
      invariant CurvesAt(m, bidsLeft, asksTaken, demand, supply)
      invariant next == NextTransition(m, grid, band, bidsLeft, asksTaken)
      invariant next.Some? ==> IsCandidate(next.value, grid, band) && SweptBelow(best, next.value, m, grid, band, reference, policy)
      invariant next.None? ==> IsDiscovery(best, m, grid, band, reference, policy)
      decreases bidsLeft + (|m.asks| - asksTaken)
    {
      var crossed := CrossTransition(m, grid, band, lower, next.value, bidsLeft, asksTaken, demand, supply);
      match crossed {
        case Err(error) => return Err(error);
        case Ok(position) =>
          bidsLeft, asksTaken, demand, supply := position.bidsLeft, position.asksTaken, position.demand, position.supply;
      }
      lower := next.value;
      best, next := EvaluateInterval(m, grid, band, reference, policy, best, lower, bidsLeft, asksTaken, demand, supply);
    }
    return Ok(best);
  }

  /** Which input check failed, in the order the checks are made. */
  ghost predicate IsInputError(error: AuctionError, m: AggregateMarket, grid: AuctionPriceGrid, band: AuctionPriceBand, reference: Price)
    requires grid.Valid()
  {
    var bandOk := band.minimum <= band.maximum && grid.Contains(band.minimum) && grid.Contains(band.maximum);
    var bidsOk := Canonical(m.bids, Buy, grid) && TotalOf(m.bids) <= U128_MAX;
    var asksOk := Canonical(m.asks, Sell, grid) && TotalOf(m.asks) <= U128_MAX;
    var buyFits := m.interest.buyQuantity + TotalOf(m.bids) <= U128_MAX;
    match error
    case PriceBandInverted => band.minimum > band.maximum
    case PriceBandMinimumOffGrid => band.minimum <= band.maximum && !grid.Contains(band.minimum)
    case PriceBandMaximumOffGrid =>
      band.minimum <= band.maximum && grid.Contains(band.minimum) && !grid.Contains(band.maximum)
    case ReferencePriceOffGrid => bandOk && !grid.Contains(reference)
    case _ =>
      && bandOk && grid.Contains(reference)
      && (|| (exists n :: FirstOffence(error, m.bids, Buy, grid, n))
          || (bidsOk && exists n :: FirstOffence(error, m.asks, Sell, grid, n))
          || (bidsOk && asksOk && !buyFits && error == QuantityOverflow(Buy))
          || (bidsOk && asksOk && buyFits && error == QuantityOverflow(Sell)
              && m.interest.sellQuantity + TotalOf(m.asks) > U128_MAX))
  }

  method DiscoverBoundedClearingPrice(bids: seq<AuctionLevel>, asks: seq<AuctionLevel>, market: AuctionMarketInterest,
                                      grid: AuctionPriceGrid, priceBand: AuctionPriceBand, referencePrice: Price,
                                      policy: AuctionPricePolicy)
    returns (r: Result<Option<AuctionClearing>, AuctionError>)
    requires grid.Valid()
    ensures r.Ok? <==> ValidInputs(AggregateMarket(bids, asks, market), grid, priceBand, referencePrice)
    ensures r.Ok? ==> IsDiscovery(r.value, AggregateMarket(bids, asks, market), grid, priceBand, referencePrice, policy)
    ensures r.Ok? ==> IsBestOfMarket(r.value, AggregateMarket(bids, asks, market), grid, priceBand, referencePrice, policy)
    ensures r.Err? ==> IsInputError(r.error, AggregateMarket(bids, asks, market), grid, priceBand, referencePrice)
    ensures r.Err? ==> !r.error.QuantityUnderflow?
  {
    var bandError := ValidatePriceBand(grid, priceBand.minimum, priceBand.maximum);
    if bandError.Some? {
      return Err(bandError.value);
    }
    if !grid.Contains(referencePrice) {
      return Err(ReferencePriceOffGrid);
    }
    var totalBuy :- ValidateLevels(bids, Buy, grid);
    var totalSell :- ValidateLevels(asks, Sell, grid);
    if CheckedAddU128(totalBuy, market.buyQuantity).None? {
      return Err(QuantityOverflow(Buy));
    }
    if CheckedAddU128(totalSell, market.sellQuantity).None? {
      return Err(QuantityOverflow(Sell));
    }
    r := Sweep(AggregateMarket(bids, asks, market), grid, priceBand, referencePrice, policy);
    DiscoveryMeans(r.value, AggregateMarket(bids, asks, market), grid, priceBand, referencePrice, policy);
  }

  /** The full representable domain of one grid holds every aligned price. */
  function FullBand(grid: AuctionPriceGrid): (band: AuctionPriceBand)
    requires grid.Valid()
    ensures IsCandidate(band.minimum, grid, band) && IsCandidate(band.maximum, grid, band)
    ensures forall price: Price :: grid.Contains(price) ==> IsCandidate(price, grid, band)
  {
    FullBandIsComplete(grid);
    AuctionPriceBand(grid.Minimum(), grid.Maximum())
  }

  lemma FullBandIsComplete(grid: AuctionPriceGrid)
    requires grid.Valid()
    ensures grid.Contains(grid.Minimum()) && grid.Contains(grid.Maximum())
    ensures forall price: Price :: grid.Contains(price) ==> grid.Minimum() <= price <= grid.Maximum()
  {
    MultipleOnGrid(grid.tick, I64_MAX / grid.tick);
    MultipleOnGrid(grid.tick, I64_MIN / grid.tick);
    MultipleOnGrid(grid.tick, I64_MIN / grid.tick + 1);
    assert grid.Maximum() == (I64_MAX / grid.tick) * grid.tick;
    assert grid.Minimum() == (I64_MIN / grid.tick) * grid.tick || grid.Minimum() == (I64_MIN / grid.tick + 1) * grid.tick;
    forall price: Price | grid.Contains(price)
      ensures grid.Minimum() <= price <= grid.Maximum()
    {
      if price > grid.Maximum() {
        GridGap(grid.tick, grid.Maximum(), price);
      }
      if price < grid.Minimum() {
        GridGap(grid.tick, price, grid.Minimum());
      }
    }
  }

  method DiscoverClearingPrice(bids: seq<AuctionLevel>, asks: seq<AuctionLevel>, grid: AuctionPriceGrid,
                               referencePrice: Price, policy: AuctionPricePolicy)
    returns (r: Result<Option<AuctionClearing>, AuctionError>)
    requires grid.Valid()
    ensures var market := AggregateMarket(bids, asks, AuctionMarketInterest(0, 0));
            && (r.Ok? <==> ValidInputs(market, grid, FullBand(grid), referencePrice))
            && (r.Ok? ==> IsDiscovery(r.value, market, grid, FullBand(grid), referencePrice, policy))
            && (r.Ok? ==> IsBestOfMarket(r.value, market, grid, FullBand(grid), referencePrice, policy))
  {
    r := DiscoverBoundedClearingPrice(bids, asks, AuctionMarketInterest(0, 0), grid, FullBand(grid), referencePrice, policy);
  }
}
