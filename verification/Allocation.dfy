/** Order-level allocation of one clearing state: price-time and price/class-tier pro-rata. */
module Allocation {
  import opened Arithmetic
  import opened Clearing
  import opened Domain
  import opened MulDiv
  import opened Sums

  datatype AuctionOrder = AuctionOrder(
    orderId: OrderId,
    constraint: AuctionOrderConstraint,
    quantity: Quantity,
    priorityClass: u16,
    prioritySequence: u64)

  datatype AuctionAllocationPolicy = PriceTime | ProRataTime

  datatype AuctionOrderFill = AuctionOrderFill(sourceIndex: nat, orderId: OrderId, quantityLots: Quantity)

  datatype AuctionAllocationPlan =
    AuctionAllocationPlan(clearing: AuctionClearing, buyFills: seq<AuctionOrderFill>, sellFills: seq<AuctionOrderFill>)

  datatype AuctionAllocationError =
    | InvalidOrderLimit(limit: nat)
    | InvalidAllocationQuantum(quantum: nat)
    | OrderLimitExceeded(side: Side, count: nat, maximum: nat)
    | ClearingPriceOffGrid
    | LimitPriceOffGrid(side: Side, index: nat)
    | OrderQuantityOffAllocationGrid(side: Side, index: nat, quantityLots: nat, allocationQuantumLots: nat)
    | NonCanonicalOrders(side: Side, index: nat)
    | QuantityOverflow(side: Side)
    | ClearingQuantityMismatch(expectedBuy: nat, observedBuy: nat, expectedSell: nat, observedSell: nat)
    | ZeroExecutableQuantity
    | FillQuantityOverflow(side: Side)
    | InsufficientEligibleQuantity(side: Side)

  // ----- priority

  predicate KeyLess(a: AuctionOrder, b: AuctionOrder) {
    || a.priorityClass < b.priorityClass
    || (a.priorityClass == b.priorityClass && a.prioritySequence < b.prioritySequence)
    || (a.priorityClass == b.priorityClass && a.prioritySequence == b.prioritySequence && a.orderId < b.orderId)
  }

  /** Strict execution priority: market first, then better price, then class, time, identity. */
  predicate Precedes(a: AuctionOrder, b: AuctionOrder, side: Side) {
    match (a.constraint, b.constraint)
    case (Market, Limit(_)) => true
    case (Limit(_), Market) => false
    case (Market, Market) => KeyLess(a, b)
    case (Limit(p), Limit(q)) =>
      if p == q then KeyLess(a, b) else (match side case Buy => q < p case Sell => p < q)
  }

  predicate IsEligible(order: AuctionOrder, side: Side, clearingPrice: Price) {
    match order.constraint
    case Market => true
    case Limit(price) => (match side case Buy => price >= clearingPrice case Sell => price <= clearingPrice)
  }

  predicate SameAllocationTier(a: AuctionOrder, b: AuctionOrder) {
    a.constraint == b.constraint && a.priorityClass == b.priorityClass
  }

  ghost predicate InPriority(orders: seq<AuctionOrder>, side: Side) {
    forall i, j :: 0 <= i < j < |orders| ==> Precedes(orders[i], orders[j], side)
  }

  /** One price-and-class tier executes before another: market orders first, then the better limit,
      then at the same constraint the lower class. */
  ghost predicate TierFirst(c: AuctionOrderConstraint, classC: u16, d: AuctionOrderConstraint, classD: u16, side: Side) {
    || (c.Market? && d.Limit?)
    || (c.Limit? && d.Limit? && if side == Buy then c.price > d.price else c.price < d.price)
    || (c == d && classC < classD)
  }

  /** Each order executes before the next ones: by tier, and within one tier the earlier sequence, or
      at the same sequence the smaller identity. */
  ghost predicate RunsInOrder(orders: seq<AuctionOrder>, side: Side) {
    forall i, j :: 0 <= i < j < |orders| ==>
      var x, y := orders[i], orders[j];
      || TierFirst(x.constraint, x.priorityClass, y.constraint, y.priorityClass, side)
      || (x.constraint == y.constraint && x.priorityClass == y.priorityClass
          && if x.prioritySequence == y.prioritySequence then x.orderId < y.orderId else x.prioritySequence < y.prioritySequence)
  }

  /** What canonical priority means. */
  lemma InPriorityMeans(orders: seq<AuctionOrder>, side: Side)
    ensures InPriority(orders, side) <==> RunsInOrder(orders, side)
  {
    forall i, j | 0 <= i < j < |orders|
      ensures Precedes(orders[i], orders[j], side) <==>
                || TierFirst(orders[i].constraint, orders[i].priorityClass, orders[j].constraint, orders[j].priorityClass, side)
                || (orders[i].constraint == orders[j].constraint && orders[i].priorityClass == orders[j].priorityClass
                    && if orders[i].prioritySequence == orders[j].prioritySequence then orders[i].orderId < orders[j].orderId
                       else orders[i].prioritySequence < orders[j].prioritySequence)
    {
    }
    hide Precedes, TierFirst;
  }

  /** Whoever precedes an eligible order is eligible. */
  lemma EligibilityIsPrefix(a: AuctionOrder, b: AuctionOrder, side: Side, clearingPrice: Price)
    requires Precedes(a, b, side) && IsEligible(b, side, clearingPrice)
    ensures IsEligible(a, side, clearingPrice)
  {
  }

  /** Leaves of the first `n` orders. */
  ghost function Cum(orders: seq<AuctionOrder>, n: nat): nat
    requires n <= |orders|
  {
    if n == 0 then 0 else Cum(orders, n - 1) + orders[n - 1].quantity
  }

  lemma {:induction false} CumMonotone(orders: seq<AuctionOrder>, m: nat, n: nat)
    requires m <= n <= |orders|
    ensures Cum(orders, m) + (n - m) <= Cum(orders, n)
  {
    if m < n {
      CumMonotone(orders, m, n - 1);
    }
  }

  /** Eligible leaves among the first `n` orders. */
  ghost function EligibleCum(orders: seq<AuctionOrder>, side: Side, clearingPrice: Price, n: nat): nat
    requires n <= |orders|
  {
    if n == 0 then 0 else
    EligibleCum(orders, side, clearingPrice, n - 1) +
    if IsEligible(orders[n - 1], side, clearingPrice) then orders[n - 1].quantity else 0
  }

  ghost function EligibleQuantity(orders: seq<AuctionOrder>, side: Side, clearingPrice: Price): nat {
    EligibleCum(orders, side, clearingPrice, |orders|)
  }

  /** The first position from `at` whose order is not eligible. */
  ghost function EligibleEnd(orders: seq<AuctionOrder>, side: Side, clearingPrice: Price, at: nat): (end: nat)
    requires at <= |orders|
    ensures at <= end <= |orders|
    ensures forall i :: at <= i < end ==> IsEligible(orders[i], side, clearingPrice)
    ensures end < |orders| ==> !IsEligible(orders[end], side, clearingPrice)
    decreases |orders| - at
  {
    if at < |orders| && IsEligible(orders[at], side, clearingPrice) then EligibleEnd(orders, side, clearingPrice, at + 1) else at
  }

  /** In priority order the eligible orders are a prefix, so its total is all eligible interest. */
  lemma {:induction false} EligiblePrefixTotal(orders: seq<AuctionOrder>, side: Side, clearingPrice: Price, n: nat)
    requires InPriority(orders, side) && n <= |orders|
    ensures var end := EligibleEnd(orders, side, clearingPrice, 0);
            EligibleCum(orders, side, clearingPrice, n) == Cum(orders, Min(n, end))
  {
    var end := EligibleEnd(orders, side, clearingPrice, 0);
    if n > 0 {
      EligiblePrefixTotal(orders, side, clearingPrice, n - 1);
      if n - 1 > end && IsEligible(orders[n - 1], side, clearingPrice) {
        assert Precedes(orders[end], orders[n - 1], side);
        EligibilityIsPrefix(orders[end], orders[n - 1], side, clearingPrice);
      }
    }
  }

  // ----- what an allocation promises

  /** `shares[i]` lots for `orders[i]`: within leaves, only eligible orders, summing to the
      executable quantity, and nothing for a tier while an earlier tier is short. */
  ghost predicate IsAllocation(shares: seq<nat>, orders: seq<AuctionOrder>, side: Side, clearingPrice: Price, executable: nat) {
    && |shares| == |orders|
    && (forall i {:trigger shares[i]} :: 0 <= i < |orders| ==> shares[i] <= orders[i].quantity)
    && (forall i {:trigger shares[i]} :: 0 <= i < |orders| && shares[i] > 0 ==> IsEligible(orders[i], side, clearingPrice))
    && Sum(shares) == executable
    && (forall i, j {:trigger shares[i], shares[j]} :: 0 <= i < j < |orders| && shares[j] > 0 && !SameAllocationTier(orders[i], orders[j]) ==>
          shares[i] == orders[i].quantity)
  }

  /** Price-time adds strict priority inside the tier: nobody fills before an earlier order is full. */
  ghost predicate StrictPriority(shares: seq<nat>, orders: seq<AuctionOrder>)
    requires |shares| == |orders|
  {
    forall i, j {:trigger shares[i], shares[j]} :: 0 <= i < j < |orders| && shares[j] > 0 ==> shares[i] == orders[i].quantity
  }

  ghost predicate WithinLeaves(shares: seq<nat>, orders: seq<AuctionOrder>) {
    |shares| == |orders| && forall i {:trigger shares[i]} :: 0 <= i < |orders| ==> shares[i] <= orders[i].quantity
  }

  /** The fills of the first `n` shares: the positive ones, in order. */
  ghost function FillsOf(orders: seq<AuctionOrder>, shares: seq<nat>, n: nat): (fills: seq<AuctionOrderFill>)
    requires n <= |orders| && WithinLeaves(shares, orders)
    ensures |fills| <= n
  {
    if n == 0 then [] else
    FillsOf(orders, shares, n - 1) +
    if shares[n - 1] > 0 then [AuctionOrderFill(n - 1, orders[n - 1].orderId, shares[n - 1])] else []
  }

  lemma {:induction false} FillsOfZeroTail(orders: seq<AuctionOrder>, shares: seq<nat>, m: nat, n: nat)
    requires m <= n <= |orders| && WithinLeaves(shares, orders)
    requires forall i {:trigger shares[i]} :: m <= i < n ==> shares[i] == 0
    ensures FillsOf(orders, shares, n) == FillsOf(orders, shares, m)
  {
    if m < n {
      FillsOfZeroTail(orders, shares, m, n - 1);
    }
  }

  // ----- price-time

  function Clamp(x: int, most: nat): (r: nat)
    ensures r <= most
  {
    if x <= 0 then 0 else if x <= most then x else most
  }

  /** Each order takes what the earlier ones left, up to its leaves, while orders are eligible. */
  ghost function PriceTimeShare(orders: seq<AuctionOrder>, side: Side, clearingPrice: Price, executable: nat, i: nat): nat
    requires i < |orders|
  {
    if i < EligibleEnd(orders, side, clearingPrice, 0) then Clamp(executable - Cum(orders, i), orders[i].quantity) else 0
  }

  ghost function PriceTimeShares(orders: seq<AuctionOrder>, side: Side, clearingPrice: Price, executable: nat): (s: seq<nat>)
    ensures |s| == |orders|
    ensures forall i {:trigger s[i]} :: 0 <= i < |orders| ==> s[i] == PriceTimeShare(orders, side, clearingPrice, executable, i)
  {
    seq(|orders|, i requires 0 <= i < |orders| => PriceTimeShare(orders, side, clearingPrice, executable, i))
  }

  lemma {:induction false} PriceTimePrefixSum(orders: seq<AuctionOrder>, side: Side, clearingPrice: Price, executable: nat, n: nat)
    requires n <= |orders|
    ensures var end := EligibleEnd(orders, side, clearingPrice, 0);
            Sum(PriceTimeShares(orders, side, clearingPrice, executable)[..n]) == Min(executable, Cum(orders, Min(n, end)))
  {
    if n > 0 {
      PriceTimePrefixSum(orders, side, clearingPrice, executable, n - 1);
      SumStep(PriceTimeShares(orders, side, clearingPrice, executable), n - 1);
    }
  }

  /** An order with a share is eligible, and every earlier order is full. */
  lemma PriceTimeShareFacts(orders: seq<AuctionOrder>, side: Side, clearingPrice: Price, executable: nat, i: nat, j: nat)
    requires i <= j < |orders|
    ensures PriceTimeShare(orders, side, clearingPrice, executable, j) <= orders[j].quantity
    ensures PriceTimeShare(orders, side, clearingPrice, executable, j) > 0 ==>
              && IsEligible(orders[j], side, clearingPrice)
              && (i < j ==> PriceTimeShare(orders, side, clearingPrice, executable, i) == orders[i].quantity)
  {
    if i < j {
      CumMonotone(orders, i + 1, j);
    }
  }

  /** Price-time shares are an allocation with strict priority whenever eligible interest suffices. */
  lemma PriceTimeIsAllocation(orders: seq<AuctionOrder>, side: Side, clearingPrice: Price, executable: nat)
    requires InPriority(orders, side)
    requires executable <= EligibleQuantity(orders, side, clearingPrice)
    ensures var shares := PriceTimeShares(orders, side, clearingPrice, executable);
            IsAllocation(shares, orders, side, clearingPrice, executable) && StrictPriority(shares, orders)
  {
    hide PriceTimeShare, IsEligible;
    var shares := PriceTimeShares(orders, side, clearingPrice, executable);
    PriceTimePrefixSum(orders, side, clearingPrice, executable, |orders|);
    assert shares[..|orders|] == shares;
    EligiblePrefixTotal(orders, side, clearingPrice, |orders|);
    hide InPriority, SameAllocationTier, Sum, Cum, EligibleCum;
    forall i, j | 0 <= i <= j < |orders|
      ensures shares[j] <= orders[j].quantity
      ensures shares[j] > 0 ==> IsEligible(orders[j], side, clearingPrice) && (i < j ==> shares[i] == orders[i].quantity)
    {
      PriceTimeShareFacts(orders, side, clearingPrice, executable, i, j);
    }
  }

  // ----- pro-rata, in allocation quanta

  /** Each order's leaves in allocation quanta. */
  ghost function Quanta(orders: seq<AuctionOrder>, quantum: nat): (s: seq<nat>)
    requires quantum >= 1
    ensures |s| == |orders| && forall i :: 0 <= i < |s| ==> s[i] == Quotient(orders[i].quantity, quantum)
  {
    seq(|orders|, i requires 0 <= i < |orders| => Quotient(orders[i].quantity, quantum))
  }

  /** Floored proportional shares of `remaining` out of `total`. */
  ghost function BaseQuanta(quanta: seq<nat>, remaining: nat, total: nat): (s: seq<nat>)
    requires total >= 1
    ensures |s| == |quanta| && forall i :: 0 <= i < |s| ==> s[i] == Quotient(quanta[i] * remaining, total)
  {
    seq(|quanta|, i requires 0 <= i < |quanta| => Quotient(quanta[i] * remaining, total))
  }

  ghost function Residual(quanta: seq<nat>, remaining: nat): int {
    if Sum(quanta) == 0 then 0 else remaining - Sum(BaseQuanta(quanta, remaining, Sum(quanta)))
  }

  /** Marginal shares in quanta: the floor, plus one for each of the first `Residual` orders. */
  ghost function MarginalQuanta(quanta: seq<nat>, remaining: nat): (s: seq<nat>)
    requires Sum(quanta) >= 1
    ensures |s| == |quanta|
    ensures forall i :: 0 <= i < |s| ==>
              s[i] == Quotient(quanta[i] * remaining, Sum(quanta)) + if i < Residual(quanta, remaining) then 1 else 0
  {
    seq(|quanta|, i requires 0 <= i < |quanta| =>
      Quotient(quanta[i] * remaining, Sum(quanta)) + if i < Residual(quanta, remaining) then 1 else 0)
  }

  lemma CloseStep(total: nat, quanta: nat, remaining: nat, floor: nat, floors: nat, sum: nat, n: nat)
    requires total >= 1 && floor * total <= quanta * remaining <= floor * total + (total - 1)
    requires total * floors <= sum * remaining <= total * floors + n * (total - 1)
    ensures total * (floor + floors) <= (quanta + sum) * remaining <= total * (floor + floors) + (n + 1) * (total - 1)
  {
    assert total * (floor + floors) == floor * total + total * floors;
    assert (quanta + sum) * remaining == quanta * remaining + sum * remaining;
    assert (n + 1) * (total - 1) == n * (total - 1) + (total - 1);
  }

  /** Floors lose less than one quantum each. */
  lemma {:induction false} FloorsAreClose(quanta: seq<nat>, remaining: nat, total: nat)
    requires total >= 1
    ensures var floors := Sum(BaseQuanta(quanta, remaining, total));
            total * floors <= Sum(quanta) * remaining <= total * floors + |quanta| * (total - 1)
  {
    var base := BaseQuanta(quanta, remaining, total);
    if quanta == [] {
    } else {
      FloorsAreClose(quanta[1..], remaining, total);
      assert base[1..] == BaseQuanta(quanta[1..], remaining, total);
      QuotientBounds(quanta[0] * remaining, total);
      CloseStep(total, quanta[0], remaining, base[0], Sum(base[1..]), Sum(quanta[1..]), |quanta| - 1);
    }
  }

  lemma CloseWithin(total: nat, remaining: nat, floors: nat, n: nat)
    requires total >= 1 && n >= 1
    requires total * floors <= total * remaining <= total * floors + n * (total - 1)
    ensures 0 <= remaining - floors < n
  {
    var gap := remaining - floors;
    assert gap * total == total * remaining - total * floors;
    assert n * (total - 1) == n * total - n;
    ScaleIsMonotone(gap, -1, total);
    ScaleIsMonotone(n, gap, total);
  }

  /** The residual is smaller than the tier, so one pass of single quanta exhausts it. */
  lemma ResidualFitsTier(quanta: seq<nat>, remaining: nat)
    requires 0 < remaining < Sum(quanta)
    ensures 0 <= Residual(quanta, remaining) < |quanta|
  {
    var total := Sum(quanta);
    FloorsAreClose(quanta, remaining, total);
    CloseWithin(total, remaining, Sum(BaseQuanta(quanta, remaining, total)), |quanta|);
  }

  /** A proportional floor of a share below the whole is short of the order. */
  lemma FloorIsShort(quanta: nat, remaining: nat, total: nat)
    requires quanta >= 1 && remaining < total
    ensures Quotient(quanta * remaining, total) < quanta
  {
    hide Quotient;
    var q := Quotient(quanta * remaining, total);
    QuotientBounds(quanta * remaining, total);
    ScaleIsMonotone(quanta, q, total);
    ScaleIsMonotone(remaining + 1, total, quanta);
    assert (remaining + 1) * quanta == quanta * remaining + quanta;
    assert total * quanta == quanta * total;
  }

  /** Marginal shares sum exactly to the remaining quanta and never exceed an order. */
  lemma MarginalIsExact(quanta: seq<nat>, remaining: nat)
    requires 0 < remaining < Sum(quanta)
    requires forall i :: 0 <= i < |quanta| ==> quanta[i] >= 1
    ensures Sum(MarginalQuanta(quanta, remaining)) == remaining
    ensures forall i :: 0 <= i < |quanta| ==> MarginalQuanta(quanta, remaining)[i] <= quanta[i]
  {
    ResidualFitsTier(quanta, remaining);
    var base := BaseQuanta(quanta, remaining, Sum(quanta));
    SumIncremented(base, MarginalQuanta(quanta, remaining), Residual(quanta, remaining));
    forall i | 0 <= i < |quanta|
      ensures MarginalQuanta(quanta, remaining)[i] <= quanta[i]
    {
      FloorIsShort(quanta[i], remaining, Sum(quanta));
    }
  }

  ghost predicate Aligned(orders: seq<AuctionOrder>, quantum: nat)
    requires quantum >= 1
  {
    forall i :: 0 <= i < |orders| ==> IsMultiple(orders[i].quantity, quantum)
  }

  ghost function Quantities(orders: seq<AuctionOrder>): (s: seq<nat>)
    ensures |s| == |orders| && forall i :: 0 <= i < |s| ==> s[i] == orders[i].quantity
  {
    seq(|orders|, i requires 0 <= i < |orders| => orders[i].quantity)
  }

  ghost function MarginalShares(tier: seq<AuctionOrder>, remaining: nat, quantum: nat): (s: seq<nat>)
    requires quantum >= 1
    ensures |s| == |tier|
  {
    var quanta := Quanta(tier, quantum);
    if Sum(quanta) == 0 then Zeros(|tier|) else
    seq(|tier|, i requires 0 <= i < |tier| => Product(MarginalQuanta(quanta, Quotient(remaining, quantum))[i], quantum))
  }

  lemma AlignedQuotient(x: nat, quantum: nat)
    requires quantum >= 1 && IsMultiple(x, quantum)
    ensures Quotient(x, quantum) * quantum == x
  {
  }

  lemma TierInQuanta(tier: seq<AuctionOrder>, quantum: nat)
    requires quantum >= 1 && Aligned(tier, quantum)
    ensures Sum(Quantities(tier)) == Sum(Quanta(tier, quantum)) * quantum
    ensures IsMultiple(Sum(Quantities(tier)), quantum)
    ensures Quotient(Sum(Quantities(tier)), quantum) == Sum(Quanta(tier, quantum))
    ensures forall i :: 0 <= i < |tier| ==> Quanta(tier, quantum)[i] >= 1
  {
    forall i | 0 <= i < |tier|
      ensures Quantities(tier)[i] == Quanta(tier, quantum)[i] * quantum && Quanta(tier, quantum)[i] >= 1
    {
      AlignedQuotient(tier[i].quantity, quantum);
    }
    SumScaled(Quanta(tier, quantum), Quantities(tier), quantum);
    QuotientIs(Sum(Quantities(tier)), quantum, Sum(Quanta(tier, quantum)), 0);
  }

  lemma MarginalSharesAreExact(tier: seq<AuctionOrder>, remaining: nat, quantum: nat)
    requires quantum >= 1 && Aligned(tier, quantum) && IsMultiple(remaining, quantum)
    requires 0 < remaining < Sum(Quantities(tier))
    ensures 0 < Quotient(remaining, quantum) < Sum(Quanta(tier, quantum))
    ensures Sum(MarginalShares(tier, remaining, quantum)) == remaining
    ensures forall i :: 0 <= i < |tier| ==> MarginalShares(tier, remaining, quantum)[i] <= tier[i].quantity
  {
    var quanta, r := Quanta(tier, quantum), Quotient(remaining, quantum);
    TierInQuanta(tier, quantum);
    AlignedQuotient(remaining, quantum);
    ScaleIsMonotone(Sum(quanta), r, quantum);
    MarginalIsExact(quanta, r);
    var shares := MarginalQuanta(quanta, r);
    SumScaled(shares, MarginalShares(tier, remaining, quantum), quantum);
    forall i | 0 <= i < |tier|
      ensures shares[i] * quantum <= tier[i].quantity
    {
      AlignedQuotient(tier[i].quantity, quantum);
      ScaleIsMonotone(shares[i], quanta[i], quantum);
    }
  }

  // ----- pro-rata, tier by tier

  /** The end of the tier of `first` that continues at `at`. */
  ghost function TierEnd(orders: seq<AuctionOrder>, first: AuctionOrder, side: Side, clearingPrice: Price, at: nat): (end: nat)
    requires at <= |orders|
    ensures at <= end <= |orders|
    ensures forall i :: at <= i < end ==> IsEligible(orders[i], side, clearingPrice) && SameAllocationTier(first, orders[i])
    ensures end < |orders| ==> !(IsEligible(orders[end], side, clearingPrice) && SameAllocationTier(first, orders[end]))
    decreases |orders| - at
  {
    if at < |orders| && IsEligible(orders[at], side, clearingPrice) && SameAllocationTier(first, orders[at])
    then TierEnd(orders, first, side, clearingPrice, at + 1) else at
  }

  /** Where full tiers stop: every order before `start` fills, those in `[start, end)` share
      `remaining` lots proportionally, and the rest get nothing. */
  datatype Split = Split(start: nat, end: nat, remaining: nat)

  ghost function ProRataSplit(orders: seq<AuctionOrder>, side: Side, clearingPrice: Price, at: nat, remaining: nat): (s: Split)
    requires at <= |orders|
    ensures at <= s.start <= s.end <= |orders|
    decreases |orders| - at
  {
    if remaining == 0 || at == |orders| || !IsEligible(orders[at], side, clearingPrice) then Split(at, at, remaining)
    else
      var end := TierEnd(orders, orders[at], side, clearingPrice, at + 1);
      CumMonotone(orders, at, end);
      var total := Cum(orders, end) - Cum(orders, at);
      if remaining >= total then ProRataSplit(orders, side, clearingPrice, end, remaining - total)
      else Split(at, end, remaining)
  }

  ghost function ProRataShare(orders: seq<AuctionOrder>, s: Split, quantum: nat, i: nat): nat
    requires quantum >= 1 && s.start <= s.end <= |orders| && i < |orders|
  {
    if i < s.start then orders[i].quantity
    else if i < s.end then MarginalShares(orders[s.start..s.end], s.remaining, quantum)[i - s.start]
    else 0
  }

  ghost function ProRataShares(orders: seq<AuctionOrder>, side: Side, clearingPrice: Price, executable: nat, quantum: nat): (shares: seq<nat>)
    requires quantum >= 1
    ensures |shares| == |orders|
    ensures forall i {:trigger shares[i]} :: 0 <= i < |orders| ==>
              shares[i] == ProRataShare(orders, ProRataSplit(orders, side, clearingPrice, 0, executable), quantum, i)
  {
    seq(|orders|, i requires 0 <= i < |orders| =>
      ProRataShare(orders, ProRataSplit(orders, side, clearingPrice, 0, executable), quantum, i))
  }

  /** From `at`, eligible interest covers the aligned remainder. */
  ghost predicate Covered(orders: seq<AuctionOrder>, side: Side, clearingPrice: Price, at: nat, remaining: nat, quantum: nat) {
    && quantum >= 1 && IsMultiple(remaining, quantum)
    && at <= EligibleEnd(orders, side, clearingPrice, 0)
    && Cum(orders, at) + remaining <= Cum(orders, EligibleEnd(orders, side, clearingPrice, 0))
  }

  /** What the pro-rata walk needs: canonical aligned orders whose eligible total covers the
      aligned executable quantity. */
  ghost predicate ProRataReady(orders: seq<AuctionOrder>, side: Side, clearingPrice: Price, executable: nat, quantum: nat) {
    && quantum >= 1 && Aligned(orders, quantum) && InPriority(orders, side) && IsMultiple(executable, quantum)
    && executable <= EligibleQuantity(orders, side, clearingPrice) <= U128_MAX
  }

  lemma {:induction false} CumIsMultiple(orders: seq<AuctionOrder>, quantum: nat, n: nat)
    requires quantum >= 1 && Aligned(orders, quantum) && n <= |orders|
    ensures IsMultiple(Cum(orders, n), quantum)
  {
    if n == 0 {
      MultipleOf(0, quantum);
    } else {
      CumIsMultiple(orders, quantum, n - 1);
      MultiplesCombine(Cum(orders, n - 1), orders[n - 1].quantity, quantum);
    }
  }

  /** The tier at `at` is eligible and within the covered prefix; taking it whole keeps coverage. */
  lemma CoveredStep(orders: seq<AuctionOrder>, side: Side, clearingPrice: Price, at: nat, remaining: nat, quantum: nat)
    requires Covered(orders, side, clearingPrice, at, remaining, quantum) && Aligned(orders, quantum) && remaining > 0
    ensures at < |orders| && IsEligible(orders[at], side, clearingPrice)
    ensures var end := TierEnd(orders, orders[at], side, clearingPrice, at + 1);
            var total := Cum(orders, end) - Cum(orders, at);
            && total > 0 && end <= EligibleEnd(orders, side, clearingPrice, 0) && IsMultiple(total, quantum)
            && (remaining >= total ==> Covered(orders, side, clearingPrice, end, remaining - total, quantum))
  {
    var stop := EligibleEnd(orders, side, clearingPrice, 0);
    var end := TierEnd(orders, orders[at], side, clearingPrice, at + 1);
    CumMonotone(orders, at, end);
    CumIsMultiple(orders, quantum, at);
    CumIsMultiple(orders, quantum, end);
    MultiplesCombine(Cum(orders, end), Cum(orders, at), quantum);
    if remaining >= Cum(orders, end) - Cum(orders, at) {
      MultiplesCombine(remaining, Cum(orders, end) - Cum(orders, at), quantum);
    }
  }

  ghost predicate OneTier(orders: seq<AuctionOrder>, from: nat, to: nat)
    requires to <= |orders|
  {
    forall i, j :: from <= i < j < to ==> SameAllocationTier(orders[i], orders[j])
  }

  /** The split of a covered remainder accounts for every lot and stops inside one tier. */
  lemma {:induction false} SplitIsExact(orders: seq<AuctionOrder>, side: Side, clearingPrice: Price, at: nat, remaining: nat, quantum: nat)
    requires Covered(orders, side, clearingPrice, at, remaining, quantum) && Aligned(orders, quantum)
    ensures var s := ProRataSplit(orders, side, clearingPrice, at, remaining);
            && s.end <= EligibleEnd(orders, side, clearingPrice, 0)
            && Cum(orders, s.start) + s.remaining == Cum(orders, at) + remaining
            && OneTier(orders, s.start, s.end) && IsMultiple(s.remaining, quantum)
            && (if s.start == s.end then s.remaining == 0 else 0 < s.remaining < Cum(orders, s.end) - Cum(orders, s.start))
    decreases |orders| - at
  {
    if remaining > 0 {
      CoveredStep(orders, side, clearingPrice, at, remaining, quantum);
      var end := TierEnd(orders, orders[at], side, clearingPrice, at + 1);
      var total := Cum(orders, end) - Cum(orders, at);
      if remaining >= total {
        SplitIsExact(orders, side, clearingPrice, end, remaining - total, quantum);
      }
    }
  }

  lemma {:induction false} CumIsSum(orders: seq<AuctionOrder>, from: nat, to: nat)
    requires from <= to <= |orders|
    ensures Sum(Quantities(orders[from..to])) == Cum(orders, to) - Cum(orders, from)
  {
    if from < to {
      CumIsSum(orders, from, to - 1);
      assert orders[from..to] == orders[from..to - 1] + [orders[to - 1]];
      assert Quantities(orders[from..to]) == Quantities(orders[from..to - 1]) + [orders[to - 1].quantity];
      SumAppend(Quantities(orders[from..to - 1]), [orders[to - 1].quantity]);
    }
  }

  lemma ReadyIsCovered(orders: seq<AuctionOrder>, side: Side, clearingPrice: Price, executable: nat, quantum: nat)
    requires ProRataReady(orders, side, clearingPrice, executable, quantum)
    ensures Covered(orders, side, clearingPrice, 0, executable, quantum)
    ensures Cum(orders, EligibleEnd(orders, side, clearingPrice, 0)) <= U128_MAX
  {
    EligiblePrefixTotal(orders, side, clearingPrice, |orders|);
  }

  /** Pro-rata exactness. Orders before the marginal tier fill; each order of the marginal tier gets
      its floored proportional share in quanta or one quantum more; the extra quanta go to a prefix
      shorter than the tier; later orders get nothing; and the total is exact. */
  ghost predicate ProRataExact(shares: seq<nat>, orders: seq<AuctionOrder>, executable: nat, quantum: nat, s: Split)
    requires quantum >= 1
  {
    && |shares| == |orders| && s.start <= s.end <= |orders|
    && Sum(shares) == executable == Cum(orders, s.start) + s.remaining
    && OneTier(orders, s.start, s.end)
    && (forall i {:trigger shares[i]} :: 0 <= i < s.start ==> shares[i] == orders[i].quantity)
    && (forall i :: s.end <= i < |orders| ==> shares[i] == 0)
    && (s.start < s.end ==> MarginalExact(shares[s.start..s.end], orders[s.start..s.end], s.remaining, quantum))
  }

  lemma {:induction false} FullPrefixSum(shares: seq<nat>, orders: seq<AuctionOrder>, n: nat)
    requires n <= |orders| == |shares|
    requires forall i {:trigger shares[i]} :: 0 <= i < n ==> shares[i] == orders[i].quantity
    ensures Sum(shares[..n]) == Cum(orders, n)
  {
    if n > 0 {
      FullPrefixSum(shares, orders, n - 1);
      SumStep(shares, n - 1);
    }
  }

  /** Full orders, one marginal tier and zeros add up when the split does. */
  lemma SplitSum(shares: seq<nat>, orders: seq<AuctionOrder>, quantum: nat, s: Split)
    requires quantum >= 1 && Aligned(orders, quantum) && s.start <= s.end <= |orders| && |shares| == |orders|
    requires forall i {:trigger shares[i]} :: 0 <= i < |orders| ==> shares[i] == ProRataShare(orders, s, quantum, i)
    requires IsMultiple(s.remaining, quantum)
    requires if s.start == s.end then s.remaining == 0 else 0 < s.remaining < Cum(orders, s.end) - Cum(orders, s.start)
    ensures Sum(shares) == Cum(orders, s.start) + s.remaining
  {
    hide IsMultiple, MarginalShares, Sum, Cum;
    var tier := orders[s.start..s.end];
    FullPrefixSum(shares, orders, s.start);
    SumPrefix(shares, s.start);
    SumPrefix(shares[s.start..], s.end - s.start);
    assert shares[s.start..][..s.end - s.start] == MarginalShares(tier, s.remaining, quantum);
    SumZeros(shares[s.start..][s.end - s.start..]);
    if s.start < s.end {
      CumIsSum(orders, s.start, s.end);
      MarginalSharesAreExact(tier, s.remaining, quantum);
    } else {
      SumZeros(shares[s.start..][..0]);
    }
  }

  lemma SplitWithinLeaves(orders: seq<AuctionOrder>, quantum: nat, s: Split, i: nat)
    requires quantum >= 1 && Aligned(orders, quantum) && s.start <= s.end <= |orders| && i < |orders|
    requires IsMultiple(s.remaining, quantum)
    requires s.start < s.end ==> 0 < s.remaining < Cum(orders, s.end) - Cum(orders, s.start)
    ensures ProRataShare(orders, s, quantum, i) <= orders[i].quantity
  {
    hide IsMultiple, MarginalShares, Cum;
    if s.start <= i < s.end {
      CumIsSum(orders, s.start, s.end);
      MarginalSharesAreExact(orders[s.start..s.end], s.remaining, quantum);
    }
  }

  /** The marginal tier in full: floors in quanta, one more for a strict prefix. */
  ghost predicate MarginalExact(shares: seq<nat>, tier: seq<AuctionOrder>, remaining: nat, quantum: nat)
    requires quantum >= 1
  {
    var quanta := Quanta(tier, quantum);
    var total, share := Sum(quanta), Quotient(remaining, quantum);
    && |shares| == |tier|
    && 0 < share < total && share * quantum == remaining
    && total * quantum == Sum(Quantities(tier))
    && 0 <= Residual(quanta, share) < |tier|
    && forall i {:trigger shares[i]} :: 0 <= i < |tier| ==>
         shares[i] == (quanta[i] * share / total + if i < Residual(quanta, share) then 1 else 0) * quantum
  }

  lemma MarginalSharesAreFloors(tier: seq<AuctionOrder>, remaining: nat, quantum: nat)
    requires quantum >= 1 && Aligned(tier, quantum) && IsMultiple(remaining, quantum)
    requires 0 < remaining < Sum(Quantities(tier))
    ensures MarginalExact(MarginalShares(tier, remaining, quantum), tier, remaining, quantum)
  {
    MarginalSharesAreExact(tier, remaining, quantum);
    TierInQuanta(tier, quantum);
    AlignedQuotient(remaining, quantum);
    ResidualFitsTier(Quanta(tier, quantum), Quotient(remaining, quantum));
  }

  lemma ProRataIsExact(orders: seq<AuctionOrder>, side: Side, clearingPrice: Price, executable: nat, quantum: nat)
    requires ProRataReady(orders, side, clearingPrice, executable, quantum)
    ensures ProRataExact(ProRataShares(orders, side, clearingPrice, executable, quantum), orders, executable, quantum,
                         ProRataSplit(orders, side, clearingPrice, 0, executable))
  {
    hide IsMultiple, InPriority, MarginalShares, MarginalExact, Sum, Cum;
    ReadyIsCovered(orders, side, clearingPrice, executable, quantum);
    SplitIsExact(orders, side, clearingPrice, 0, executable, quantum);
    var s := ProRataSplit(orders, side, clearingPrice, 0, executable);
    var shares := ProRataShares(orders, side, clearingPrice, executable, quantum);
    SplitSum(shares, orders, quantum, s);
    CumStart(orders);
    if s.start < s.end {
      var tier := orders[s.start..s.end];
      CumIsSum(orders, s.start, s.end);
      MarginalSharesAreFloors(tier, s.remaining, quantum);
      assert shares[s.start..s.end] == MarginalShares(tier, s.remaining, quantum);
    }
  }

  lemma CumStart(orders: seq<AuctionOrder>)
    ensures Cum(orders, 0) == 0
  {
  }

  /** A pro-rata share is eligible, within leaves, and nothing precedes it short in another tier. */
  lemma ProRataShareFacts(orders: seq<AuctionOrder>, side: Side, clearingPrice: Price, quantum: nat, s: Split, i: nat, j: nat)
    requires quantum >= 1 && Aligned(orders, quantum) && s.start <= s.end <= |orders| && i <= j < |orders|
    requires IsMultiple(s.remaining, quantum) && OneTier(orders, s.start, s.end)
    requires s.start < s.end ==> 0 < s.remaining < Cum(orders, s.end) - Cum(orders, s.start)
    requires s.end <= EligibleEnd(orders, side, clearingPrice, 0)
    ensures ProRataShare(orders, s, quantum, j) <= orders[j].quantity
    ensures ProRataShare(orders, s, quantum, j) > 0 ==>
              && IsEligible(orders[j], side, clearingPrice)
              && (i < j && !SameAllocationTier(orders[i], orders[j]) ==> ProRataShare(orders, s, quantum, i) == orders[i].quantity)
  {
    hide IsMultiple, MarginalShares, Cum;
    SplitWithinLeaves(orders, quantum, s, j);
  }

  lemma ProRataIsAllocation(orders: seq<AuctionOrder>, side: Side, clearingPrice: Price, executable: nat, quantum: nat)
    requires ProRataReady(orders, side, clearingPrice, executable, quantum)
    ensures IsAllocation(ProRataShares(orders, side, clearingPrice, executable, quantum), orders, side, clearingPrice, executable)
  {
    hide IsMultiple, InPriority, ProRataShare, Sum;
    ReadyIsCovered(orders, side, clearingPrice, executable, quantum);
    SplitIsExact(orders, side, clearingPrice, 0, executable, quantum);
    var shares, s := ProRataShares(orders, side, clearingPrice, executable, quantum), ProRataSplit(orders, side, clearingPrice, 0, executable);
    SplitSum(shares, orders, quantum, s);
    CumStart(orders);
    forall i, j | 0 <= i <= j < |orders|
      ensures shares[j] <= orders[j].quantity
      ensures shares[j] > 0 ==>
                && IsEligible(orders[j], side, clearingPrice)
                && (i < j && !SameAllocationTier(orders[i], orders[j]) ==> shares[i] == orders[i].quantity)
    {
      ProRataShareFacts(orders, side, clearingPrice, quantum, s, i, j);
    }
    hide Cum, Aligned, IsEligible, SameAllocationTier, OneTier;
  }

  // ----- validation of one request

  ghost predicate LimitsOnGrid(orders: seq<AuctionOrder>, grid: AuctionPriceGrid)
    requires grid.Valid()
  {
    forall i :: 0 <= i < |orders| && orders[i].constraint.Limit? ==> grid.Contains(orders[i].constraint.price)
  }

  lemma PrecedesIsTransitive(a: AuctionOrder, b: AuctionOrder, c: AuctionOrder, side: Side)
    requires Precedes(a, b, side) && Precedes(b, c, side)
    ensures Precedes(a, c, side)
  {
  }

  lemma PriorityStep(orders: seq<AuctionOrder>, side: Side, index: nat)
    requires index < |orders| && InPriority(orders[..index], side)
    ensures InPriority(orders[..index + 1], side) <==> index == 0 || Precedes(orders[index - 1], orders[index], side)
  {
    hide Precedes;
    var before, after := orders[..index], orders[..index + 1];
    if InPriority(after, side) && index > 0 {
      assert Precedes(after[index - 1], after[index], side);
    }
    if index == 0 || Precedes(orders[index - 1], orders[index], side) {
      forall i, j | 0 <= i < j < |after|
        ensures Precedes(after[i], after[j], side)
      {
        if j < index {
          assert Precedes(before[i], before[j], side);
        } else if i < index - 1 {
          assert Precedes(before[i], before[index - 1], side);
          PrecedesIsTransitive(orders[i], orders[index - 1], orders[index], side);
        }
      }
    }
  }

  lemma NotInPriority(orders: seq<AuctionOrder>, side: Side, index: nat)
    requires 0 < index < |orders| && !Precedes(orders[index - 1], orders[index], side)
    ensures !InPriority(orders, side)
  {
  }

  lemma {:induction false} EligibleCumGrows(orders: seq<AuctionOrder>, side: Side, clearingPrice: Price, m: nat, n: nat)
    requires m <= n <= |orders|
    ensures EligibleCum(orders, side, clearingPrice, m) <= EligibleCum(orders, side, clearingPrice, n)
  {
    if m < n {
      EligibleCumGrows(orders, side, clearingPrice, m, n - 1);
    }
  }

  /** One side is fit for allocation at a price. */
  ghost predicate SideReady(orders: seq<AuctionOrder>, side: Side, grid: AuctionPriceGrid, clearingPrice: Price)
    requires grid.Valid()
  {
    && LimitsOnGrid(orders, grid) && InPriority(orders, side)
    && EligibleQuantity(orders, side, clearingPrice) <= U128_MAX
  }

  /** The error names the first order at which a side stops being fit. */
  ghost predicate IsOrderError(error: AuctionAllocationError, orders: seq<AuctionOrder>, side: Side, grid: AuctionPriceGrid,
                               clearingPrice: Price, n: nat)
    requires grid.Valid()
  {
    && n < |orders| && LimitsOnGrid(orders[..n], grid) && InPriority(orders[..n], side)
    && EligibleCum(orders, side, clearingPrice, n) <= U128_MAX
    && match error
       case LimitPriceOffGrid(s, i) =>
         s == side && i == n && orders[n].constraint.Limit? && !grid.Contains(orders[n].constraint.price)
       case NonCanonicalOrders(s, i) => s == side && i == n && n > 0 && !Precedes(orders[n - 1], orders[n], side)
       case QuantityOverflow(s) => s == side && EligibleCum(orders, side, clearingPrice, n + 1) > U128_MAX
       case _ => false
  }

  method ValidateAllocationOrders(orders: seq<AuctionOrder>, side: Side, grid: AuctionPriceGrid, clearingPrice: Price)
    returns (r: Result<u128, AuctionAllocationError>)
    requires grid.Valid()
    ensures r.Ok? <==> SideReady(orders, side, grid, clearingPrice)
    ensures r.Ok? ==> r.value == EligibleQuantity(orders, side, clearingPrice) && RunsInOrder(orders, side)
    ensures r.Err? ==> exists n :: IsOrderError(r.error, orders, side, grid, clearingPrice, n)
  {
    hide Precedes, IsEligible, RunsInOrder;
    var eligible: u128 := 0;
    var index: nat := 0;
    while index < |orders|
      invariant index <= |orders| && LimitsOnGrid(orders[..index], grid) && InPriority(orders[..index], side)
      invariant eligible == EligibleCum(orders, side, clearingPrice, index)
    {
      var order := orders[index];
      PriorityStep(orders, side, index);
      if order.constraint.Limit? && !grid.Contains(order.constraint.price) {
        assert IsOrderError(LimitPriceOffGrid(side, index), orders, side, grid, clearingPrice, index);
        return Err(LimitPriceOffGrid(side, index));
      }
      if index > 0 && !Precedes(orders[index - 1], order, side) {
        NotInPriority(orders, side, index);
        assert IsOrderError(NonCanonicalOrders(side, index), orders, side, grid, clearingPrice, index);
        return Err(NonCanonicalOrders(side, index));
      }
      if IsEligible(order, side, clearingPrice) {
        var sum := CheckedAddU128(eligible, order.quantity);
        if sum.None? {
          EligibleCumGrows(orders, side, clearingPrice, index + 1, |orders|);
          assert IsOrderError(QuantityOverflow(side), orders, side, grid, clearingPrice, index);
          return Err(QuantityOverflow(side));
        }
        eligible := sum.value;
      }
      index := index + 1;
    }
    assert orders[..|orders|] == orders;
    InPriorityMeans(orders, side);
    return Ok(eligible);
  }

  // ----- price-time fills

  /** Once the remainder is spent or interest ends, later price-time shares are zero. */
  lemma PriceTimeStops(orders: seq<AuctionOrder>, side: Side, clearingPrice: Price, executable: nat, at: nat, i: nat)
    requires at <= i < |orders| && at <= EligibleEnd(orders, side, clearingPrice, 0)
    requires executable <= Cum(orders, at) || !IsEligible(orders[at], side, clearingPrice)
    ensures PriceTimeShare(orders, side, clearingPrice, executable, i) == 0
  {
    CumMonotone(orders, at, i);
  }

  /** While something remains and the next order is eligible, it takes what it can. */
  lemma NextPriceTimeShare(orders: seq<AuctionOrder>, side: Side, clearingPrice: Price, executable: nat, at: nat)
    requires at < |orders| && at <= EligibleEnd(orders, side, clearingPrice, 0) && IsEligible(orders[at], side, clearingPrice)
    requires executable > Cum(orders, at)
    ensures at < EligibleEnd(orders, side, clearingPrice, 0)
    ensures PriceTimeShare(orders, side, clearingPrice, executable, at) == Min(executable - Cum(orders, at), orders[at].quantity) > 0
    ensures Cum(orders, at + 1) == Cum(orders, at) + orders[at].quantity
  {
  }

  method RequiredFillCount(orders: seq<AuctionOrder>, side: Side, clearingPrice: Price, executable: u128) returns (count: nat)
    ensures WithinLeaves(PriceTimeShares(orders, side, clearingPrice, executable), orders)
    ensures count == |FillsOf(orders, PriceTimeShares(orders, side, clearingPrice, executable), |orders|)|
  {
    hide IsEligible;
    ghost var shares := PriceTimeShares(orders, side, clearingPrice, executable);
    PriceTimeWithinLeaves(orders, side, clearingPrice, executable);
    var remaining: u128 := executable;
    count := 0;
    while count < |orders| && remaining != 0 && IsEligible(orders[count], side, clearingPrice)
      invariant count <= EligibleEnd(orders, side, clearingPrice, 0)
      invariant remaining == Max(0, executable - Cum(orders, count))
      invariant count == |FillsOf(orders, shares, count)|
    {
      NextPriceTimeShare(orders, side, clearingPrice, executable, count);
      remaining := if remaining >= orders[count].quantity then remaining - orders[count].quantity else 0;
      count := count + 1;
    }
    forall i | count <= i < |orders| ensures shares[i] == 0 {
      PriceTimeStops(orders, side, clearingPrice, executable, count, i);
    }
    FillsOfZeroTail(orders, shares, count, |orders|);
  }

  lemma PriceTimeWithinLeaves(orders: seq<AuctionOrder>, side: Side, clearingPrice: Price, executable: nat)
    ensures WithinLeaves(PriceTimeShares(orders, side, clearingPrice, executable), orders)
  {
  }

  /** Where the walk stops the fills are complete, and what remains is what the shares fall short of. */
  lemma PriceTimeEnds(orders: seq<AuctionOrder>, side: Side, clearingPrice: Price, executable: nat, at: nat, remaining: nat)
    requires at <= EligibleEnd(orders, side, clearingPrice, 0) && remaining == Max(0, executable - Cum(orders, at))
    requires at < |orders| && remaining != 0 ==> !IsEligible(orders[at], side, clearingPrice)
    ensures var shares := PriceTimeShares(orders, side, clearingPrice, executable);
            && WithinLeaves(shares, orders) && FillsOf(orders, shares, |orders|) == FillsOf(orders, shares, at)
            && (remaining == 0 <==> Sum(shares) == executable)
  {
    hide Cum, EligibleEnd, FillsOf, IsEligible, PriceTimeShare, PriceTimeShares, Sum, WithinLeaves;
    var shares := PriceTimeShares(orders, side, clearingPrice, executable);
    PriceTimeWithinLeaves(orders, side, clearingPrice, executable);
    forall i | at <= i < |orders| ensures shares[i] == 0 {
      PriceTimeStops(orders, side, clearingPrice, executable, at, i);
    }
    FillsOfZeroTail(orders, shares, at, |orders|);
    PriceTimePrefixSum(orders, side, clearingPrice, executable, |orders|);
    assert shares[..|orders|] == shares;
    CumMonotone(orders, at, EligibleEnd(orders, side, clearingPrice, 0));
  }

  method AppendFills(orders: seq<AuctionOrder>, side: Side, clearingPrice: Price, executable: u128, fills0: seq<AuctionOrderFill>)
    returns (r: Result<(), AuctionAllocationError>, fills: seq<AuctionOrderFill>)
    ensures WithinLeaves(PriceTimeShares(orders, side, clearingPrice, executable), orders)
    ensures fills == fills0 + FillsOf(orders, PriceTimeShares(orders, side, clearingPrice, executable), |orders|)
    ensures r == if Sum(PriceTimeShares(orders, side, clearingPrice, executable)) == executable then Ok(())
                 else Err(InsufficientEligibleQuantity(side))
  {
    hide IsEligible, Sum, PriceTimeShare;
    ghost var shares := PriceTimeShares(orders, side, clearingPrice, executable);
    PriceTimeWithinLeaves(orders, side, clearingPrice, executable);
    var remaining: u128 := executable;
    var index: nat := 0;
    fills := fills0;
    while index < |orders| && remaining != 0 && IsEligible(orders[index], side, clearingPrice)
      invariant index <= EligibleEnd(orders, side, clearingPrice, 0)
      invariant remaining == Max(0, executable - Cum(orders, index))
      invariant fills == fills0 + FillsOf(orders, shares, index)
    {
      NextPriceTimeShare(orders, side, clearingPrice, executable, index);
      var quantityLots: Quantity := Min(remaining, orders[index].quantity);
      fills := fills + [AuctionOrderFill(index, orders[index].orderId, quantityLots)];
      remaining := remaining - quantityLots;
      index := index + 1;
    }
    PriceTimeEnds(orders, side, clearingPrice, executable, index, remaining);
    if remaining != 0 {
      return Err(InsufficientEligibleQuantity(side)), fills;
    }
    return Ok(()), fills;
  }

  // ----- pro-rata fills

  method TierQuantity(orders: seq<AuctionOrder>, from: nat, to: nat) returns (r: Option<u128>)
    requires from <= to <= |orders|
    ensures r.Some? <==> Cum(orders, to) - Cum(orders, from) <= U128_MAX
    ensures r.Some? ==> r.value == Cum(orders, to) - Cum(orders, from)
  {
    var total: u128 := 0;
    var index := from;
    while index < to
      invariant from <= index <= to
      invariant total == Cum(orders, index) - Cum(orders, from)
    {
      CumMonotone(orders, index + 1, to);
      var sum := CheckedAddU128(total, orders[index].quantity);
      if sum.None? {
        return None;
      }
      total := sum.value;
      index := index + 1;
    }
    return Some(total);
  }

  /** The floored shares of one tier, summed with overflow checks. */
  method AllocatedQuanta(tier: seq<AuctionOrder>, side: Side, remainingQuanta: u128, tierQuanta: u128, quantum: u64)
    returns (r: Result<u128, AuctionAllocationError>)
    requires quantum >= 1
    ensures remainingQuanta < tierQuanta && Sum(BaseQuanta(Quanta(tier, quantum), remainingQuanta, tierQuanta)) <= U128_MAX ==>
              r == Ok(Sum(BaseQuanta(Quanta(tier, quantum), remainingQuanta, tierQuanta)))
  {
    var floors: u128 := 0;
    ghost var good := remainingQuanta < tierQuanta;
    ghost var base := if good then BaseQuanta(Quanta(tier, quantum), remainingQuanta, tierQuanta) else [];
    for index := 0 to |tier|
      invariant good ==> floors == Sum(base[..index])
    {
      var orderQuanta: u64 := QuotientU64(tier[index].quantity, quantum);
      var floor := ExactMulDivFloor(orderQuanta, remainingQuanta, tierQuanta);
      if floor.None? {
        return Err(FillQuantityOverflow(side));
      }
      if good {
        SumStep(base, index);
        SumPrefix(base, index + 1);
      }
      var sum := CheckedAddU128(floors, floor.value);
      if sum.None? {
        return Err(QuantityOverflow(side));
      }
      floors := sum.value;
    }
    assert good ==> base[..|tier|] == base;
    return Ok(floors);
  }

  function QuotientU64(x: u64, d: u64): (q: u64)
    requires d >= 1
    ensures q == Quotient(x, d)
  {
    QuotientShrinks(x, d);
    Quotient(x, d)
  }

  /** The first `n` shares have been counted and, when `emitting`, emitted. */
  ghost predicate Emitted(orders: seq<AuctionOrder>, shares: seq<nat>, n: nat, emitting: bool, fillCount: nat, fills: seq<AuctionOrderFill>) {
    && n <= |orders| && WithinLeaves(shares, orders)
    && fillCount == |FillsOf(orders, shares, n)|
    && fills == if emitting then FillsOf(orders, shares, n) else []
  }

  lemma EmitZeroTail(orders: seq<AuctionOrder>, shares: seq<nat>, n: nat, emitting: bool, fillCount: nat, fills: seq<AuctionOrderFill>)
    requires Emitted(orders, shares, n, emitting, fillCount, fills)
    requires forall i {:trigger shares[i]} :: n <= i < |orders| ==> shares[i] == 0
    ensures Emitted(orders, shares, |orders|, emitting, fillCount, fills)
  {
    FillsOfZeroTail(orders, shares, n, |orders|);
  }

  /** Counts one order and, when `emitting`, appends its fill; an order without a share is skipped. */
  method EmitOne(orders: seq<AuctionOrder>, index: nat, lots: u64, emitting: bool, fills0: seq<AuctionOrderFill>, fillCount0: nat,
                 ghost shares: seq<nat>)
    returns (fillCount: nat, fills: seq<AuctionOrderFill>)
    requires index < |orders| && fillCount0 <= index
    ensures fillCount <= index + 1
    ensures Emitted(orders, shares, index, emitting, fillCount0, fills0) && shares[index] == lots ==>
              Emitted(orders, shares, index + 1, emitting, fillCount, fills)
  {
    fillCount, fills := fillCount0, fills0;
    if lots != 0 {
      if emitting {
        fills := fills + [AuctionOrderFill(index, orders[index].orderId, lots)];
      }
      fillCount := fillCount + 1;
    }
  }

  /** Emits the marginal tier `[from, to)`; `residual` single quanta go to the first orders. */
  method MarginalFills(orders: seq<AuctionOrder>, side: Side, from: nat, to: nat, remainingQuanta: u128, tierQuanta: u128,
                       quantum: u64, residual0: u128, emitting: bool, fills0: seq<AuctionOrderFill>, fillCount0: nat,
                       ghost shares: seq<nat>)
    returns (r: Result<nat, AuctionAllocationError>, fills: seq<AuctionOrderFill>)
    requires from <= to <= |orders| <= U64_MAX && quantum >= 1 && fillCount0 <= from
    ensures MarginalPlan(orders, from, to, remainingQuanta, tierQuanta, quantum, residual0, shares)
            && Emitted(orders, shares, from, emitting, fillCount0, fills0) ==>
              r.Ok? && Emitted(orders, shares, to, emitting, r.value, fills)
  {
    ghost var good :=
      && MarginalPlan(orders, from, to, remainingQuanta, tierQuanta, quantum, residual0, shares)
      && Emitted(orders, shares, from, emitting, fillCount0, fills0);
    var residual := residual0;
    var fillCount: nat := fillCount0;
    fills := fills0;
    for index := from to to
      invariant fillCount <= index
      invariant good ==> residual == Max(0, residual0 - (index - from))
      invariant good ==> Emitted(orders, shares, index, emitting, fillCount, fills)
    {
      var orderQuanta: u64 := QuotientU64(orders[index].quantity, quantum);
      var floor := ExactMulDivFloor(orderQuanta, remainingQuanta, tierQuanta);
      if floor.None? {
        return Err(FillQuantityOverflow(side)), fills;
      }
      var fillQuanta: u64 := floor.value;
      if good {
        MarginalStep(orders, from, to, remainingQuanta, tierQuanta, quantum, residual0, shares, index);
      }
      if residual != 0 && fillQuanta < orderQuanta {
        fillQuanta := fillQuanta + 1;
        residual := residual - 1;
      }
      assert good ==> fillQuanta * quantum == shares[index] <= U64_MAX;
      if fillQuanta * quantum > U64_MAX {
        return Err(FillQuantityOverflow(side)), fills;
      }
      var quantityLots: u64 := Product(fillQuanta, quantum);
      fillCount, fills := EmitOne(orders, index, quantityLots, emitting, fills, fillCount, shares);
    }
    if residual != 0 {
      return Err(InsufficientEligibleQuantity(side)), fills;
    }
    return Ok(fillCount), fills;
  }

  /** The inputs of the marginal pass agree with the share vector. */
  ghost predicate MarginalPlan(orders: seq<AuctionOrder>, from: nat, to: nat, remainingQuanta: nat, tierQuanta: nat, quantum: nat,
                               residual: nat, shares: seq<nat>)
    requires from <= to <= |orders| && quantum >= 1
  {
    && remainingQuanta < tierQuanta && Aligned(orders, quantum) && residual <= to - from && |shares| == |orders|
    && forall i {:trigger shares[i]} :: from <= i < to ==>
         shares[i] == (Quotient(Quotient(orders[i].quantity, quantum) * remainingQuanta, tierQuanta)
                       + if i - from < residual then 1 else 0) * quantum
  }

  lemma MarginalStep(orders: seq<AuctionOrder>, from: nat, to: nat, remainingQuanta: nat, tierQuanta: nat, quantum: nat,
                     residual: nat, shares: seq<nat>, i: nat)
    requires from <= i < to <= |orders| && quantum >= 1
    requires MarginalPlan(orders, from, to, remainingQuanta, tierQuanta, quantum, residual, shares)
    ensures var quanta := Quotient(orders[i].quantity, quantum);
            && Quotient(quanta * remainingQuanta, tierQuanta) < quanta
            && shares[i] == (Quotient(quanta * remainingQuanta, tierQuanta) + if i - from < residual then 1 else 0) * quantum
    ensures shares[i] > 0 <==> Quotient(Quotient(orders[i].quantity, quantum) * remainingQuanta, tierQuanta)
                               + (if i - from < residual then 1 else 0) > 0
  {
    AlignedQuotient(orders[i].quantity, quantum);
    FloorIsShort(Quotient(orders[i].quantity, quantum), remainingQuanta, tierQuanta);
    ScaleIsMonotone(1, Quotient(Quotient(orders[i].quantity, quantum) * remainingQuanta, tierQuanta)
                       + (if i - from < residual then 1 else 0), quantum);
  }

  lemma ProRataWithinLeaves(orders: seq<AuctionOrder>, side: Side, clearingPrice: Price, executable: nat, quantum: nat)
    requires ProRataReady(orders, side, clearingPrice, executable, quantum)
    ensures WithinLeaves(ProRataShares(orders, side, clearingPrice, executable, quantum), orders)
  {
    hide ProRataReady, ProRataShare;
    ProRataIsAllocation(orders, side, clearingPrice, executable, quantum);
  }

  /** The walk has emitted every order before `at` in full and still owes `remaining`. */
  ghost predicate WalkAt(orders: seq<AuctionOrder>, side: Side, clearingPrice: Price, executable: nat, quantum: nat, at: nat, remaining: nat)
  {
    && ProRataReady(orders, side, clearingPrice, executable, quantum)
    && Covered(orders, side, clearingPrice, at, remaining, quantum)
    && ProRataSplit(orders, side, clearingPrice, 0, executable) == ProRataSplit(orders, side, clearingPrice, at, remaining)
  }

  /** What one tier of the walk knows: its extent, its total, and what its shares are. */
  lemma WalkTier(orders: seq<AuctionOrder>, side: Side, clearingPrice: Price, executable: nat, quantum: nat, at: nat, remaining: nat)
    requires WalkAt(orders, side, clearingPrice, executable, quantum, at, remaining) && remaining > 0
    ensures quantum >= 1 && at < |orders| && IsEligible(orders[at], side, clearingPrice)
    ensures var end := TierEnd(orders, orders[at], side, clearingPrice, at + 1);
            var total := Cum(orders, end) - Cum(orders, at);
            && 0 < total <= U128_MAX
            && (remaining < total ==> AtMarginalTier(orders, side, clearingPrice, executable, quantum, at, end, remaining))
            && (remaining >= total ==>
                  && WalkAt(orders, side, clearingPrice, executable, quantum, end, remaining - total)
                  && forall i {:trigger ProRataShares(orders, side, clearingPrice, executable, quantum)[i]} :: at <= i < end ==>
                       ProRataShares(orders, side, clearingPrice, executable, quantum)[i] == orders[i].quantity)
  {
    hide IsMultiple, InPriority;
    CoveredStep(orders, side, clearingPrice, at, remaining, quantum);
    ReadyIsCovered(orders, side, clearingPrice, executable, quantum);
    var end := TierEnd(orders, orders[at], side, clearingPrice, at + 1);
    CumMonotone(orders, end, EligibleEnd(orders, side, clearingPrice, 0));
    CumMonotone(orders, at, end);
  }

  /** The marginal tier's numbers: the quanta to share, the tier's quanta, and a residual that
      together produce exactly the specified shares. */
  ghost predicate MarginalReady(orders: seq<AuctionOrder>, from: nat, to: nat, remaining: nat, quantum: nat, shares: seq<nat>) {
    && quantum >= 1 && from < to <= |orders|
    && IsMultiple(remaining, quantum) && IsMultiple(Cum(orders, to) - Cum(orders, from), quantum)
    && Cum(orders, to) >= Cum(orders, from)
    && var quanta := Quanta(orders[from..to], quantum);
       var share, total := Quotient(remaining, quantum), Quotient(Cum(orders, to) - Cum(orders, from), quantum);
       && share < total
       && 0 <= share - Sum(BaseQuanta(quanta, share, total))
       && MarginalPlan(orders, from, to, share, total, quantum, share - Sum(BaseQuanta(quanta, share, total)), shares)
  }

  /** At the marginal tier the pass below emits exactly the specified shares. */
  lemma WalkMarginal(orders: seq<AuctionOrder>, side: Side, clearingPrice: Price, executable: nat, quantum: nat, at: nat, end: nat, remaining: nat)
    requires AtMarginalTier(orders, side, clearingPrice, executable, quantum, at, end, remaining)
    requires 0 < remaining < Cum(orders, end) - Cum(orders, at)
    ensures MarginalReady(orders, at, end, remaining, quantum, ProRataShares(orders, side, clearingPrice, executable, quantum))
    ensures forall i {:trigger ProRataShares(orders, side, clearingPrice, executable, quantum)[i]} :: end <= i < |orders| ==>
              ProRataShares(orders, side, clearingPrice, executable, quantum)[i] == 0
  {
    hide IsMultiple, InPriority, Sum, Cum, EligibleCum, MarginalReady, MarginalExact, MarginalShares;
    var tier := orders[at..end];
    CumIsSum(orders, at, end);
    MarginalSharesAreFloors(tier, remaining, quantum);
    var shares := ProRataShares(orders, side, clearingPrice, executable, quantum);
    assert shares[at..end] == MarginalShares(tier, remaining, quantum);
    ExactIsReady(orders, at, end, remaining, quantum, shares);
  }

  lemma ExactIsReady(orders: seq<AuctionOrder>, from: nat, to: nat, remaining: nat, quantum: nat, shares: seq<nat>)
    requires quantum >= 1 && from < to <= |orders| == |shares| && Aligned(orders, quantum)
    requires IsMultiple(remaining, quantum) && IsMultiple(Cum(orders, to) - Cum(orders, from), quantum)
    requires 0 < remaining < Cum(orders, to) - Cum(orders, from) == Sum(Quantities(orders[from..to]))
    requires MarginalExact(shares[from..to], orders[from..to], remaining, quantum)
    ensures MarginalReady(orders, from, to, remaining, quantum, shares)
  {
    hide IsMultiple, Sum, Cum;
    TierInQuanta(orders[from..to], quantum);
    assert forall i :: from <= i < to ==> shares[i] == shares[from..to][i - from];
  }

  method EmitFullTier(orders: seq<AuctionOrder>, from: nat, to: nat, emitting: bool, fills0: seq<AuctionOrderFill>, fillCount0: nat,
                      ghost shares: seq<nat>)
    returns (fillCount: nat, fills: seq<AuctionOrderFill>)
    requires from <= to <= |orders| && fillCount0 <= from
    ensures fillCount <= to
    ensures Emitted(orders, shares, from, emitting, fillCount0, fills0)
            && (forall i {:trigger shares[i]} :: from <= i < to ==> shares[i] == orders[i].quantity) ==>
              Emitted(orders, shares, to, emitting, fillCount, fills)
  {
    fillCount, fills := fillCount0, fills0;
    ghost var good :=
      && Emitted(orders, shares, from, emitting, fillCount0, fills0)
      && forall i {:trigger shares[i]} :: from <= i < to ==> shares[i] == orders[i].quantity;
    for index := from to to
      invariant fillCount <= index
      invariant good ==> Emitted(orders, shares, index, emitting, fillCount, fills)
    {
      assert good ==> shares[index] == orders[index].quantity;
      fillCount, fills := EmitOne(orders, index, orders[index].quantity, emitting, fills, fillCount, shares);
    }
  }

  ghost predicate AtMarginalTier(orders: seq<AuctionOrder>, side: Side, clearingPrice: Price, executable: nat, quantum: nat,
                                 from: nat, to: nat, remaining: nat)
  {
    && ProRataReady(orders, side, clearingPrice, executable, quantum) && from < to <= |orders|
    && ProRataSplit(orders, side, clearingPrice, 0, executable) == Split(from, to, remaining)
    && IsMultiple(remaining, quantum) && IsMultiple(Cum(orders, to) - Cum(orders, from), quantum)
  }

  /** The remaining and tier quanta of the marginal tier, and the quanta its floors leave over. */
  method MarginalQuantities(orders: seq<AuctionOrder>, side: Side, quantum: u64, from: nat, to: nat, remaining: u128, tierQuantity: u128,
                            ghost shares: seq<nat>)
    returns (r: Result<(u128, u128, u128), AuctionAllocationError>)
    requires quantum >= 1 && from < to <= |orders| && tierQuantity == Cum(orders, to) - Cum(orders, from)
    ensures MarginalReady(orders, from, to, remaining, quantum, shares) ==>
              r.Ok? && MarginalPlan(orders, from, to, r.value.0, r.value.1, quantum, r.value.2, shares)
  {
    hide Quotient, MarginalPlan, Sum, Cum;
    if !IsMultiple(remaining, quantum) || !IsMultiple(tierQuantity, quantum) {
      return Err(InsufficientEligibleQuantity(side));
    }
    QuotientShrinks(remaining, quantum);
    QuotientShrinks(tierQuantity, quantum);
    hide IsMultiple;
    var remainingQuanta: u128 := Quotient(remaining, quantum);
    var tierQuanta: u128 := Quotient(tierQuantity, quantum);
    var floors := AllocatedQuanta(orders[from..to], side, remainingQuanta, tierQuanta, quantum);
    if floors.Err? {
      return Err(floors.error);
    }
    if floors.value > remainingQuanta {
      return Err(QuantityOverflow(side));
    }
    return Ok((remainingQuanta, tierQuanta, remainingQuanta - floors.value));
  }

  /** The last tier of the walk: proportional floors, then the residual quanta. */
  method EmitMarginalTier(orders: seq<AuctionOrder>, side: Side, quantum: u64, from: nat, to: nat, remaining: u128, tierQuantity: u128,
                          emitting: bool, fills0: seq<AuctionOrderFill>, fillCount0: nat, ghost shares: seq<nat>)
    returns (r: Result<nat, AuctionAllocationError>, fills: seq<AuctionOrderFill>)
    requires |orders| <= U64_MAX && quantum >= 1 && from < to <= |orders| && fillCount0 <= from
    requires tierQuantity == Cum(orders, to) - Cum(orders, from)
    ensures MarginalReady(orders, from, to, remaining, quantum, shares) && Emitted(orders, shares, from, emitting, fillCount0, fills0) ==>
              r.Ok? && Emitted(orders, shares, to, emitting, r.value, fills)
  {
    hide *;
    var quantities := MarginalQuantities(orders, side, quantum, from, to, remaining, tierQuantity, shares);
    if quantities.Err? {
      return Err(quantities.error), fills0;
    }
    r, fills := MarginalFills(orders, side, from, to, quantities.value.0, quantities.value.1, quantum, quantities.value.2,
                              emitting, fills0, fillCount0, shares);
  }

  lemma QuotientShrinks(x: nat, d: nat)
    requires d >= 1
    ensures Quotient(x, d) <= x
  {
    QuotientBounds(x, d);
    ScaleIsMonotone(1, d, Quotient(x, d));
  }

  /** Walks the tiers once, counting and, when `emitting`, producing the fills. */
  method WalkProRataFills(orders: seq<AuctionOrder>, side: Side, clearingPrice: Price, executable: u128, quantum: u64, emitting: bool)
    returns (r: Result<nat, AuctionAllocationError>, fills: seq<AuctionOrderFill>)
    requires |orders| <= U64_MAX
    ensures quantum == 0 ==> r == Err(InvalidAllocationQuantum(0))
    ensures ProRataReady(orders, side, clearingPrice, executable, quantum) ==>
              r.Ok? && Emitted(orders, ProRataShares(orders, side, clearingPrice, executable, quantum), |orders|, emitting, r.value, fills)
  {
    fills := [];
    if quantum == 0 {
      return Err(InvalidAllocationQuantum(0)), fills;
    }
    ghost var ready := ProRataReady(orders, side, clearingPrice, executable, quantum);
    ghost var shares: seq<nat> := ProRataShares(orders, side, clearingPrice, executable, quantum);
    if ready {
      StartWalk(orders, side, clearingPrice, executable, quantum, emitting);
    }
    hide ProRataReady, WalkAt, Emitted, MarginalReady, AtMarginalTier, IsMultiple, ProRataSplit, IsEligible, SameAllocationTier, Cum, ProRataShare;
    var remaining: u128 := executable;
    var sourceIndex: nat := 0;
    var fillCount: nat := 0;
    while remaining != 0
      invariant sourceIndex <= |orders| && fillCount <= sourceIndex
      invariant ready ==> WalkAt(orders, side, clearingPrice, executable, quantum, sourceIndex, remaining)
      invariant ready ==> Emitted(orders, shares, sourceIndex, emitting, fillCount, fills)
      decreases |orders| - sourceIndex
    {
      if ready {
        WalkTier(orders, side, clearingPrice, executable, quantum, sourceIndex, remaining);
      }
      if sourceIndex == |orders| || !IsEligible(orders[sourceIndex], side, clearingPrice) {
        return Err(InsufficientEligibleQuantity(side)), fills;
      }
      var tierEnd := FindTierEnd(orders, side, clearingPrice, sourceIndex);
      CumMonotone(orders, sourceIndex, tierEnd);
      var tierQuantity := TierQuantity(orders, sourceIndex, tierEnd);
      if tierQuantity.None? {
        return Err(QuantityOverflow(side)), fills;
      }
      if remaining < tierQuantity.value {
        r, fills := EmitMarginalTier(orders, side, quantum, sourceIndex, tierEnd, remaining, tierQuantity.value, emitting,
                                     fills, fillCount, shares);
        if ready {
          WalkMarginal(orders, side, clearingPrice, executable, quantum, sourceIndex, tierEnd, remaining);
          EmitZeroTail(orders, shares, tierEnd, emitting, r.value, fills);
        }
        return;
      }
      fillCount, fills := EmitFullTier(orders, sourceIndex, tierEnd, emitting, fills, fillCount, shares);
      remaining := remaining - tierQuantity.value;
      sourceIndex := tierEnd;
    }
    if ready {
      WalkDone(orders, side, clearingPrice, executable, quantum, sourceIndex);
      EmitZeroTail(orders, shares, sourceIndex, emitting, fillCount, fills);
    }
    return Ok(fillCount), fills;
  }

  lemma StartWalk(orders: seq<AuctionOrder>, side: Side, clearingPrice: Price, executable: nat, quantum: nat, emitting: bool)
    requires ProRataReady(orders, side, clearingPrice, executable, quantum)
    ensures WalkAt(orders, side, clearingPrice, executable, quantum, 0, executable)
    ensures Emitted(orders, ProRataShares(orders, side, clearingPrice, executable, quantum), 0, emitting, 0, [])
  {
    ReadyIsCovered(orders, side, clearingPrice, executable, quantum);
    ProRataWithinLeaves(orders, side, clearingPrice, executable, quantum);
  }

  lemma WalkDone(orders: seq<AuctionOrder>, side: Side, clearingPrice: Price, executable: nat, quantum: nat, at: nat)
    requires quantum >= 1 && WalkAt(orders, side, clearingPrice, executable, quantum, at, 0)
    ensures forall i {:trigger ProRataShares(orders, side, clearingPrice, executable, quantum)[i]} :: at <= i < |orders| ==>
              ProRataShares(orders, side, clearingPrice, executable, quantum)[i] == 0
  {
  }

  method FindTierEnd(orders: seq<AuctionOrder>, side: Side, clearingPrice: Price, start: nat) returns (end: nat)
    requires start < |orders|
    ensures start < end <= |orders| && end == TierEnd(orders, orders[start], side, clearingPrice, start + 1)
  {
    end := start + 1;
    while end < |orders| && IsEligible(orders[end], side, clearingPrice) && SameAllocationTier(orders[start], orders[end])
      invariant start < end <= |orders|
      invariant TierEnd(orders, orders[start], side, clearingPrice, start + 1) == TierEnd(orders, orders[start], side, clearingPrice, end)
    {
      end := end + 1;
    }
  }

  // ----- one allocation request

  ghost function SharesFor(policy: AuctionAllocationPolicy, orders: seq<AuctionOrder>, side: Side, clearing: AuctionClearing, quantum: nat): (shares: seq<nat>)
    requires policy == ProRataTime ==> quantum >= 1
    ensures |shares| == |orders|
  {
    match policy
    case PriceTime => PriceTimeShares(orders, side, clearing.price, clearing.executableQuantity)
    case ProRataTime => ProRataShares(orders, side, clearing.price, clearing.executableQuantity, quantum)
  }

  ghost predicate RequestReady(bids: seq<AuctionOrder>, asks: seq<AuctionOrder>, grid: AuctionPriceGrid, clearing: AuctionClearing,
                               maxOrdersPerSide: nat)
    requires grid.Valid()
  {
    && 0 < maxOrdersPerSide && |bids| <= maxOrdersPerSide && |asks| <= maxOrdersPerSide
    && grid.Contains(clearing.price)
    && SideReady(bids, Buy, grid, clearing.price) && SideReady(asks, Sell, grid, clearing.price)
    && clearing.buyQuantity == EligibleQuantity(bids, Buy, clearing.price)
    && clearing.sellQuantity == EligibleQuantity(asks, Sell, clearing.price)
    && clearing.executableQuantity > 0
  }

  ghost predicate CanAllocate(bids: seq<AuctionOrder>, asks: seq<AuctionOrder>, grid: AuctionPriceGrid, clearing: AuctionClearing,
                              policy: AuctionAllocationPolicy, quantum: nat, maxOrdersPerSide: nat)
    requires grid.Valid()
  {
    && RequestReady(bids, asks, grid, clearing, maxOrdersPerSide)
    && (policy == ProRataTime ==> quantum >= 1 && Aligned(bids, quantum) && Aligned(asks, quantum))
  }

  lemma {:induction false} EligibleIsMultiple(orders: seq<AuctionOrder>, side: Side, clearingPrice: Price, quantum: nat, n: nat)
    requires quantum >= 1 && Aligned(orders, quantum) && n <= |orders|
    ensures IsMultiple(EligibleCum(orders, side, clearingPrice, n), quantum)
  {
    if n == 0 {
      MultipleOf(0, quantum);
    } else {
      EligibleIsMultiple(orders, side, clearingPrice, quantum, n - 1);
      MultiplesCombine(EligibleCum(orders, side, clearingPrice, n - 1), orders[n - 1].quantity, quantum);
    }
  }

  lemma MarginalSharesAligned(tier: seq<AuctionOrder>, remaining: nat, quantum: nat, i: nat)
    requires quantum >= 1 && i < |tier|
    ensures IsMultiple(MarginalShares(tier, remaining, quantum)[i], quantum)
  {
    var quanta := Quanta(tier, quantum);
    if Sum(quanta) == 0 {
      MultipleOf(0, quantum);
    } else {
      MultipleOf(MarginalQuanta(quanta, Quotient(remaining, quantum))[i], quantum);
    }
  }

  /** Under either policy every share is a whole number of allocation quanta, so leaves stay aligned. */
  lemma SharesAreAligned(policy: AuctionAllocationPolicy, orders: seq<AuctionOrder>, side: Side, clearing: AuctionClearing, quantum: nat, i: nat)
    requires quantum >= 1 && Aligned(orders, quantum) && IsMultiple(clearing.executableQuantity, quantum) && i < |orders|
    ensures IsMultiple(SharesFor(policy, orders, side, clearing, quantum)[i], quantum)
  {
    hide MarginalShares, IsMultiple, Cum;
    MultipleOf(0, quantum);
    match policy {
      case PriceTime =>
        CumIsMultiple(orders, quantum, i);
        MultiplesCombine(clearing.executableQuantity, Cum(orders, i), quantum);
      case ProRataTime =>
        var s := ProRataSplit(orders, side, clearing.price, 0, clearing.executableQuantity);
        if s.start <= i < s.end {
          MarginalSharesAligned(orders[s.start..s.end], s.remaining, quantum, i - s.start);
        }
    }
  }

  /** A request that validates can be allocated: its shares are an allocation on both sides. */
  lemma CanAllocateIsReady(bids: seq<AuctionOrder>, asks: seq<AuctionOrder>, grid: AuctionPriceGrid, clearing: AuctionClearing,
                           policy: AuctionAllocationPolicy, quantum: nat, maxOrdersPerSide: nat)
    requires grid.Valid() && WellFormed(clearing)
    requires CanAllocate(bids, asks, grid, clearing, policy, quantum, maxOrdersPerSide)
    ensures policy == ProRataTime ==>
              && ProRataReady(bids, Buy, clearing.price, clearing.executableQuantity, quantum)
              && ProRataReady(asks, Sell, clearing.price, clearing.executableQuantity, quantum)
    ensures IsAllocation(SharesFor(policy, bids, Buy, clearing, quantum), bids, Buy, clearing.price, clearing.executableQuantity)
    ensures IsAllocation(SharesFor(policy, asks, Sell, clearing, quantum), asks, Sell, clearing.price, clearing.executableQuantity)
    ensures policy == PriceTime ==>
              StrictPriority(SharesFor(policy, bids, Buy, clearing, quantum), bids) && StrictPriority(SharesFor(policy, asks, Sell, clearing, quantum), asks)
  {
    hide IsMultiple, Precedes, IsEligible, IsAllocation;
    match policy {
      case PriceTime =>
        PriceTimeIsAllocation(bids, Buy, clearing.price, clearing.executableQuantity);
        PriceTimeIsAllocation(asks, Sell, clearing.price, clearing.executableQuantity);
      case ProRataTime =>
        EligibleIsMultiple(bids, Buy, clearing.price, quantum, |bids|);
        EligibleIsMultiple(asks, Sell, clearing.price, quantum, |asks|);
        ProRataIsAllocation(bids, Buy, clearing.price, clearing.executableQuantity, quantum);
        ProRataIsAllocation(asks, Sell, clearing.price, clearing.executableQuantity, quantum);
    }
  }

  ghost predicate IsPlan(plan: AuctionAllocationPlan, bids: seq<AuctionOrder>, asks: seq<AuctionOrder>, clearing: AuctionClearing,
                         policy: AuctionAllocationPolicy, quantum: nat)
    requires policy == ProRataTime ==> quantum >= 1
  {
    var buys, sells := SharesFor(policy, bids, Buy, clearing, quantum), SharesFor(policy, asks, Sell, clearing, quantum);
    && WithinLeaves(buys, bids) && WithinLeaves(sells, asks)
    && plan == AuctionAllocationPlan(clearing, FillsOf(bids, buys, |bids|), FillsOf(asks, sells, |asks|))
  }

  /** Which request check failed, in the order the checks are made. */
  ghost predicate IsRequestError(error: AuctionAllocationError, bids: seq<AuctionOrder>, asks: seq<AuctionOrder>, grid: AuctionPriceGrid,
                                 clearing: AuctionClearing, maxOrdersPerSide: nat)
    requires grid.Valid()
  {
    var price := clearing.price;
    if maxOrdersPerSide == 0 then error == InvalidOrderLimit(0)
    else if |bids| > maxOrdersPerSide then error == OrderLimitExceeded(Buy, |bids|, maxOrdersPerSide)
    else if |asks| > maxOrdersPerSide then error == OrderLimitExceeded(Sell, |asks|, maxOrdersPerSide)
    else if !grid.Contains(price) then error == ClearingPriceOffGrid
    else if !SideReady(bids, Buy, grid, price) then exists n :: IsOrderError(error, bids, Buy, grid, price, n)
    else if !SideReady(asks, Sell, grid, price) then exists n :: IsOrderError(error, asks, Sell, grid, price, n)
    else
      var observedBuy, observedSell := EligibleQuantity(bids, Buy, price), EligibleQuantity(asks, Sell, price);
      if observedBuy != clearing.buyQuantity || observedSell != clearing.sellQuantity
      then error == ClearingQuantityMismatch(clearing.buyQuantity, observedBuy, clearing.sellQuantity, observedSell)
      else clearing.executableQuantity == 0 && error == ZeroExecutableQuantity
  }

  method ValidateAllocationRequest(bids: seq<AuctionOrder>, asks: seq<AuctionOrder>, grid: AuctionPriceGrid, clearing: AuctionClearing,
                                   maxOrdersPerSide: usize)
    returns (r: Result<(nat, nat), AuctionAllocationError>)
    requires grid.Valid()
    ensures r.Ok? <==> RequestReady(bids, asks, grid, clearing, maxOrdersPerSide)
    ensures r.Err? ==> IsRequestError(r.error, bids, asks, grid, clearing, maxOrdersPerSide)
    ensures r.Ok? ==>
              var buys := PriceTimeShares(bids, Buy, clearing.price, clearing.executableQuantity);
              var sells := PriceTimeShares(asks, Sell, clearing.price, clearing.executableQuantity);
              && WithinLeaves(buys, bids) && WithinLeaves(sells, asks)
              && r.value == (|FillsOf(bids, buys, |bids|)|, |FillsOf(asks, sells, |asks|)|)
  {
    hide SideReady, PriceTimeShare, Sum, EligibleQuantity;
    if maxOrdersPerSide == 0 {
      return Err(InvalidOrderLimit(0));
    }
    if |bids| > maxOrdersPerSide {
      return Err(OrderLimitExceeded(Buy, |bids|, maxOrdersPerSide));
    }
    if |asks| > maxOrdersPerSide {
      return Err(OrderLimitExceeded(Sell, |asks|, maxOrdersPerSide));
    }
    if !grid.Contains(clearing.price) {
      return Err(ClearingPriceOffGrid);
    }
    var observedBuy :- ValidateAllocationOrders(bids, Buy, grid, clearing.price);
    var observedSell :- ValidateAllocationOrders(asks, Sell, grid, clearing.price);
    if observedBuy != clearing.buyQuantity || observedSell != clearing.sellQuantity {
      return Err(ClearingQuantityMismatch(clearing.buyQuantity, observedBuy, clearing.sellQuantity, observedSell));
    }
    if clearing.executableQuantity == 0 {
      return Err(ZeroExecutableQuantity);
    }
    var buyCount := RequiredFillCount(bids, Buy, clearing.price, clearing.executableQuantity);
    var sellCount := RequiredFillCount(asks, Sell, clearing.price, clearing.executableQuantity);
    return Ok((buyCount, sellCount));
  }

  ghost predicate IsQuantumError(error: AuctionAllocationError, orders: seq<AuctionOrder>, side: Side, quantum: nat, i: nat)
    requires quantum >= 1
  {
    && i < |orders| && Aligned(orders[..i], quantum) && !IsMultiple(orders[i].quantity, quantum)
    && error == OrderQuantityOffAllocationGrid(side, i, orders[i].quantity, quantum)
  }

  method ValidateAllocationQuantum(orders: seq<AuctionOrder>, side: Side, quantum: u64) returns (r: Option<AuctionAllocationError>)
    ensures r.None? <==> quantum >= 1 && Aligned(orders, quantum)
    ensures r.Some? ==>
              || (quantum == 0 && r.value == InvalidAllocationQuantum(0))
              || (quantum >= 1 && exists i :: IsQuantumError(r.value, orders, side, quantum, i))
  {
    if quantum == 0 {
      return Some(InvalidAllocationQuantum(0));
    }
    for index := 0 to |orders|
      invariant Aligned(orders[..index], quantum)
    {
      if !IsMultiple(orders[index].quantity, quantum) {
        assert IsQuantumError(OrderQuantityOffAllocationGrid(side, index, orders[index].quantity, quantum), orders, side, quantum, index);
        return Some(OrderQuantityOffAllocationGrid(side, index, orders[index].quantity, quantum));
      }
    }
    assert orders[..|orders|] == orders;
    return None;
  }

  /** The fill counts a request will need. */
  method ValidatePolicyAllocationRequest(bids: seq<AuctionOrder>, asks: seq<AuctionOrder>, grid: AuctionPriceGrid, clearing: AuctionClearing,
                                         policy: AuctionAllocationPolicy, quantum: u64, maxOrdersPerSide: usize)
    returns (r: Result<(nat, nat), AuctionAllocationError>)
    requires grid.Valid() && WellFormed(clearing)
    ensures r.Ok? <==> CanAllocate(bids, asks, grid, clearing, policy, quantum, maxOrdersPerSide)
    ensures r.Ok? ==>
              var buys, sells := SharesFor(policy, bids, Buy, clearing, quantum), SharesFor(policy, asks, Sell, clearing, quantum);
              && WithinLeaves(buys, bids) && WithinLeaves(sells, asks)
              && r.value == (|FillsOf(bids, buys, |bids|)|, |FillsOf(asks, sells, |asks|)|)
    ensures r.Err? && !RequestReady(bids, asks, grid, clearing, maxOrdersPerSide) ==>
              IsRequestError(r.error, bids, asks, grid, clearing, maxOrdersPerSide)
  {
    hide RequestReady, IsRequestError, Aligned, ProRataReady, IsAllocation, FillsOf, PriceTimeShare, ProRataShare;
    var counts :- ValidateAllocationRequest(bids, asks, grid, clearing, maxOrdersPerSide);
    if policy == PriceTime {
      return Ok(counts);
    }
    var bidError := ValidateAllocationQuantum(bids, Buy, quantum);
    if bidError.Some? {
      return Err(bidError.value);
    }
    var askError := ValidateAllocationQuantum(asks, Sell, quantum);
    if askError.Some? {
      return Err(askError.value);
    }
    CanAllocateIsReady(bids, asks, grid, clearing, policy, quantum, maxOrdersPerSide);
    RequestFits(bids, asks, grid, clearing, maxOrdersPerSide);
    var buyCount, _ := WalkProRataFills(bids, Buy, clearing.price, clearing.executableQuantity, quantum, false);
    var sellCount, _ := WalkProRataFills(asks, Sell, clearing.price, clearing.executableQuantity, quantum, false);
    return Ok((buyCount.value, sellCount.value));
  }

  lemma RequestFits(bids: seq<AuctionOrder>, asks: seq<AuctionOrder>, grid: AuctionPriceGrid, clearing: AuctionClearing, maxOrdersPerSide: usize)
    requires grid.Valid() && RequestReady(bids, asks, grid, clearing, maxOrdersPerSide)
    ensures |bids| <= U64_MAX && |asks| <= U64_MAX
  {
  }

  method AppendPolicyFills(orders: seq<AuctionOrder>, side: Side, clearing: AuctionClearing, policy: AuctionAllocationPolicy, quantum: u64)
    returns (r: Result<(), AuctionAllocationError>, fills: seq<AuctionOrderFill>)
    requires (policy == ProRataTime ==> quantum >= 1) && |orders| <= U64_MAX
    ensures (policy == ProRataTime ==> ProRataReady(orders, side, clearing.price, clearing.executableQuantity, quantum))
            && IsAllocation(SharesFor(policy, orders, side, clearing, quantum), orders, side, clearing.price, clearing.executableQuantity) ==>
              && r.Ok? && WithinLeaves(SharesFor(policy, orders, side, clearing, quantum), orders)
              && fills == FillsOf(orders, SharesFor(policy, orders, side, clearing, quantum), |orders|)
  {
    hide ProRataReady, FillsOf, PriceTimeShare, ProRataShare, Sum;
    match policy {
      case PriceTime =>
        r, fills := AppendFills(orders, side, clearing.price, clearing.executableQuantity, []);
      case ProRataTime =>
        var count;
        count, fills := WalkProRataFills(orders, side, clearing.price, clearing.executableQuantity, quantum, true);
        r := if count.Ok? then Ok(()) else Err(count.error);
    }
  }

  lemma RequestRuns(bids: seq<AuctionOrder>, asks: seq<AuctionOrder>, grid: AuctionPriceGrid, clearing: AuctionClearing, maxOrdersPerSide: nat)
    requires grid.Valid()
    ensures RequestReady(bids, asks, grid, clearing, maxOrdersPerSide) ==> RunsInOrder(bids, Buy) && RunsInOrder(asks, Sell)
  {
    InPriorityMeans(bids, Buy);
    InPriorityMeans(asks, Sell);
    hide RunsInOrder, InPriority, LimitsOnGrid, EligibleQuantity;
  }

  /** Allocates one clearing result to both sides, or names the check that failed. */
  method AllocateClearing(bids: seq<AuctionOrder>, asks: seq<AuctionOrder>, grid: AuctionPriceGrid, clearing: AuctionClearing,
                          policy: AuctionAllocationPolicy, quantum: u64, maxOrdersPerSide: usize)
    returns (r: Result<AuctionAllocationPlan, AuctionAllocationError>)
    requires grid.Valid() && WellFormed(clearing)
    ensures r.Ok? <==> CanAllocate(bids, asks, grid, clearing, policy, quantum, maxOrdersPerSide)
    ensures r.Ok? ==> IsPlan(r.value, bids, asks, clearing, policy, quantum) && RunsInOrder(bids, Buy) && RunsInOrder(asks, Sell)
    ensures r.Err? && !RequestReady(bids, asks, grid, clearing, maxOrdersPerSide) ==>
              IsRequestError(r.error, bids, asks, grid, clearing, maxOrdersPerSide)
  {
    hide RequestReady, IsRequestError, Aligned, ProRataReady, IsAllocation, FillsOf, SharesFor, RunsInOrder;
    RequestRuns(bids, asks, grid, clearing, maxOrdersPerSide);
    var counts :- ValidatePolicyAllocationRequest(bids, asks, grid, clearing, policy, quantum, maxOrdersPerSide);
    CanAllocateIsReady(bids, asks, grid, clearing, policy, quantum, maxOrdersPerSide);
    RequestFits(bids, asks, grid, clearing, maxOrdersPerSide);
    var buyResult, buyFills := AppendPolicyFills(bids, Buy, clearing, policy, quantum);
    var sellResult, sellFills := AppendPolicyFills(asks, Sell, clearing, policy, quantum);
    return Ok(AuctionAllocationPlan(clearing, buyFills, sellFills));
  }
}
