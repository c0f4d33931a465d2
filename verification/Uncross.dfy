/** What one uncross does to a book: allocation, trades, remainder treatment and the book that
    is left, with the laws that tie them together. */
module Uncross {
  import opened Allocation
  import opened Arithmetic
  import opened AbstractBook
  import opened Clearing
  import opened Domain
  import opened BookInterest
  import opened Pairing
  import opened Sums

  datatype CallAuctionRemainderPolicy = RetainAll | CancelMarket | CancelAll {
    predicate Cancels(constraint: AuctionOrderConstraint) {
      match this
      case RetainAll => false
      case CancelMarket => constraint == AuctionOrderConstraint.Market
      case CancelAll => true
    }
  }

  datatype CallAuctionSelfTradePolicy = Permit | Abort

  datatype CallAuctionUncrossPolicy = CallAuctionUncrossPolicy(
    allocation: AuctionAllocationPolicy, remainder: CallAuctionRemainderPolicy, selfTrade: CallAuctionSelfTradePolicy)

  datatype CallAuctionTrade = CallAuctionTrade(
    tradeId: TradeId, instrumentId: Id, instrumentVersion: Id,
    buyOrderId: OrderId, buyAccountId: AccountId, sellOrderId: OrderId, sellAccountId: AccountId,
    price: Price, quantity: Quantity)

  datatype CallAuctionCancellation = CallAuctionCancellation(
    orderId: OrderId, accountId: AccountId, side: Side, constraint: AuctionOrderConstraint,
    quantity: Quantity, executedQuantityLots: u64)

  // ----- the kernel of the uncross argument

  /** An order left short in an allocation is deeper than everything that traded: at any price it
      accepts, more than the executable quantity is eligible. */
  lemma ResidueMeansDepth(shares: seq<nat>, orders: seq<AuctionOrder>, side: Side, clearingPrice: Price, executable: nat, j: nat, price: Price)
    requires IsAllocation(shares, orders, side, clearingPrice, executable) && InPriority(orders, side)
    requires j < |orders| && shares[j] < orders[j].quantity && IsEligible(orders[j], side, price)
    ensures executable < EligibleQuantity(orders, side, price)
  {
    hide Sum, Precedes;
    forall i | 0 <= i < |orders| && shares[i] > 0 ensures IsEligible(orders[i], side, price) {
      if i < j {
        EligibilityIsPrefix(orders[i], orders[j], side, price);
      } else if i > j {
        assert SameAllocationTier(orders[j], orders[i]);
      }
    }
    SharesWithinEligible(shares, orders, side, price, j, |orders|);
    assert shares[..|orders|] == shares;
  }

  /** Shares of eligible orders sum to no more than eligible leaves, and to less once `j` is short. */
  lemma {:induction false} SharesWithinEligible(shares: seq<nat>, orders: seq<AuctionOrder>, side: Side, price: Price, j: nat, n: nat)
    requires n <= |orders| == |shares|
    requires forall i {:trigger shares[i]} :: 0 <= i < |orders| ==> shares[i] <= orders[i].quantity
    requires forall i {:trigger shares[i]} :: 0 <= i < |orders| && shares[i] > 0 ==> IsEligible(orders[i], side, price)
    requires j < |orders| && shares[j] < orders[j].quantity && IsEligible(orders[j], side, price)
    ensures Sum(shares[..n]) + (if j < n then 1 else 0) <= EligibleCum(orders, side, price, n)
  {
    hide IsEligible;
    if n > 0 {
      SharesWithinEligible(shares, orders, side, price, j, n - 1);
      SumStep(shares, n - 1);
    }
  }

  // ----- allocation of a book

  ghost function Grid(m: BookModel): AuctionPriceGrid {
    AuctionPriceGrid(m.definition.tickSize)
  }

  /** `c` is the exact state of this book at an aligned price where it crosses. */
  ghost predicate ClearsAt(m: BookModel, c: AuctionClearing) {
    && m.Valid() && Fits(m.active) && Grid(m).Contains(c.price)
    && c == BookState(m.active, c.price) && c.executableQuantity > 0
  }

  lemma ClearingFacts(m: BookModel, c: AuctionClearing)
    requires ClearsAt(m, c)
    ensures m.Valid() && m.definition.Valid() && Fits(m.active) && Keyed(m.active) && c.executableQuantity > 0 && m.nextTradeId >= 1
  {
    InterestFits(m);
  }

  ghost function SideShares(m: BookModel, side: Side, c: AuctionClearing, allocation: AuctionAllocationPolicy): (shares: seq<nat>)
    requires m.definition.Valid()
    ensures |shares| == |SideOrders(m.active, side)|
  {
    SharesFor(allocation, SideOrders(m.active, side), side, c, m.definition.incrementLots)
  }

  lemma SideIsListed(m: BookModel, side: Side)
    requires m.Valid()
    ensures Keyed(m.active) && Lists(SideOrders(m.active, side), m.active, SideIds(m.active, side), side)
  {
    InterestFits(m);
    ListOfLists(m.active, SideIds(m.active, side), side);
  }

  lemma OrderIsReady(m: BookModel, id: OrderId)
    requires m.Valid() && id in m.active
    ensures IsMultiple(m.active[id].quantity, m.definition.incrementLots)
    ensures m.active[id].constraint.Limit? ==> Grid(m).Contains(m.active[id].constraint.price)
  {
    assert m.OrderOk(id);
  }

  lemma SideIsAligned(m: BookModel, side: Side)
    requires m.Valid()
    ensures m.definition.Valid()
    ensures Aligned(SideOrders(m.active, side), m.definition.incrementLots) && LimitsOnGrid(SideOrders(m.active, side), Grid(m))
  {
    SideIsListed(m, side);
    var orders := SideOrders(m.active, side);
    hide BookModel.Valid, SideOrders, InPriority, Ids, IsMultiple, Keyed;
    forall i | 0 <= i < |orders|
      ensures IsMultiple(orders[i].quantity, m.definition.incrementLots)
      ensures orders[i].constraint.Limit? ==> Grid(m).Contains(orders[i].constraint.price)
    {
      OrderIsReady(m, orders[i].orderId);
    }
  }

  lemma SideIsReady(m: BookModel, side: Side, c: AuctionClearing)
    requires ClearsAt(m, c)
    ensures SideReady(SideOrders(m.active, side), side, Grid(m), c.price)
    ensures EligibleQuantity(SideOrders(m.active, side), side, c.price) == Interest(m.active, side, c.price)
    ensures Aligned(SideOrders(m.active, side), m.definition.incrementLots)
  {
    ClearingFacts(m, c);
    hide BookModel.Valid, SideOrders, EligibleQuantity, BookInterest.Interest, BookState, InPriority, Ids, Aligned, LimitsOnGrid, Keyed;
    SideIsAligned(m, side);
    SideIsListed(m, side);
    ListInterest(SideOrders(m.active, side), m.active, side, c.price);
  }

  lemma {:induction false} ListIsSmall(orders: seq<AuctionOrder>, active: Active, ids: set<OrderId>, side: Side)
    requires Lists(orders, active, ids, side)
    ensures |orders| == |ids|
    decreases |orders|
  {
    if orders == [] {
      assert ids == {};
    } else {
      TailLists(orders, active, ids, side);
      ListIsSmall(orders[1..], active, ids - {orders[0].orderId}, side);
    }
  }

  lemma SideFitsLimit(m: BookModel, side: Side)
    requires m.Valid()
    ensures |SideOrders(m.active, side)| == |SideIds(m.active, side)| <= |m.active| <= m.limits.maxActiveOrders
  {
    SideIsListed(m, side);
    ListIsSmall(SideOrders(m.active, side), m.active, SideIds(m.active, side), side);
    SubsetSize(SideIds(m.active, side), m.active.Keys);
    assert |m.active| == |m.active.Keys|;
  }

  /** A book that clears can always be allocated: no allocation check can fail. */
  lemma BookAllocates(m: BookModel, c: AuctionClearing, allocation: AuctionAllocationPolicy)
    requires ClearsAt(m, c)
    ensures m.definition.Valid()
    ensures CanAllocate(SideOrders(m.active, Buy), SideOrders(m.active, Sell), Grid(m), c, allocation, m.definition.incrementLots, m.limits.maxActiveOrders)
    ensures forall side :: IsAllocation(SideShares(m, side, c, allocation), SideOrders(m.active, side), side, c.price, c.executableQuantity)
    ensures allocation == PriceTime ==> forall side :: StrictPriority(SideShares(m, side, c, allocation), SideOrders(m.active, side))
  {
    hide SideReady, EligibleQuantity, SideOrders, IsAllocation, SharesFor, Aligned;
    SideIsReady(m, Buy, c);
    SideIsReady(m, Sell, c);
    SideFitsLimit(m, Buy);
    SideFitsLimit(m, Sell);
    CanAllocateIsReady(SideOrders(m.active, Buy), SideOrders(m.active, Sell), Grid(m), c, allocation, m.definition.incrementLots, m.limits.maxActiveOrders);
    forall side
      ensures IsAllocation(SideShares(m, side, c, allocation), SideOrders(m.active, side), side, c.price, c.executableQuantity)
      ensures allocation == PriceTime ==> StrictPriority(SideShares(m, side, c, allocation), SideOrders(m.active, side))
    {
      if side == Buy {} else {}
    }
  }

  lemma AllocationIsWithinLeaves(shares: seq<nat>, orders: seq<AuctionOrder>, side: Side, clearingPrice: Price, executable: nat)
    requires IsAllocation(shares, orders, side, clearingPrice, executable)
    ensures WithinLeaves(shares, orders)
  {
  }

  ghost function SideFills(m: BookModel, side: Side, c: AuctionClearing, allocation: AuctionAllocationPolicy): Fills
    requires ClearsAt(m, c)
  {
    BookAllocates(m, c, allocation);
    AllocationIsWithinLeaves(SideShares(m, side, c, allocation), SideOrders(m.active, side), side, c.price, c.executableQuantity);
    FillsOf(SideOrders(m.active, side), SideShares(m, side, c, allocation), |SideOrders(m.active, side)|)
  }

  /** Lots an uncross executes for one active order. */
  ghost function Executed(m: BookModel, c: AuctionClearing, allocation: AuctionAllocationPolicy, id: OrderId): nat
    requires ClearsAt(m, c) && id in m.active
  {
    Filled(SideFills(m, m.active[id].side, c, allocation), id)
  }

  lemma {:induction false} FilledAppend(fills: Fills, last: AuctionOrderFill, i: nat, id: OrderId)
    requires i <= |fills|
    ensures FilledFrom(fills + [last], i, id) == FilledFrom(fills, i, id) + if last.orderId == id then last.quantityLots else 0
    ensures LotsFrom(fills + [last], i) == LotsFrom(fills, i) + last.quantityLots
    decreases |fills| - i
  {
    if i < |fills| {
      FilledAppend(fills, last, i + 1, id);
    }
  }

  lemma {:induction false} FillsOfFilled(orders: seq<AuctionOrder>, shares: seq<nat>, n: nat, i: nat)
    requires n <= |orders| && i < |orders| && WithinLeaves(shares, orders)
    requires forall a, b :: 0 <= a < b < |orders| ==> orders[a].orderId != orders[b].orderId
    ensures Filled(FillsOf(orders, shares, n), orders[i].orderId) == if i < n then shares[i] else 0
    ensures LotsFrom(FillsOf(orders, shares, n), 0) == Sum(shares[..n])
  {
    if n > 0 {
      FillsOfFilled(orders, shares, n - 1, i);
      SumStep(shares, n - 1);
      if shares[n - 1] > 0 {
        FilledAppend(FillsOf(orders, shares, n - 1), AuctionOrderFill(n - 1, orders[n - 1].orderId, shares[n - 1]), 0, orders[i].orderId);
      } else {
        assert FillsOf(orders, shares, n - 1) + [] == FillsOf(orders, shares, n - 1);
      }
      assert orders[n - 1].orderId == orders[i].orderId <==> i == n - 1;
    } else {
      assert shares[..0] == [];
    }
  }

  /** The position of an order in its side's list. */
  ghost function Position(m: BookModel, id: OrderId): (i: nat)
    requires m.Valid() && id in m.active
    ensures i < |SideOrders(m.active, m.active[id].side)| && SideOrders(m.active, m.active[id].side)[i] == AsAuctionOrder(m.active[id])
  {
    SideIsListed(m, m.active[id].side);
    assert id in Ids(SideOrders(m.active, m.active[id].side));
    var i: nat :| i < |SideOrders(m.active, m.active[id].side)| && SideOrders(m.active, m.active[id].side)[i].orderId == id;
    i
  }

  /** An order executes its share: within leaves, and only at a price it accepts. */
  lemma ExecutedIsShare(m: BookModel, c: AuctionClearing, allocation: AuctionAllocationPolicy, id: OrderId)
    requires ClearsAt(m, c) && id in m.active
    ensures m.definition.Valid()
    ensures Executed(m, c, allocation, id) == SideShares(m, m.active[id].side, c, allocation)[Position(m, id)] <= m.active[id].quantity
    ensures Executed(m, c, allocation, id) > 0 ==> IsEligible(AsAuctionOrder(m.active[id]), m.active[id].side, c.price)
  {
    var side := m.active[id].side;
    var orders, shares, at := SideOrders(m.active, side), SideShares(m, side, c, allocation), Position(m, id);
    SideIsListed(m, side);
    ListsAreDistinct(orders, m.active, SideIds(m.active, side), side);
    BookAllocates(m, c, allocation);
    hide SideOrders, SideShares, Lists, Sum, IsEligible, SameAllocationTier;
    AllocationIsWithinLeaves(shares, orders, side, c.price, c.executableQuantity);
    FillsOfFilled(orders, shares, |orders|, at);
    assert orders[at].orderId == id by { assert m.OrderOk(id); }
    assert shares[at] <= orders[at].quantity;
  }

  // ----- preparation

  datatype PreparedCallAuctionUncross = PreparedCallAuctionUncross(
    bookInstanceId: nat, stateRevision: u64, nextStateRevision: u64, nextTradeId: u64, policy: CallAuctionUncrossPolicy,
    plan: AuctionAllocationPlan, trades: seq<CallAuctionTrade>, cancellations: seq<CallAuctionCancellation>)

  /** A clearing state bound to one book instance and revision. */
  datatype CallAuctionIndicative = CallAuctionIndicative(bookInstanceId: nat, stateRevision: u64, clearing: AuctionClearing)

  datatype CallAuctionCommitError =
    | ForeignPreparation
    | StalePreparation(observed: u64, current: u64)
    | CommitInvariantViolation

  datatype CallAuctionPlanError =
    | ForeignBook
    | StaleRevision(observed: u64, current: u64)
    | AllocationFailed(error: AuctionAllocationError)

  datatype CallAuctionPrepareError =
    | PlanFailed(plan: CallAuctionPlanError)
    | TradeIdentifierExhausted
    | PrepareRevisionExhausted
    | PreparationCapacityExhausted(maximum: usize)
    | SelfTradeWouldOccur(accountId: AccountId, buyOrderId: OrderId, sellOrderId: OrderId, quantity: Quantity)
    | PrepareInvariantViolation

  /** Every fill names an active order of its side. */
  ghost predicate ActiveFills(active: Active, fills: Fills, side: Side) {
    forall k {:trigger fills[k]} :: 0 <= k < |fills| ==> fills[k].orderId in active && active[fills[k].orderId].side == side
  }

  ghost function TradeOf(definition: InstrumentDefinition, active: Active, price: Price, buys: Fills, sells: Fills, pair: Pair, id: TradeId): CallAuctionTrade
    requires pair.buy < |buys| && pair.sell < |sells|
    requires buys[pair.buy].orderId in active && sells[pair.sell].orderId in active
  {
    var buyOrderId, sellOrderId := buys[pair.buy].orderId, sells[pair.sell].orderId;
    CallAuctionTrade(id, definition.instrumentId, definition.version, buyOrderId, active[buyOrderId].accountId,
                     sellOrderId, active[sellOrderId].accountId, price, pair.lots)
  }

  /** The trades of successive pairs, identified from `firstId` on. */
  ghost function TradesOf(definition: InstrumentDefinition, active: Active, price: Price, buys: Fills, sells: Fills, pairs: seq<Pair>, firstId: nat): seq<CallAuctionTrade>
    requires WellPaired(pairs, buys, sells) && ActiveFills(active, buys, Buy) && ActiveFills(active, sells, Sell)
    requires 1 <= firstId && firstId + |pairs| <= U64_MAX
  {
    if pairs == [] then [] else
    [TradeOf(definition, active, price, buys, sells, pairs[0], firstId)] +
    TradesOf(definition, active, price, buys, sells, pairs[1..], firstId + 1)
  }

  ghost predicate SameAccount(active: Active, buys: Fills, sells: Fills, pair: Pair)
    requires pair.buy < |buys| && pair.sell < |sells|
    requires buys[pair.buy].orderId in active && sells[pair.sell].orderId in active
  {
    active[buys[pair.buy].orderId].accountId == active[sells[pair.sell].orderId].accountId
  }

  /** The first pair, in pairing order, whose two accounts are the same. */
  ghost function FirstSelfPair(active: Active, buys: Fills, sells: Fills, pairs: seq<Pair>): Option<Pair>
    requires WellPaired(pairs, buys, sells) && ActiveFills(active, buys, Buy) && ActiveFills(active, sells, Sell)
  {
    if pairs == [] then None
    else if SameAccount(active, buys, sells, pairs[0]) then Some(pairs[0])
    else FirstSelfPair(active, buys, sells, pairs[1..])
  }

  /** Cancellations of the positive remainders of the first `n` orders that the policy cancels. */
  ghost function Remainders(active: Active, orders: seq<AuctionOrder>, shares: seq<nat>, policy: CallAuctionRemainderPolicy, n: nat)
    : (r: seq<CallAuctionCancellation>)
    requires n <= |orders| && WithinLeaves(shares, orders) && RestingOrders(active, orders)
    ensures |r| <= n
  {
    if n == 0 then [] else
    Remainders(active, orders, shares, policy, n - 1) +
    if shares[n - 1] < orders[n - 1].quantity && policy.Cancels(orders[n - 1].constraint)
    then [RemainderOf(active[orders[n - 1].orderId], shares[n - 1])] else []
  }

  ghost predicate RestingOrders(active: Active, orders: seq<AuctionOrder>) {
    forall i {:trigger orders[i]} :: 0 <= i < |orders| ==> orders[i].orderId in active && orders[i] == AsAuctionOrder(active[orders[i].orderId])
  }

  ghost function RemainderOf(order: CallAuctionOrderSnapshot, executed: nat): CallAuctionCancellation
    requires executed < order.quantity
  {
    CallAuctionCancellation(order.orderId, order.accountId, order.side, order.constraint, order.quantity - executed, executed)
  }

  /** The short orders a policy selects: none, the market orders, or all of them. */
  ghost function SelectedRemainders(orders: seq<AuctionOrder>, shares: seq<nat>, policy: CallAuctionRemainderPolicy, n: nat): set<OrderId>
    requires n <= |orders| == |shares|
  {
    match policy
    case RetainAll => {}
    case CancelMarket => set i | 0 <= i < n && shares[i] < orders[i].quantity && orders[i].constraint.Market? :: orders[i].orderId
    case CancelAll => set i | 0 <= i < n && shares[i] < orders[i].quantity :: orders[i].orderId
  }

  ghost function CancelledIds(cancellations: seq<CallAuctionCancellation>): set<OrderId> {
    set k | 0 <= k < |cancellations| :: cancellations[k].orderId
  }

  lemma CancelledAppend(cancellations: seq<CallAuctionCancellation>, last: CallAuctionCancellation)
    ensures CancelledIds(cancellations + [last]) == CancelledIds(cancellations) + {last.orderId}
  {
    var whole := cancellations + [last];
    forall k | 0 <= k < |cancellations| ensures cancellations[k].orderId in CancelledIds(whole) {
      assert whole[k] == cancellations[k];
    }
    assert whole[|cancellations|] == last;
  }

  lemma SelectedStep(orders: seq<AuctionOrder>, shares: seq<nat>, policy: CallAuctionRemainderPolicy, n: nat)
    requires n < |orders| == |shares|
    ensures SelectedRemainders(orders, shares, policy, n + 1) ==
              SelectedRemainders(orders, shares, policy, n)
              + if shares[n] < orders[n].quantity && (policy == CancelAll || (policy == CancelMarket && orders[n].constraint.Market?)) then {orders[n].orderId} else {}
  {
  }

  /** The remainders of a side are exactly those of the short orders its policy selects. */
  lemma {:induction false} RemaindersBySelection(active: Active, orders: seq<AuctionOrder>, shares: seq<nat>, policy: CallAuctionRemainderPolicy, n: nat)
    requires n <= |orders| && WithinLeaves(shares, orders) && RestingOrders(active, orders)
    ensures CancelledIds(Remainders(active, orders, shares, policy, n)) == SelectedRemainders(orders, shares, policy, n)
  {
    if n > 0 {
      RemaindersBySelection(active, orders, shares, policy, n - 1);
      SelectedStep(orders, shares, policy, n - 1);
      var before := Remainders(active, orders, shares, policy, n - 1);
      hide SelectedRemainders, CancelledIds;
      assert orders[n - 1] == AsAuctionOrder(active[orders[n - 1].orderId]);
      if shares[n - 1] < orders[n - 1].quantity && policy.Cancels(orders[n - 1].constraint) {
        CancelledAppend(before, RemainderOf(active[orders[n - 1].orderId], shares[n - 1]));
      } else {
        assert before + [] == before;
      }
    }
  }

  /** Fills in source order, each the whole positive share of its order. */
  ghost predicate FromSources(fills: Fills, orders: seq<AuctionOrder>, shares: seq<nat>, n: nat)
    requires n <= |orders| == |shares|
  {
    && (forall k {:trigger fills[k]} :: 0 <= k < |fills| ==>
          && fills[k].sourceIndex < n && fills[k].orderId == orders[fills[k].sourceIndex].orderId
          && fills[k].quantityLots == shares[fills[k].sourceIndex])
    && forall j, k :: 0 <= j < k < |fills| ==> fills[j].sourceIndex < fills[k].sourceIndex
  }

  lemma {:induction false} FillsOfSources(orders: seq<AuctionOrder>, shares: seq<nat>, n: nat)
    requires n <= |orders| && WithinLeaves(shares, orders)
    ensures FromSources(FillsOf(orders, shares, n), orders, shares, n)
  {
    if n > 0 {
      FillsOfSources(orders, shares, n - 1);
      var before := FillsOf(orders, shares, n - 1);
      assert FromSources(before, orders, shares, n);
      if shares[n - 1] > 0 {
        var last := AuctionOrderFill(n - 1, orders[n - 1].orderId, shares[n - 1]);
        assert FromSources(before + [last], orders, shares, n);
        assert FillsOf(orders, shares, n) == before + [last];
      } else {
        assert FillsOf(orders, shares, n) == before;
      }
    }
  }

  lemma FillFacts(orders: seq<AuctionOrder>, shares: seq<nat>, active: Active, side: Side, price: Price, executable: nat)
    requires Lists(orders, active, SideIds(active, side), side)
    requires IsAllocation(shares, orders, side, price, executable) && executable > 0
    ensures WithinLeaves(shares, orders) && RestingOrders(active, orders)
    ensures var fills := FillsOf(orders, shares, |orders|);
            ActiveFills(active, fills, side) && LotsFrom(fills, 0) == executable && fills != []
  {
    ListsAreDistinct(orders, active, SideIds(active, side), side);
    FillsOfSources(orders, shares, |orders|);
    var fills := FillsOf(orders, shares, |orders|);
    assert FromSources(fills, orders, shares, |orders|);
    forall k | 0 <= k < |fills| ensures fills[k].orderId in active && active[fills[k].orderId].side == side {
      assert orders[fills[k].sourceIndex].orderId in Ids(orders);
    }
    hide InPriority, IsEligible, SameAllocationTier, FillsOf;
    if orders == [] {
      SumZeros(shares);
    }
    FillsOfFilled(orders, shares, |orders|, 0);
    assert shares[..|orders|] == shares;
  }

  /** One side of a plan: its fills are positive shares of listed active orders. */
  lemma SideFillsAreActive(m: BookModel, side: Side, c: AuctionClearing, allocation: AuctionAllocationPolicy)
    requires ClearsAt(m, c)
    ensures ActiveFills(m.active, SideFills(m, side, c, allocation), side)
    ensures RestingOrders(m.active, SideOrders(m.active, side))
    ensures LotsFrom(SideFills(m, side, c, allocation), 0) == c.executableQuantity
    ensures SideFills(m, side, c, allocation) != []
    ensures m.definition.Valid() && WithinLeaves(SideShares(m, side, c, allocation), SideOrders(m.active, side))
  {
    SideIsListed(m, side);
    BookAllocates(m, c, allocation);
    hide SideOrders, SideShares, IsAllocation, Lists, CanAllocate;
    FillFacts(SideOrders(m.active, side), SideShares(m, side, c, allocation), m.active, side, c.price, c.executableQuantity);
  }

  ghost function PairsOf(m: BookModel, c: AuctionClearing, allocation: AuctionAllocationPolicy): (pairs: seq<Pair>)
    requires ClearsAt(m, c)
  {
    Pairs(SideFills(m, Buy, c, allocation), SideFills(m, Sell, c, allocation))
  }

  ghost function SideRemainders(m: BookModel, side: Side, c: AuctionClearing, policy: CallAuctionUncrossPolicy): seq<CallAuctionCancellation>
    requires ClearsAt(m, c)
  {
    SideFillsAreActive(m, side, c, policy.allocation);
    Remainders(m.active, SideOrders(m.active, side), SideShares(m, side, c, policy.allocation), policy.remainder, |SideOrders(m.active, side)|)
  }

  ghost function PreparedTrades(m: BookModel, c: AuctionClearing, allocation: AuctionAllocationPolicy): seq<CallAuctionTrade>
    requires ClearsAt(m, c) && m.nextTradeId + |PairsOf(m, c, allocation)| <= U64_MAX
  {
    SideFillsAreActive(m, Buy, c, allocation);
    SideFillsAreActive(m, Sell, c, allocation);
    PairsAreInRange(Start(SideFills(m, Buy, c, allocation), SideFills(m, Sell, c, allocation)), SideFills(m, Buy, c, allocation), SideFills(m, Sell, c, allocation));
    TradesOf(m.definition, m.active, c.price, SideFills(m, Buy, c, allocation), SideFills(m, Sell, c, allocation), PairsOf(m, c, allocation), m.nextTradeId)
  }

  ghost function SelfPairOf(m: BookModel, c: AuctionClearing, allocation: AuctionAllocationPolicy): (pair: Option<Pair>)
    requires ClearsAt(m, c)
  {
    SideFillsAreActive(m, Buy, c, allocation);
    SideFillsAreActive(m, Sell, c, allocation);
    PairsAreInRange(Start(SideFills(m, Buy, c, allocation), SideFills(m, Sell, c, allocation)), SideFills(m, Buy, c, allocation), SideFills(m, Sell, c, allocation));
    FirstSelfPair(m.active, SideFills(m, Buy, c, allocation), SideFills(m, Sell, c, allocation), PairsOf(m, c, allocation))
  }

  ghost predicate TradeIdsFit(m: BookModel, c: AuctionClearing, allocation: AuctionAllocationPolicy)
    requires ClearsAt(m, c)
  {
    m.nextTradeId + |PairsOf(m, c, allocation)| <= U64_MAX
  }

  ghost function SelfTradeError(m: BookModel, c: AuctionClearing, allocation: AuctionAllocationPolicy): CallAuctionPrepareError
    requires ClearsAt(m, c) && SelfPairOf(m, c, allocation).Some?
  {
    var pair := SelfPairOf(m, c, allocation).value;
    SelfPairIsInRange(m, c, allocation);
    var buyOrderId, sellOrderId := SideFills(m, Buy, c, allocation)[pair.buy].orderId, SideFills(m, Sell, c, allocation)[pair.sell].orderId;
    SelfTradeWouldOccur(m.active[buyOrderId].accountId, buyOrderId, sellOrderId, pair.lots)
  }

  lemma {:induction false} FirstSelfPairIsOne(active: Active, buys: Fills, sells: Fills, pairs: seq<Pair>)
    requires WellPaired(pairs, buys, sells) && ActiveFills(active, buys, Buy) && ActiveFills(active, sells, Sell)
    ensures match FirstSelfPair(active, buys, sells, pairs)
            case None => forall k {:trigger pairs[k]} :: 0 <= k < |pairs| ==> !SameAccount(active, buys, sells, pairs[k])
            case Some(pair) => pair in pairs && pair.buy < |buys| && pair.sell < |sells| && SameAccount(active, buys, sells, pair)
  {
    if pairs != [] && !SameAccount(active, buys, sells, pairs[0]) {
      FirstSelfPairIsOne(active, buys, sells, pairs[1..]);
      assert pairs == [pairs[0]] + pairs[1..];
    }
  }

  lemma SelfPairIsInRange(m: BookModel, c: AuctionClearing, allocation: AuctionAllocationPolicy)
    requires ClearsAt(m, c) && SelfPairOf(m, c, allocation).Some?
    ensures var pair := SelfPairOf(m, c, allocation).value;
            && pair.buy < |SideFills(m, Buy, c, allocation)| && pair.sell < |SideFills(m, Sell, c, allocation)|
            && SideFills(m, Buy, c, allocation)[pair.buy].orderId in m.active && SideFills(m, Sell, c, allocation)[pair.sell].orderId in m.active
  {
    SideFillsAreActive(m, Buy, c, allocation);
    SideFillsAreActive(m, Sell, c, allocation);
    var buys, sells := SideFills(m, Buy, c, allocation), SideFills(m, Sell, c, allocation);
    PairsAreInRange(Start(buys, sells), buys, sells);
    FirstSelfPairIsOne(m.active, buys, sells, PairsOf(m, c, allocation));
  }

  /** What preparing at a clearing state of this book gives: trade identities may run out, or the
      policy may forbid the first self trade; nothing else can go wrong. */
  ghost function PreparationOutcome(m: BookModel, bookInstanceId: nat, c: AuctionClearing, policy: CallAuctionUncrossPolicy)
    : Result<PreparedCallAuctionUncross, CallAuctionPrepareError>
    requires ClearsAt(m, c) && m.stateRevision < U64_MAX
  {
    if !TradeIdsFit(m, c, policy.allocation) then Err(TradeIdentifierExhausted)
    else if policy.selfTrade == Abort && SelfPairOf(m, c, policy.allocation).Some? then Err(SelfTradeError(m, c, policy.allocation))
    else Ok(PreparedCallAuctionUncross(
      bookInstanceId, m.stateRevision, m.stateRevision + 1, m.nextTradeId + |PairsOf(m, c, policy.allocation)|, policy,
      AuctionAllocationPlan(c, SideFills(m, Buy, c, policy.allocation), SideFills(m, Sell, c, policy.allocation)),
      PreparedTrades(m, c, policy.allocation),
      SideRemainders(m, Buy, c, policy) + SideRemainders(m, Sell, c, policy)))
  }

  /** A preparation is current when the book it would commit to is the book it was made from. */
  ghost predicate IsPreparation(m: BookModel, t: PreparedCallAuctionUncross) {
    && ClearsAt(m, t.plan.clearing) && m.stateRevision < U64_MAX
    && PreparationOutcome(m, t.bookInstanceId, t.plan.clearing, t.policy) == Ok(t)
  }

  /** Every token handed out names this book; one of the current revision fits the current book
      and the order scratch it was built from. */
  ghost predicate TokensFit(m: BookModel, bookInstanceId: nat, indicated: set<CallAuctionIndicative>, issued: set<PreparedCallAuctionUncross>,
                            buys: seq<AuctionOrder>, sells: seq<AuctionOrder>) {
    && (forall t :: t in indicated ==>
          t.bookInstanceId == bookInstanceId && t.stateRevision <= m.stateRevision && (t.stateRevision == m.stateRevision ==> ClearsAt(m, t.clearing)))
    && (forall t :: t in issued ==>
          && t.bookInstanceId == bookInstanceId && t.stateRevision <= m.stateRevision
          && (t.stateRevision == m.stateRevision ==>
                IsPreparation(m, t) && buys == SideOrders(m.active, Buy) && sells == SideOrders(m.active, Sell)))
  }

  /** A later revision makes every token stale, which is all it has to be. */
  lemma TokensAge(m: BookModel, n: BookModel, bookInstanceId: nat, indicated: set<CallAuctionIndicative>, issued: set<PreparedCallAuctionUncross>,
                  buys: seq<AuctionOrder>, sells: seq<AuctionOrder>)
    requires TokensFit(m, bookInstanceId, indicated, issued, buys, sells) && n.stateRevision > m.stateRevision
    ensures TokensFit(n, bookInstanceId, indicated, issued, buys, sells)
  {
  }

  // ----- commitment

  /** An order stays when the uncross leaves it short and the remainder policy keeps it. */
  ghost predicate Remains(m: BookModel, c: AuctionClearing, policy: CallAuctionUncrossPolicy, id: OrderId)
    requires ClearsAt(m, c) && id in m.active
  {
    Executed(m, c, policy.allocation, id) < m.active[id].quantity && !policy.remainder.Cancels(m.active[id].constraint)
  }

  ghost function ActiveAfter(m: BookModel, c: AuctionClearing, policy: CallAuctionUncrossPolicy): Active
    requires ClearsAt(m, c)
  {
    map id | id in m.active && Remains(m, c, policy, id) ::
      m.active[id].(quantity := m.active[id].quantity - Executed(m, c, policy.allocation, id))
  }

  ghost function Uncrossed(m: BookModel, c: AuctionClearing, policy: CallAuctionUncrossPolicy): BookModel
    requires ClearsAt(m, c) && m.stateRevision < U64_MAX && TradeIdsFit(m, c, policy.allocation)
  {
    m.(active := ActiveAfter(m, c, policy),
       nextTradeId := m.nextTradeId + |PairsOf(m, c, policy.allocation)|,
       stateRevision := m.stateRevision + 1)
  }
}
