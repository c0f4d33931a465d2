/** The laws of an uncross: it leaves nothing to cross, keeps every book rule, conserves each
    order's quantity, and bounds its trades. */
module UncrossLaws {
  import opened Allocation
  import opened Arithmetic
  import opened AbstractBook
  import opened Clearing
  import opened Discovery
  import opened Domain
  import opened BookInterest
  import opened Pairing
  import opened Sums
  import opened Uncross

  // ----- nothing is left to cross

  /** An order that remains is deeper than everything that traded. */
  lemma RemainingMeansDepth(m: BookModel, c: AuctionClearing, policy: CallAuctionUncrossPolicy, id: OrderId, price: Price)
    requires ClearsAt(m, c) && id in m.active && Executed(m, c, policy.allocation, id) < m.active[id].quantity
    requires IsEligible(AsAuctionOrder(m.active[id]), m.active[id].side, price)
    ensures c.executableQuantity < Interest(m.active, m.active[id].side, price)
  {
    var side := m.active[id].side;
    ExecutedIsShare(m, c, policy.allocation, id);
    SideIsListed(m, side);
    ListInterest(SideOrders(m.active, side), m.active, side, price);
    BookAllocates(m, c, policy.allocation);
    hide SideOrders, SideShares, IsAllocation, EligibleQuantity, BookInterest.Interest, Executed;
    ResidueMeansDepth(SideShares(m, side, c, policy.allocation), SideOrders(m.active, side), side, c.price, c.executableQuantity,
                      Position(m, id), price);
  }

  lemma SomethingEligible(active: Active, side: Side, price: Price)
    ensures Interest(active, side, price) > 0 ==> exists id :: id in EligibleIds(active, side, price)
  {
    if EligibleIds(active, side, price) != {} {
      var id :| id in EligibleIds(active, side, price);
    }
  }

  /** If remaining interest of a side is positive at a price, more than the executable quantity of
      that side was eligible there before. */
  lemma LeftoverMeansDepth(m: BookModel, c: AuctionClearing, policy: CallAuctionUncrossPolicy, side: Side, price: Price)
    requires ClearsAt(m, c)
    ensures Interest(ActiveAfter(m, c, policy), side, price) > 0 ==> c.executableQuantity < Interest(m.active, side, price)
  {
    var after := ActiveAfter(m, c, policy);
    SomethingEligible(after, side, price);
    if Interest(after, side, price) > 0 {
      var id :| id in EligibleIds(after, side, price);
      assert after[id].constraint == m.active[id].constraint && after[id].side == m.active[id].side;
      RemainingMeansDepth(m, c, policy, id, price);
    }
  }

  /** An uncross really uncrosses. Committing at the discovered price of a band leaves no aligned
      price of that band at which both sides have interest, whatever the allocation and remainder
      policies, so discovering again over the band finds nothing. */
  lemma UncrossReallyUncrosses(m: BookModel, c: AuctionClearing, policy: CallAuctionUncrossPolicy, band: AuctionPriceBand,
                               reference: Price, pricePolicy: AuctionPricePolicy, price: Price)
    requires ClearsAt(m, c) && Grid(m).Valid()
    requires BookDiscovery(m.active, Grid(m), band, reference, pricePolicy) == Some(c)
    requires IsCandidate(price, Grid(m), band)
    ensures Interest(ActiveAfter(m, c, policy), Buy, price) == 0 || Interest(ActiveAfter(m, c, policy), Sell, price) == 0
  {
    hide BookInterest.Interest, ActiveAfter, Uncross.Grid;
    StateIsMinimum(m.active, price);
    hide ClearsAt;
    LeftoverMeansDepth(m, c, policy, Buy, price);
    LeftoverMeansDepth(m, c, policy, Sell, price);
    assert IsBookDiscovery(Some(c), m.active, Grid(m), band, reference, pricePolicy);
  }

  lemma StateIsMinimum(active: Active, price: Price)
    requires Fits(active)
    ensures BookState(active, price).executableQuantity == Min(Interest(active, Buy, price), Interest(active, Sell, price))
  {
  }

  // ----- every rule of the book is kept

  lemma ExecutableIsAligned(m: BookModel, c: AuctionClearing)
    requires ClearsAt(m, c)
    ensures m.definition.Valid() && IsMultiple(c.executableQuantity, m.definition.incrementLots)
  {
    SideIsReady(m, Buy, c);
    SideIsReady(m, Sell, c);
    StateIsMinimum(m.active, c.price);
    hide SideOrders, IsMultiple, BookInterest.Interest;
    EligibleIsMultiple(SideOrders(m.active, Buy), Buy, c.price, m.definition.incrementLots, |SideOrders(m.active, Buy)|);
    EligibleIsMultiple(SideOrders(m.active, Sell), Sell, c.price, m.definition.incrementLots, |SideOrders(m.active, Sell)|);
  }

  lemma ExecutedIsAligned(m: BookModel, c: AuctionClearing, allocation: AuctionAllocationPolicy, id: OrderId)
    requires ClearsAt(m, c) && id in m.active
    ensures m.definition.Valid() && IsMultiple(Executed(m, c, allocation, id), m.definition.incrementLots)
  {
    var side := m.active[id].side;
    ExecutedIsShare(m, c, allocation, id);
    ExecutableIsAligned(m, c);
    SideIsReady(m, side, c);
    hide SideOrders, Executed, IsMultiple, Aligned, SharesFor, ClearsAt, BookModel.Valid, SideReady, Lists, IsEligible;
    SharesAreAligned(allocation, SideOrders(m.active, side), side, c, m.definition.incrementLots, Position(m, id));
  }

  /** What is left of an order is still within the maximum and on the increment. */
  lemma LeavesStayAligned(m: BookModel, c: AuctionClearing, allocation: AuctionAllocationPolicy, id: OrderId)
    requires ClearsAt(m, c) && id in m.active && Executed(m, c, allocation, id) < m.active[id].quantity
    ensures m.definition.Valid() && m.definition.ValidateLeaves(m.active[id].quantity - Executed(m, c, allocation, id)).None?
  {
    hide *;
    ExecutedIsAligned(m, c, allocation, id);
    ClearingFacts(m, c);
    OrderFacts(m, id);
    LeavesAfter(m.definition, m.active[id].quantity, Executed(m, c, allocation, id));
  }

  lemma RemainingOrder(m: BookModel, c: AuctionClearing, policy: CallAuctionUncrossPolicy, id: OrderId)
    requires ClearsAt(m, c)
    ensures id in ActiveAfter(m, c, policy) <==> id in m.active && Remains(m, c, policy, id)
    ensures id in ActiveAfter(m, c, policy) ==>
              ActiveAfter(m, c, policy)[id] == m.active[id].(quantity := m.active[id].quantity - Executed(m, c, policy.allocation, id))
  {
    hide ClearsAt, Executed;
  }

  lemma RemainingOrderShrinks(m: BookModel, c: AuctionClearing, policy: CallAuctionUncrossPolicy, id: OrderId)
    requires ClearsAt(m, c) && m.definition.Valid() && id in ActiveAfter(m, c, policy)
    ensures id in m.active && m.active[id].(quantity := ActiveAfter(m, c, policy)[id].quantity) == ActiveAfter(m, c, policy)[id]
    ensures m.definition.ValidateLeaves(ActiveAfter(m, c, policy)[id].quantity).None?
  {
    hide ClearsAt, ActiveAfter, Executed, InstrumentDefinition.Valid, InstrumentDefinition.ValidateLeaves;
    RemainingOrder(m, c, policy, id);
    LeavesStayAligned(m, c, policy.allocation, id);
  }

  lemma LeftoverShrinks(m: BookModel, c: AuctionClearing, policy: CallAuctionUncrossPolicy)
    requires ClearsAt(m, c)
    ensures m.definition.Valid() && Shrinks(m, ActiveAfter(m, c, policy))
    ensures forall id :: id in ActiveAfter(m, c, policy) ==> m.definition.ValidateLeaves(ActiveAfter(m, c, policy)[id].quantity).None?
  {
    hide ClearsAt, ActiveAfter, BookModel.Valid, InstrumentDefinition.Valid, InstrumentDefinition.ValidateLeaves, Fits;
    ClearingFacts(m, c);
    forall id | id in ActiveAfter(m, c, policy)
      ensures id in m.active && m.active[id].(quantity := ActiveAfter(m, c, policy)[id].quantity) == ActiveAfter(m, c, policy)[id]
      ensures m.definition.ValidateLeaves(ActiveAfter(m, c, policy)[id].quantity).None?
    {
      RemainingOrderShrinks(m, c, policy, id);
    }
  }

  lemma UncrossKeepsValid(m: BookModel, c: AuctionClearing, policy: CallAuctionUncrossPolicy)
    requires ClearsAt(m, c) && m.stateRevision < U64_MAX && TradeIdsFit(m, c, policy.allocation)
    ensures Uncrossed(m, c, policy).Valid()
  {
    LeftoverShrinks(m, c, policy);
    BookHasTradeId(m);
    hide BookModel.Valid, ActiveAfter, InstrumentDefinition.ValidateLeaves, PairsOf, Shrinks;
    ShrinkKeepsValid(m, Uncrossed(m, c, policy));
  }

  lemma BookHasTradeId(m: BookModel)
    requires m.Valid()
    ensures m.nextTradeId >= 1
  {
  }

  /** After the commit, discovery over the same band answers "nothing executable", under every
      reference and ranking. */
  lemma RediscoveryFindsNothing(m: BookModel, c: AuctionClearing, policy: CallAuctionUncrossPolicy, band: AuctionPriceBand,
                                reference: Price, pricePolicy: AuctionPricePolicy, laterReference: Price, laterPolicy: AuctionPricePolicy)
    requires ClearsAt(m, c) && m.stateRevision < U64_MAX && TradeIdsFit(m, c, policy.allocation) && Grid(m).Valid()
    requires BookDiscovery(m.active, Grid(m), band, reference, pricePolicy) == Some(c)
    ensures Fits(ActiveAfter(m, c, policy))
    ensures BookDiscovery(ActiveAfter(m, c, policy), Grid(m), band, laterReference, laterPolicy) == None
  {
    var after := ActiveAfter(m, c, policy);
    UncrossKeepsValid(m, c, policy);
    InterestFits(Uncrossed(m, c, policy));
    hide ActiveAfter, BookInterest.Interest, ClearsAt;
    var best := BookDiscovery(after, Grid(m), band, laterReference, laterPolicy);
    if best.Some? {
      StateIsMinimum(after, best.value.price);
      UncrossReallyUncrosses(m, c, policy, band, reference, pricePolicy, best.value.price);
      assert false;
    }
  }

  // ----- quantity is conserved

  ghost function TradedLots(trades: seq<CallAuctionTrade>, id: OrderId): nat {
    if trades == [] then 0 else
    (if trades[0].buyOrderId == id || trades[0].sellOrderId == id then trades[0].quantity else 0) + TradedLots(trades[1..], id)
  }

  ghost function CancelledLots(cancellations: seq<CallAuctionCancellation>, id: OrderId): nat {
    if cancellations == [] then 0 else
    CancelledLots(cancellations[..|cancellations| - 1], id) +
    if cancellations[|cancellations| - 1].orderId == id then cancellations[|cancellations| - 1].quantity else 0
  }

  ghost function RemainingLots(active: Active, id: OrderId): nat {
    if id in active then active[id].quantity else 0
  }

  /** Trades give an order what its side's pairs give it: its two sides never mix. */
  lemma {:induction false} TradesCarryPairs(definition: InstrumentDefinition, active: Active, price: Price, buys: Fills, sells: Fills, pairs: seq<Pair>,
                                            firstId: nat, id: OrderId)
    requires WellPaired(pairs, buys, sells) && ActiveFills(active, buys, Buy) && ActiveFills(active, sells, Sell)
    requires 1 <= firstId && firstId + |pairs| <= U64_MAX && id in active
    ensures TradedLots(TradesOf(definition, active, price, buys, sells, pairs, firstId), id) ==
              if active[id].side == Buy then PairedLots(pairs, buys, Buy, id) else PairedLots(pairs, sells, Sell, id)
  {
    if pairs != [] {
      var rest := TradesOf(definition, active, price, buys, sells, pairs[1..], firstId + 1);
      var first := TradeOf(definition, active, price, buys, sells, pairs[0], firstId);
      TradesCarryPairs(definition, active, price, buys, sells, pairs[1..], firstId + 1, id);
      assert ([first] + rest)[1..] == rest;
      assert active[buys[pairs[0].buy].orderId].side == Buy && active[sells[pairs[0].sell].orderId].side == Sell;
    }
  }

  /** Trades are numbered consecutively and trade at one price. */
  lemma {:induction false} TradesAreContiguous(definition: InstrumentDefinition, active: Active, price: Price, buys: Fills, sells: Fills, pairs: seq<Pair>,
                                               firstId: nat)
    requires WellPaired(pairs, buys, sells) && ActiveFills(active, buys, Buy) && ActiveFills(active, sells, Sell)
    requires 1 <= firstId && firstId + |pairs| <= U64_MAX
    ensures var trades := TradesOf(definition, active, price, buys, sells, pairs, firstId);
            && |trades| == |pairs|
            && forall k {:trigger trades[k]} :: 0 <= k < |trades| ==>
                 trades[k] == TradeOf(definition, active, price, buys, sells, pairs[k], firstId + k)
  {
    if pairs != [] {
      TradesAreContiguous(definition, active, price, buys, sells, pairs[1..], firstId + 1);
      var rest := TradesOf(definition, active, price, buys, sells, pairs[1..], firstId + 1);
      forall k | 0 <= k < |pairs|
        ensures TradesOf(definition, active, price, buys, sells, pairs, firstId)[k] == TradeOf(definition, active, price, buys, sells, pairs[k], firstId + k)
      {
        if k > 0 { assert rest[k - 1] == TradeOf(definition, active, price, buys, sells, pairs[1..][k - 1], firstId + 1 + (k - 1)); }
      }
    }
  }

  /** The prepared trades are the trades of the state's own pairs. */
  lemma PreparedTradesAre(m: BookModel, c: AuctionClearing, allocation: AuctionAllocationPolicy)
    requires ClearsAt(m, c) && TradeIdsFit(m, c, allocation)
    ensures var buys, sells := SideFills(m, Buy, c, allocation), SideFills(m, Sell, c, allocation);
            && ActiveFills(m.active, buys, Buy) && ActiveFills(m.active, sells, Sell) && WellPaired(PairsOf(m, c, allocation), buys, sells)
            && PairsOf(m, c, allocation) == Pairs(buys, sells) && m.nextTradeId >= 1 && m.nextTradeId + |PairsOf(m, c, allocation)| <= U64_MAX
            && PreparedTrades(m, c, allocation) == TradesOf(m.definition, m.active, c.price, buys, sells, PairsOf(m, c, allocation), m.nextTradeId)
  {
    hide ClearsAt, SideFills, ActiveFills, TradesOf, PairsFrom, RestingOrders, WithinLeaves, BookModel.Valid, SideShares, SideOrders;
    ClearingFacts(m, c);
    SideFillsAreActive(m, Buy, c, allocation);
    SideFillsAreActive(m, Sell, c, allocation);
    var buys, sells := SideFills(m, Buy, c, allocation), SideFills(m, Sell, c, allocation);
    PairsAreInRange(Start(buys, sells), buys, sells);
  }

  /** Trading hands each order exactly what it executes. */
  lemma TradesCarryExecutions(m: BookModel, c: AuctionClearing, allocation: AuctionAllocationPolicy, id: OrderId)
    requires ClearsAt(m, c) && TradeIdsFit(m, c, allocation) && id in m.active
    ensures TradedLots(PreparedTrades(m, c, allocation), id) == Executed(m, c, allocation, id)
  {
    var buys, sells := SideFills(m, Buy, c, allocation), SideFills(m, Sell, c, allocation);
    SideFillsAreActive(m, Buy, c, allocation);
    SideFillsAreActive(m, Sell, c, allocation);
    BookHasTradeId(m);
    hide SideFills, ClearsAt, ActiveFills, Pairs;
    PairingConserves(buys, sells, id);
    TradesCarryPairs(m.definition, m.active, c.price, buys, sells, PairsOf(m, c, allocation), m.nextTradeId, id);
  }

  lemma {:induction false} CancelledConcat(a: seq<CallAuctionCancellation>, b: seq<CallAuctionCancellation>, id: OrderId)
    ensures CancelledLots(a + b, id) == CancelledLots(a, id) + CancelledLots(b, id)
  {
    if b == [] {
      assert a + b == a;
    } else {
      assert (a + b)[..|a + b| - 1] == a + b[..|b| - 1];
      CancelledConcat(a, b[..|b| - 1], id);
    }
  }

  lemma CancelledSnoc(before: seq<CallAuctionCancellation>, last: CallAuctionCancellation, id: OrderId)
    ensures CancelledLots(before + [last], id) == CancelledLots(before, id) + if last.orderId == id then last.quantity else 0
  {
    assert (before + [last])[..|before|] == before;
  }

  /** Lots the policy cancels of the order at one position. */
  ghost function CancelledAt(orders: seq<AuctionOrder>, shares: seq<nat>, policy: CallAuctionRemainderPolicy, i: nat): nat
    requires i < |orders| == |shares|
  {
    if shares[i] < orders[i].quantity && policy.Cancels(orders[i].constraint) then orders[i].quantity - shares[i] else 0
  }

  lemma RemaindersStep(active: Active, orders: seq<AuctionOrder>, shares: seq<nat>, policy: CallAuctionRemainderPolicy, n: nat, id: OrderId)
    requires n < |orders| && WithinLeaves(shares, orders) && RestingOrders(active, orders) && Keyed(active)
    ensures CancelledLots(Remainders(active, orders, shares, policy, n + 1), id) ==
              CancelledLots(Remainders(active, orders, shares, policy, n), id) +
              if orders[n].orderId == id then CancelledAt(orders, shares, policy, n) else 0
  {
    var before := Remainders(active, orders, shares, policy, n);
    if shares[n] < orders[n].quantity && policy.Cancels(orders[n].constraint) {
      CancelledSnoc(before, RemainderOf(active[orders[n].orderId], shares[n]), id);
    } else {
      assert before + [] == before;
    }
  }

  /** Only a cancelled remainder appears, once, with what the order has left. */
  lemma {:induction false} RemaindersCancel(active: Active, orders: seq<AuctionOrder>, shares: seq<nat>, policy: CallAuctionRemainderPolicy, n: nat, id: OrderId, at: nat)
    requires n <= |orders| && WithinLeaves(shares, orders) && RestingOrders(active, orders) && Keyed(active)
    requires at <= |orders| && forall i {:trigger orders[i]} :: 0 <= i < |orders| ==> (orders[i].orderId == id <==> i == at)
    ensures CancelledLots(Remainders(active, orders, shares, policy, n), id) ==
              if at < n then CancelledAt(orders, shares, policy, at) else 0
  {
    if n == 0 {
      assert CancelledLots([], id) == 0;
    } else {
      assert |shares| == |orders|;
      hide *;
      RemaindersCancel(active, orders, shares, policy, n - 1, id, at);
      RemaindersStep(active, orders, shares, policy, n - 1, id);
    }
  }

  lemma SideCancels(m: BookModel, side: Side, c: AuctionClearing, policy: CallAuctionUncrossPolicy, id: OrderId)
    requires ClearsAt(m, c) && id in m.active
    ensures CancelledLots(SideRemainders(m, side, c, policy), id) ==
              if m.active[id].side == side && Executed(m, c, policy.allocation, id) < m.active[id].quantity
                 && policy.remainder.Cancels(m.active[id].constraint)
              then m.active[id].quantity - Executed(m, c, policy.allocation, id) else 0
  {
    hide ClearsAt, IsEligible, SideShares, Executed, SideOrders;
    ClearingFacts(m, c);
    SideIsListed(m, side);
    SideFillsAreActive(m, side, c, policy.allocation);
    ExecutedIsShare(m, c, policy.allocation, id);
    OrderFacts(m, id);
    var orders, shares := SideOrders(m.active, side), SideShares(m, side, c, policy.allocation);
    ListsAreDistinct(orders, m.active, SideIds(m.active, side), side);
    hide BookModel.Valid, InPriority;
    var at := if m.active[id].side == side then Position(m, id) else |orders|;
    forall i | 0 <= i < |orders| ensures orders[i].orderId == id <==> i == at {
      assert orders[i].orderId in Ids(orders);
    }
    hide Lists, RestingOrders, WithinLeaves;
    RemaindersCancel(m.active, orders, shares, policy.remainder, |orders|, id, at);
  }

  /** Every order's quantity is exactly what it traded, plus what the policy cancelled, plus what
      it still rests. */
  lemma QuantityIsConserved(m: BookModel, c: AuctionClearing, policy: CallAuctionUncrossPolicy, id: OrderId)
    requires ClearsAt(m, c) && TradeIdsFit(m, c, policy.allocation) && id in m.active
    ensures m.active[id].quantity ==
              TradedLots(PreparedTrades(m, c, policy.allocation), id)
              + CancelledLots(SideRemainders(m, Buy, c, policy) + SideRemainders(m, Sell, c, policy), id)
              + RemainingLots(ActiveAfter(m, c, policy), id)
  {
    hide ClearsAt, IsEligible, SideShares, Executed, SideOrders, SideRemainders, ActiveAfter, PreparedTrades;
    TradesCarryExecutions(m, c, policy.allocation, id);
    SideCancels(m, Buy, c, policy, id);
    SideCancels(m, Sell, c, policy, id);
    CancelledConcat(SideRemainders(m, Buy, c, policy), SideRemainders(m, Sell, c, policy), id);
    RemainingOrder(m, c, policy, id);
    ExecutedIsShare(m, c, policy.allocation, id);
  }

  // ----- how many orders trade, leave and stay

  /** What becomes of one order: filled, cancelled or kept; a short order may be partly filled. */
  datatype Fate = Full | Cancelled | Kept

  ghost function FateAt(orders: seq<AuctionOrder>, shares: seq<nat>, policy: CallAuctionRemainderPolicy, i: nat): Fate
    requires i < |orders| == |shares|
  {
    if shares[i] >= orders[i].quantity then Full else if policy.Cancels(orders[i].constraint) then Cancelled else Kept
  }

  ghost predicate PartAt(orders: seq<AuctionOrder>, shares: seq<nat>, i: nat)
    requires i < |orders| == |shares|
  {
    0 < shares[i] < orders[i].quantity
  }

  ghost function Count(orders: seq<AuctionOrder>, shares: seq<nat>, policy: CallAuctionRemainderPolicy, fate: Fate, n: nat): nat
    requires n <= |orders| == |shares|
  {
    if n == 0 then 0 else
    Count(orders, shares, policy, fate, n - 1) + if FateAt(orders, shares, policy, n - 1) == fate then 1 else 0
  }

  ghost function CountPart(orders: seq<AuctionOrder>, shares: seq<nat>, n: nat): nat
    requires n <= |orders| == |shares|
  {
    if n == 0 then 0 else CountPart(orders, shares, n - 1) + if PartAt(orders, shares, n - 1) then 1 else 0
  }

  lemma {:induction false} FatesPartition(orders: seq<AuctionOrder>, shares: seq<nat>, policy: CallAuctionRemainderPolicy, n: nat)
    requires n <= |orders| == |shares|
    ensures Count(orders, shares, policy, Full, n) + Count(orders, shares, policy, Cancelled, n) + Count(orders, shares, policy, Kept, n) == n
    ensures CountPart(orders, shares, n) <= Count(orders, shares, policy, Cancelled, n) + Count(orders, shares, policy, Kept, n)
  {
    if n > 0 {
      FatesPartition(orders, shares, policy, n - 1);
    }
  }

  lemma {:induction false} TallyOfFills(orders: seq<AuctionOrder>, shares: seq<nat>, policy: CallAuctionRemainderPolicy, n: nat)
    requires n <= |orders| && WithinLeaves(shares, orders)
    ensures |FillsOf(orders, shares, n)| == Count(orders, shares, policy, Full, n) + CountPart(orders, shares, n)
  {
    if n > 0 {
      TallyOfFills(orders, shares, policy, n - 1);
    }
  }

  lemma {:induction false} TallyOfRemainders(active: Active, orders: seq<AuctionOrder>, shares: seq<nat>, policy: CallAuctionRemainderPolicy, n: nat)
    requires n <= |orders| && WithinLeaves(shares, orders) && RestingOrders(active, orders)
    ensures |Remainders(active, orders, shares, policy, n)| == Count(orders, shares, policy, Cancelled, n)
  {
    if n > 0 {
      TallyOfRemainders(active, orders, shares, policy, n - 1);
    }
  }

  ghost function KeptIds(orders: seq<AuctionOrder>, shares: seq<nat>, policy: CallAuctionRemainderPolicy, n: nat): set<OrderId>
    requires n <= |orders| == |shares|
  {
    if n == 0 then {} else
    KeptIds(orders, shares, policy, n - 1) + if FateAt(orders, shares, policy, n - 1).Kept? then {orders[n - 1].orderId} else {}
  }

  lemma {:induction false} KeptIdsAre(orders: seq<AuctionOrder>, shares: seq<nat>, policy: CallAuctionRemainderPolicy, n: nat, id: OrderId)
    requires n <= |orders| == |shares|
    ensures id in KeptIds(orders, shares, policy, n) <==> exists i :: 0 <= i < n && orders[i].orderId == id && FateAt(orders, shares, policy, i).Kept?
  {
    hide FateAt;
    if n > 0 {
      KeptIdsAre(orders, shares, policy, n - 1, id);
    }
  }

  ghost predicate DistinctIds(orders: seq<AuctionOrder>) {
    forall i, j :: 0 <= i < j < |orders| ==> orders[i].orderId != orders[j].orderId
  }

  lemma KeptStep(orders: seq<AuctionOrder>, shares: seq<nat>, policy: CallAuctionRemainderPolicy, n: nat)
    requires n < |orders| == |shares| && DistinctIds(orders)
    ensures |KeptIds(orders, shares, policy, n + 1)| == |KeptIds(orders, shares, policy, n)| + if FateAt(orders, shares, policy, n).Kept? then 1 else 0
  {
    var before, id := KeptIds(orders, shares, policy, n), orders[n].orderId;
    KeptIdsAre(orders, shares, policy, n, id);
    hide FateAt;
    assert id !in before;
  }

  lemma {:induction false} TallyOfKept(orders: seq<AuctionOrder>, shares: seq<nat>, policy: CallAuctionRemainderPolicy, n: nat)
    requires n <= |orders| == |shares| && DistinctIds(orders)
    ensures |KeptIds(orders, shares, policy, n)| == Count(orders, shares, policy, Kept, n)
  {
    hide DistinctIds;
    if n > 0 {
      TallyOfKept(orders, shares, policy, n - 1);
      KeptStep(orders, shares, policy, n - 1);
      hide KeptIds;
    }
  }

  /** Price-time leaves at most one order of a side partly filled. */
  lemma {:induction false} OnePartialFill(orders: seq<AuctionOrder>, shares: seq<nat>, n: nat)
    requires n <= |orders| == |shares| && StrictPriority(shares, orders)
    ensures CountPart(orders, shares, n) <= 1
    ensures CountPart(orders, shares, n) == 1 ==> exists i {:trigger shares[i]} :: 0 <= i < n && 0 < shares[i] < orders[i].quantity
  {
    if n > 0 {
      OnePartialFill(orders, shares, n - 1);
      if 0 < shares[n - 1] < orders[n - 1].quantity {
        assert CountPart(orders, shares, n - 1) == 0;
      }
    }
  }

  /** A side whose whole eligible interest executes has no partly filled order. */
  lemma {:induction false} NoPartialFill(orders: seq<AuctionOrder>, side: Side, shares: seq<nat>, c: AuctionClearing, n: nat)
    requires n <= |orders| && InPriority(orders, side) && IsAllocation(shares, orders, side, c.price, c.executableQuantity)
    requires EligibleQuantity(orders, side, c.price) == c.executableQuantity
    ensures CountPart(orders, shares, n) == 0
  {
    if n > 0 {
      NoPartialFill(orders, side, shares, c, n - 1);
      hide InPriority, SameAllocationTier, EligibleQuantity, Sum;
      if 0 < shares[n - 1] < orders[n - 1].quantity {
        ResidueMeansDepth(shares, orders, side, c.price, c.executableQuantity, n - 1, c.price);
      }
    }
  }

  /** How many orders of a side meet one fate. */
  ghost function SideCount(m: BookModel, side: Side, c: AuctionClearing, policy: CallAuctionUncrossPolicy, fate: Fate): nat
    requires ClearsAt(m, c)
  {
    Count(SideOrders(m.active, side), SideShares(m, side, c, policy.allocation), policy.remainder, fate, |SideOrders(m.active, side)|)
  }

  ghost function SideKept(m: BookModel, side: Side, c: AuctionClearing, policy: CallAuctionUncrossPolicy): set<OrderId>
    requires ClearsAt(m, c)
  {
    KeptIds(SideOrders(m.active, side), SideShares(m, side, c, policy.allocation), policy.remainder, |SideOrders(m.active, side)|)
  }

  lemma SideKeptIs(m: BookModel, side: Side, c: AuctionClearing, policy: CallAuctionUncrossPolicy, id: OrderId)
    requires ClearsAt(m, c)
    ensures id in SideKept(m, side, c, policy) <==> id in ActiveAfter(m, c, policy) && m.active[id].side == side
  {
    hide ClearsAt, IsEligible, SideShares, Executed, SideOrders, ActiveAfter, FateAt;
    ClearingFacts(m, c);
    var orders, shares := SideOrders(m.active, side), SideShares(m, side, c, policy.allocation);
    SideIsListed(m, side);
    ListsAreDistinct(orders, m.active, SideIds(m.active, side), side);
    RemainingOrder(m, c, policy, id);
    KeptIdsAre(orders, shares, policy.remainder, |orders|, id);
    hide BookModel.Valid, InPriority, KeptIds;
    if id in m.active && m.active[id].side == side {
      OrderFacts(m, id);
      KeptAt(m, side, c, policy, id);
    } else {
      forall i | 0 <= i < |orders| ensures orders[i].orderId != id { assert orders[i].orderId in Ids(orders); }
    }
  }

  lemma KeptAt(m: BookModel, side: Side, c: AuctionClearing, policy: CallAuctionUncrossPolicy, id: OrderId)
    requires ClearsAt(m, c) && id in m.active && m.active[id].side == side
    ensures FateAt(SideOrders(m.active, side), SideShares(m, side, c, policy.allocation), policy.remainder, Position(m, id)).Kept? <==>
              Remains(m, c, policy, id)
    ensures SideOrders(m.active, side)[Position(m, id)].orderId == id
    ensures forall i :: 0 <= i < |SideOrders(m.active, side)| && SideOrders(m.active, side)[i].orderId == id ==> i == Position(m, id)
  {
    hide ClearsAt, IsEligible, SideShares, Executed, SideOrders;
    ClearingFacts(m, c);
    OrderFacts(m, id);
    SideIsListed(m, side);
    ListsAreDistinct(SideOrders(m.active, side), m.active, SideIds(m.active, side), side);
    ExecutedIsShare(m, c, policy.allocation, id);
  }

  /** Per side: fills, cancellations and remaining orders are counted by fate. */
  lemma SideCounts(m: BookModel, side: Side, c: AuctionClearing, policy: CallAuctionUncrossPolicy)
    requires ClearsAt(m, c)
    ensures |SideRemainders(m, side, c, policy)| == SideCount(m, side, c, policy, Cancelled)
    ensures |SideKept(m, side, c, policy)| == SideCount(m, side, c, policy, Kept)
    ensures |SideIds(m.active, side)| == SideCount(m, side, c, policy, Full) + SideCount(m, side, c, policy, Cancelled) + SideCount(m, side, c, policy, Kept)
    ensures |SideFills(m, side, c, policy.allocation)| <= |SideIds(m.active, side)|
    ensures Interest(m.active, side, c.price) == c.executableQuantity ==>
              |SideFills(m, side, c, policy.allocation)| <= SideCount(m, side, c, policy, Full)
    ensures policy.allocation == PriceTime ==> |SideFills(m, side, c, policy.allocation)| <= SideCount(m, side, c, policy, Full) + 1
  {
    ClearingFacts(m, c);
    var orders, shares := SideOrders(m.active, side), SideShares(m, side, c, policy.allocation);
    hide ClearsAt, IsEligible, SideShares, SideOrders, BookModel.Valid, IsAllocation, Count, CountPart, KeptIds, EligibleQuantity, BookInterest.Interest, InPriority, StrictPriority, WithinLeaves, RestingOrders, CanAllocate;
    SideIsListed(m, side);
    SideFillsAreActive(m, side, c, policy.allocation);
    BookAllocates(m, c, policy.allocation);
    ListInterest(orders, m.active, side, c.price);
    SideFitsLimit(m, side);
    ListsAreDistinct(orders, m.active, SideIds(m.active, side), side);
    FatesPartition(orders, shares, policy.remainder, |orders|);
    TallyOfFills(orders, shares, policy.remainder, |orders|);
    TallyOfRemainders(m.active, orders, shares, policy.remainder, |orders|);
    TallyOfKept(orders, shares, policy.remainder, |orders|);
    if Interest(m.active, side, c.price) == c.executableQuantity {
      NoPartialFill(orders, side, shares, c, |orders|);
    }
    if policy.allocation == PriceTime {
      OnePartialFill(orders, shares, |orders|);
    }
  }

  lemma SidesPartition(m: BookModel, c: AuctionClearing, policy: CallAuctionUncrossPolicy)
    requires ClearsAt(m, c)
    ensures |SideIds(m.active, Buy)| + |SideIds(m.active, Sell)| == |m.active|
    ensures |SideKept(m, Buy, c, policy)| + |SideKept(m, Sell, c, policy)| == |ActiveAfter(m, c, policy)|
  {
    hide ClearsAt, ActiveAfter, SideKept;
    assert SideIds(m.active, Buy) + SideIds(m.active, Sell) == m.active.Keys;
    assert |m.active.Keys| == |SideIds(m.active, Buy)| + |SideIds(m.active, Sell)|;
    assert |m.active| == |m.active.Keys|;
    var after := ActiveAfter(m, c, policy);
    forall id: OrderId
      ensures id in SideKept(m, Buy, c, policy) || id in SideKept(m, Sell, c, policy) <==> id in after
      ensures !(id in SideKept(m, Buy, c, policy) && id in SideKept(m, Sell, c, policy))
    {
      SideKeptIs(m, Buy, c, policy, id);
      SideKeptIs(m, Sell, c, policy, id);
      RemainingOrder(m, c, policy, id);
    }
    assert SideKept(m, Buy, c, policy) + SideKept(m, Sell, c, policy) == after.Keys;
    assert |after| == |after.Keys|;
  }

  /** Orders an uncross fills completely. */
  ghost function FullyFilled(m: BookModel, c: AuctionClearing, policy: CallAuctionUncrossPolicy): nat
    requires ClearsAt(m, c)
  {
    SideCount(m, Buy, c, policy, Full) + SideCount(m, Sell, c, policy, Full)
  }

  /** Trades and cancellations are bounded by the orders of the book, every removed order is
      filled or cancelled, some order always fills completely, and under price-time trades never
      outnumber fully filled orders. */
  lemma TradesAreBounded(m: BookModel, c: AuctionClearing, policy: CallAuctionUncrossPolicy)
    requires ClearsAt(m, c)
    ensures var trades := |PairsOf(m, c, policy.allocation)|;
            var cancelled := |SideRemainders(m, Buy, c, policy)| + |SideRemainders(m, Sell, c, policy)|;
            && |m.active| == FullyFilled(m, c, policy) + cancelled + |ActiveAfter(m, c, policy)|
            && 1 <= trades <= |m.active| - 1 && trades + cancelled <= 2 * |m.active| - 1 && 1 <= FullyFilled(m, c, policy)
            && (policy.allocation == PriceTime ==> trades <= FullyFilled(m, c, policy))
  {
    SidesPartition(m, c, policy);
    SideCounts(m, Buy, c, policy);
    SideCounts(m, Sell, c, policy);
    SideFillsAreActive(m, Buy, c, policy.allocation);
    SideFillsAreActive(m, Sell, c, policy.allocation);
    StateIsLighterSide(m, c);
    hide ClearsAt, SideFills, SideCount, SideRemainders, SideKept, ActiveAfter, BookInterest.Interest, Pairs, ActiveFills, RestingOrders, SideIds, LotsFrom;
    PairingConserves(SideFills(m, Buy, c, policy.allocation), SideFills(m, Sell, c, policy.allocation), 1);
  }

  lemma StateIsLighterSide(m: BookModel, c: AuctionClearing)
    requires ClearsAt(m, c)
    ensures Interest(m.active, Buy, c.price) == c.executableQuantity || Interest(m.active, Sell, c.price) == c.executableQuantity
  {
    StateIsMinimum(m.active, c.price);
  }
}
