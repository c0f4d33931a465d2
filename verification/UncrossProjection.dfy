/** Replaying one uncross from its events alone: trades reduce projected orders one by one, and
    cancelled remainders leave with exactly what their order had left. */
module UncrossProjection {
  import opened AbstractBook
  import opened Allocation
  import opened Clearing
  import opened Domain
  import opened EngineTypes
  import opened Pairing
  import opened Uncross
  import opened UncrossLaws
  import opened UncrossSteps

  type Orders = map<OrderId, CallAuctionOrderSnapshot>

  /** Projected orders, and the quantity each traded order had before the uncross. */
  datatype UncrossScan = UncrossScan(orders: Orders, sources: map<OrderId, Quantity>)

  ghost predicate PriceAdmits(side: Side, constraint: AuctionOrderConstraint, price: Price) {
    match (side, constraint)
    case (_, Market) => true
    case (Buy, Limit(limit)) => limit >= price
    case (Sell, Limit(limit)) => limit <= price
  }

  ghost function Remember(scan: UncrossScan, id: OrderId): Option<UncrossScan> {
    if id in scan.sources then Some(scan)
    else if id in scan.orders then Some(scan.(sources := scan.sources[id := scan.orders[id].quantity]))
    else None
  }

  ghost function Reduced(orders: Orders, id: OrderId, accountId: AccountId, side: Side, price: Price, lots: Quantity): Option<Orders> {
    if id !in orders then None
    else if orders[id].accountId != accountId || orders[id].side != side || !PriceAdmits(side, orders[id].constraint, price) || lots > orders[id].quantity
    then None
    else if lots == orders[id].quantity then Some(orders - {id})
    else Some(orders[id := orders[id].(quantity := orders[id].quantity - lots)])
  }

  /** Both sources are remembered before either order is reduced. */
  ghost function TradeProjected(scan: UncrossScan, trade: CallAuctionTrade): Option<UncrossScan> {
    var remembered := Remember(scan, trade.buyOrderId);
    if remembered.None? then None else
    var both := Remember(remembered.value, trade.sellOrderId);
    if both.None? then None else
    var bought := Reduced(both.value.orders, trade.buyOrderId, trade.buyAccountId, Buy, trade.price, trade.quantity);
    if bought.None? then None else
    var sold := Reduced(bought.value, trade.sellOrderId, trade.sellAccountId, Sell, trade.price, trade.quantity);
    if sold.None? then None else Some(UncrossScan(sold.value, both.value.sources))
  }

  ghost function RemainderProjected(scan: UncrossScan, cancellation: CallAuctionCancellation): Option<UncrossScan> {
    var id := cancellation.orderId;
    if id !in scan.orders then None else
    var order := scan.orders[id];
    var source := if id in scan.sources then scan.sources[id] else order.quantity;
    if order.accountId != cancellation.accountId || order.side != cancellation.side || order.constraint != cancellation.constraint
       || order.quantity != cancellation.quantity || cancellation.quantity + cancellation.executedQuantityLots != source
    then None
    else Some(scan.(orders := scan.orders - {id}))
  }

  ghost function EventProjected(scan: UncrossScan, kind: CallAuctionEventKind): Option<UncrossScan> {
    match kind
    case TradeExecuted(trade) => TradeProjected(scan, trade)
    case RemainderCancelled(cancellation) => RemainderProjected(scan, cancellation)
    case _ => None
  }

  /** The scan after the first `n` events, or none if they contradict the projected orders. */
  ghost function UncrossProjected(orders: Orders, events: seq<CallAuctionEvent>, n: nat): Option<UncrossScan>
    requires n <= |events|
  {
    if n == 0 then Some(UncrossScan(orders, map[])) else
    var before := UncrossProjected(orders, events, n - 1);
    if before.None? then None else EventProjected(before.value, events[n - 1].kind)
  }

  lemma {:induction false} ProjectionStops(orders: Orders, events: seq<CallAuctionEvent>, k: nat, n: nat)
    requires k <= n <= |events| && UncrossProjected(orders, events, k).None?
    ensures UncrossProjected(orders, events, n).None?
  {
    if k < n { ProjectionStops(orders, events, k, n - 1); }
  }

  /** Notes the quantity an order had before the uncross, once. */
  method RememberSource(orders: Orders, sources: map<OrderId, Quantity>, id: OrderId) returns (r: Option<map<OrderId, Quantity>>)
    ensures r == match Remember(UncrossScan(orders, sources), id) case Some(scan) => Some(scan.sources) case None => None
  {
    if id in sources {
      return Some(sources);
    }
    if id !in orders {
      return None;
    }
    return Some(sources[id := orders[id].quantity]);
  }

  /** Takes one execution off a projected order, if the order could have had it. */
  method ReduceProjectedOrder(orders: Orders, id: OrderId, accountId: AccountId, side: Side, price: Price, lots: Quantity) returns (r: Option<Orders>)
    ensures r == Reduced(orders, id, accountId, side, price, lots)
  {
    if id !in orders {
      return None;
    }
    var order := orders[id];
    var priceIsEligible;
    match order.constraint {
      case Market => priceIsEligible := true;
      case Limit(limit) => priceIsEligible := if side == Buy then limit >= price else limit <= price;
    }
    if order.accountId != accountId || order.side != side || !priceIsEligible || lots > order.quantity {
      return None;
    }
    if lots == order.quantity {
      return Some(orders - {id});
    }
    return Some(orders[id := order.(quantity := order.quantity - lots)]);
  }

  method ProjectTrade(scan: UncrossScan, trade: CallAuctionTrade) returns (r: Option<UncrossScan>)
    ensures r == TradeProjected(scan, trade)
  {
    hide Reduced;
    var buySource := RememberSource(scan.orders, scan.sources, trade.buyOrderId);
    if buySource.None? {
      return None;
    }
    var sources := RememberSource(scan.orders, buySource.value, trade.sellOrderId);
    if sources.None? {
      return None;
    }
    var bought := ReduceProjectedOrder(scan.orders, trade.buyOrderId, trade.buyAccountId, Buy, trade.price, trade.quantity);
    if bought.None? {
      return None;
    }
    var sold := ReduceProjectedOrder(bought.value, trade.sellOrderId, trade.sellAccountId, Sell, trade.price, trade.quantity);
    if sold.None? {
      return None;
    }
    return Some(UncrossScan(sold.value, sources.value));
  }

  method ProjectRemainder(scan: UncrossScan, cancellation: CallAuctionCancellation) returns (r: Option<UncrossScan>)
    ensures r == RemainderProjected(scan, cancellation)
  {
    var id := cancellation.orderId;
    if id !in scan.orders {
      return None;
    }
    var order := scan.orders[id];
    var sourceQuantity := order.quantity;
    if id in scan.sources {
      sourceQuantity := scan.sources[id];
    }
    if order.accountId != cancellation.accountId || order.side != cancellation.side || order.constraint != cancellation.constraint
       || order.quantity != cancellation.quantity || cancellation.quantity + cancellation.executedQuantityLots != sourceQuantity {
      return None;
    }
    return Some(scan.(orders := scan.orders - {id}));
  }

  /** One pass over the body of a completed uncross. */
  method ProjectCheckpointUncross(orders: Orders, events: seq<CallAuctionEvent>) returns (r: Option<Orders>)
    requires events != []
    ensures var scan := UncrossProjected(orders, events, |events| - 1);
            r == if scan.Some? then Some(scan.value.orders) else None
  {
    hide TradeProjected, RemainderProjected;
    var scan := UncrossScan(orders, map[]);
    for k := 0 to |events| - 1
      invariant UncrossProjected(orders, events, k) == Some(scan)
    {
      var next: Option<UncrossScan> := None;
      match events[k].kind {
        case TradeExecuted(trade) => next := ProjectTrade(scan, trade);
        case RemainderCancelled(cancellation) => next := ProjectRemainder(scan, cancellation);
        case _ =>
      }
      if next.None? {
        ProjectionStops(orders, events, k + 1, |events| - 1);
        return None;
      }
      scan := next.value;
    }
    return Some(scan.orders);
  }

  // ----- what the first trades leave

  ghost function TradedBy(trades: seq<CallAuctionTrade>, n: nat, id: OrderId): nat
    requires n <= |trades|
  {
    if n == 0 then 0 else
    TradedBy(trades, n - 1, id) + if trades[n - 1].buyOrderId == id || trades[n - 1].sellOrderId == id then trades[n - 1].quantity else 0
  }

  lemma {:induction false} TradedBySplits(trades: seq<CallAuctionTrade>, n: nat, id: OrderId)
    requires n <= |trades|
    ensures TradedBy(trades, n, id) + TradedLots(trades[n..], id) == TradedLots(trades, id)
  {
    if n == 0 {
      assert trades[0..] == trades;
    } else {
      TradedBySplits(trades, n - 1, id);
      assert trades[n - 1..][1..] == trades[n..] && trades[n - 1..][0] == trades[n - 1];
    }
  }

  lemma {:induction false} TradedByGrows(trades: seq<CallAuctionTrade>, k: nat, n: nat, id: OrderId)
    requires k <= n <= |trades|
    ensures TradedBy(trades, k, id) <= TradedBy(trades, n, id)
  {
    if k < n { TradedByGrows(trades, k, n - 1, id); }
  }

  ghost function TradesApplied(active: Orders, trades: seq<CallAuctionTrade>, n: nat): Orders
    requires n <= |trades|
  {
    map id | id in active && TradedBy(trades, n, id) < active[id].quantity ::
      active[id].(quantity := active[id].quantity - TradedBy(trades, n, id))
  }

  ghost function SourcesOf(active: Orders, trades: seq<CallAuctionTrade>, n: nat): map<OrderId, Quantity>
    requires n <= |trades|
  {
    map id | id in active && TradedBy(trades, n, id) > 0 :: active[id].quantity
  }

  ghost function ScanAfter(active: Orders, trades: seq<CallAuctionTrade>, n: nat): UncrossScan
    requires n <= |trades|
  {
    UncrossScan(TradesApplied(active, trades, n), SourcesOf(active, trades, n))
  }

  /** A trade between an active buy and an active sell, both naming their accounts and accepting
      its price. */
  ghost predicate TradeIsSound(active: Orders, trade: CallAuctionTrade) {
    && trade.buyOrderId in active && trade.sellOrderId in active
    && var buy, sell := active[trade.buyOrderId], active[trade.sellOrderId];
       && buy.side == Buy && buy.accountId == trade.buyAccountId && PriceAdmits(Buy, buy.constraint, trade.price)
       && sell.side == Sell && sell.accountId == trade.sellAccountId && PriceAdmits(Sell, sell.constraint, trade.price)
  }

  /** Sound trades that never take more from an order than it has. */
  ghost predicate TradesAreSound(active: Orders, trades: seq<CallAuctionTrade>) {
    && (forall k {:trigger trades[k]} :: 0 <= k < |trades| ==> TradeIsSound(active, trades[k]))
    && forall id :: id in active ==> TradedBy(trades, |trades|, id) <= active[id].quantity
  }

  lemma AppliedIs(active: Orders, trades: seq<CallAuctionTrade>, n: nat, id: OrderId)
    requires n <= |trades|
    ensures id in TradesApplied(active, trades, n) <==> id in active && TradedBy(trades, n, id) < active[id].quantity
    ensures id in TradesApplied(active, trades, n) ==>
              TradesApplied(active, trades, n)[id] == active[id].(quantity := active[id].quantity - TradedBy(trades, n, id))
    ensures id in SourcesOf(active, trades, n) <==> id in active && TradedBy(trades, n, id) > 0
    ensures id in SourcesOf(active, trades, n) ==> SourcesOf(active, trades, n)[id] == active[id].quantity
  {
  }

  /** What one party's order looks like before and after trade `n`. */
  lemma PartyBefore(active: Orders, trades: seq<CallAuctionTrade>, n: nat, id: OrderId)
    requires TradesAreSound(active, trades) && n < |trades| && (trades[n].buyOrderId == id || trades[n].sellOrderId == id)
    ensures id in active && TradedBy(trades, n + 1, id) == TradedBy(trades, n, id) + trades[n].quantity <= active[id].quantity
    ensures id in TradesApplied(active, trades, n)
    ensures TradesApplied(active, trades, n)[id] == active[id].(quantity := active[id].quantity - TradedBy(trades, n, id))
    ensures id in SourcesOf(active, trades, n) || TradesApplied(active, trades, n)[id].quantity == active[id].quantity
  {
    assert TradeIsSound(active, trades[n]);
    TradedByGrows(trades, n + 1, |trades|, id);
    AppliedIs(active, trades, n, id);
  }

  /** One side of a trade on the projected orders. */
  lemma ReducedIs(orders: Orders, id: OrderId, side: Side, price: Price, lots: Quantity)
    requires id in orders && orders[id].side == side && PriceAdmits(side, orders[id].constraint, price) && lots <= orders[id].quantity
    ensures var r := Reduced(orders, id, orders[id].accountId, side, price, lots);
            && r.Some?
            && (forall other :: other in r.value <==> other in orders && (other == id ==> lots < orders[id].quantity))
            && forall other :: other in r.value ==>
                 r.value[other] == if other == id then orders[id].(quantity := orders[id].quantity - lots) else orders[other]
  {
    hide PriceAdmits;
  }

  lemma RememberIs(scan: UncrossScan, id: OrderId)
    requires id in scan.orders
    ensures var r := Remember(scan, id);
            && r.Some? && r.value.orders == scan.orders
            && (forall other :: other in r.value.sources <==> other in scan.sources || other == id)
            && forall other :: other in r.value.sources ==>
                 r.value.sources[other] == if other in scan.sources then scan.sources[other] else scan.orders[id].quantity
  {
  }

  ghost predicate IsParty(trade: CallAuctionTrade, id: OrderId) {
    trade.buyOrderId == id || trade.sellOrderId == id
  }

  /** One trade on the projected orders, order by order. */
  lemma TradeOutcome(scan: UncrossScan, trade: CallAuctionTrade)
    requires TradeIsSound(scan.orders, trade)
    requires trade.quantity <= scan.orders[trade.buyOrderId].quantity && trade.quantity <= scan.orders[trade.sellOrderId].quantity
    ensures var r := TradeProjected(scan, trade);
            && r.Some?
            && forall id :: ScanMoves(scan, trade, r.value, id)
  {
    var buy, sell := trade.buyOrderId, trade.sellOrderId;
    RememberIs(scan, buy);
    var first := Remember(scan, buy).value;
    RememberIs(first, sell);
    var both := Remember(first, sell).value;
    ReducedIs(both.orders, buy, Buy, trade.price, trade.quantity);
    ReducedIs(Reduced(both.orders, buy, trade.buyAccountId, Buy, trade.price, trade.quantity).value, sell, Sell, trade.price, trade.quantity);
    hide Remember, Reduced, PriceAdmits;
  }

  lemma TradeApplies(active: Orders, trades: seq<CallAuctionTrade>, n: nat)
    requires TradesAreSound(active, trades) && n < |trades|
    ensures TradeProjected(ScanAfter(active, trades, n), trades[n]) == Some(ScanAfter(active, trades, n + 1))
  {
    var trade, before := trades[n], ScanAfter(active, trades, n);
    PartyBefore(active, trades, n, trade.buyOrderId);
    PartyBefore(active, trades, n, trade.sellOrderId);
    assert TradeIsSound(before.orders, trade) by {
      assert TradeIsSound(active, trade);
      hide TradesApplied, SourcesOf, TradesAreSound, PriceAdmits;
    }
    TradeOutcome(before, trade);
    hide TradesApplied, SourcesOf, TradesAreSound, PriceAdmits, TradeProjected, TradeIsSound, ScanMoves, ScanAfter;
    var after := ScanAfter(active, trades, n + 1);
    forall id: OrderId ensures ScanMoves(before, trade, after, id) { ScanMovesAt(active, trades, n, id); }
    MovesAreFunctional(before, trade, TradeProjected(before, trade).value, after);
  }

  /** What trade `n` changes at one order. */
  ghost predicate ScanMoves(before: UncrossScan, trade: CallAuctionTrade, after: UncrossScan, id: OrderId) {
    && (id in after.orders <==> id in before.orders && (IsParty(trade, id) ==> trade.quantity < before.orders[id].quantity))
    && (id in after.orders ==>
          after.orders[id] == if IsParty(trade, id) then before.orders[id].(quantity := before.orders[id].quantity - trade.quantity) else before.orders[id])
    && (id in after.sources <==> id in before.sources || IsParty(trade, id))
    && (id in after.sources ==>
          (id in before.sources || id in before.orders)
          && after.sources[id] == if id in before.sources then before.sources[id] else before.orders[id].quantity)
  }

  lemma ScanMovesAt(active: Orders, trades: seq<CallAuctionTrade>, n: nat, id: OrderId)
    requires TradesAreSound(active, trades) && n < |trades|
    ensures ScanMoves(ScanAfter(active, trades, n), trades[n], ScanAfter(active, trades, n + 1), id)
  {
    if IsParty(trades[n], id) { PartyBefore(active, trades, n, id); }
    hide TradesAreSound, TradesApplied, SourcesOf;
    AppliedIs(active, trades, n, id);
    AppliedIs(active, trades, n + 1, id);
  }

  lemma MovesAreFunctional(before: UncrossScan, trade: CallAuctionTrade, a: UncrossScan, b: UncrossScan)
    requires forall id :: ScanMoves(before, trade, a, id) && ScanMoves(before, trade, b, id)
    ensures a == b
  {
    hide IsParty, ScanMoves;
    forall id: OrderId
      ensures (id in a.orders <==> id in b.orders) && (id in a.orders ==> a.orders[id] == b.orders[id])
      ensures (id in a.sources <==> id in b.sources) && (id in a.sources ==> a.sources[id] == b.sources[id])
    {
      assert ScanMoves(before, trade, a, id) && ScanMoves(before, trade, b, id);
      MovesAgree(before, trade, a, b, id);
    }
    assert a.orders == b.orders && a.sources == b.sources;
  }

  lemma MovesAgree(before: UncrossScan, trade: CallAuctionTrade, a: UncrossScan, b: UncrossScan, id: OrderId)
    requires ScanMoves(before, trade, a, id) && ScanMoves(before, trade, b, id)
    ensures (id in a.orders <==> id in b.orders) && (id in a.orders ==> a.orders[id] == b.orders[id])
    ensures (id in a.sources <==> id in b.sources) && (id in a.sources ==> a.sources[id] == b.sources[id])
  {
    hide IsParty;
  }

  lemma NoTrades(active: Orders, trades: seq<CallAuctionTrade>)
    ensures ScanAfter(active, trades, 0) == UncrossScan(active, map[])
  {
  }

  /** The first `n` events announce the first `n` trades. */
  ghost predicate Trading(events: seq<CallAuctionEvent>, trades: seq<CallAuctionTrade>) {
    && |trades| <= |events| && forall k {:trigger events[k]} :: 0 <= k < |trades| ==> events[k].kind == TradeExecuted(trades[k])
  }

  lemma {:induction false} TradesProject(active: Orders, events: seq<CallAuctionEvent>, trades: seq<CallAuctionTrade>, n: nat)
    requires TradesAreSound(active, trades) && Trading(events, trades) && n <= |trades|
    ensures UncrossProjected(active, events, n) == Some(ScanAfter(active, trades, n))
  {
    hide TradesAreSound, TradeProjected, ScanAfter;
    if n == 0 {
      NoTrades(active, trades);
    } else {
      TradesProject(active, events, trades, n - 1);
      TradeApplies(active, trades, n - 1);
    }
  }

  // ----- cancelled remainders

  /** The cancellation of what an order has left after all trades. */
  ghost predicate RemainderIsSound(active: Orders, trades: seq<CallAuctionTrade>, r: CallAuctionCancellation) {
    && r.orderId in active
    && var order, traded := active[r.orderId], TradedBy(trades, |trades|, r.orderId);
       && traded < order.quantity
       && r == CallAuctionCancellation(r.orderId, order.accountId, order.side, order.constraint, order.quantity - traded, traded)
  }

  ghost predicate RemaindersAreSound(active: Orders, trades: seq<CallAuctionTrade>, cancellations: seq<CallAuctionCancellation>) {
    && (forall k {:trigger cancellations[k]} :: 0 <= k < |cancellations| ==> RemainderIsSound(active, trades, cancellations[k]))
    && forall j, k :: 0 <= j < k < |cancellations| ==> cancellations[j].orderId != cancellations[k].orderId
  }

  lemma CancelledPrefix(cancellations: seq<CallAuctionCancellation>, n: nat, id: OrderId)
    requires n <= |cancellations|
    ensures id in CancelledIds(cancellations[..n]) <==> exists k :: 0 <= k < n && cancellations[k].orderId == id
  {
    var before := cancellations[..n];
    if id in CancelledIds(before) {
      var k :| 0 <= k < n && before[k].orderId == id;
      assert cancellations[k].orderId == id;
    }
    if k :| 0 <= k < n && cancellations[k].orderId == id { assert before[k].orderId == id; }
  }

  lemma RemainderApplies(active: Orders, trades: seq<CallAuctionTrade>, cancellations: seq<CallAuctionCancellation>, n: nat)
    requires RemaindersAreSound(active, trades, cancellations) && n < |cancellations|
    ensures var left, sources := TradesApplied(active, trades, |trades|), SourcesOf(active, trades, |trades|);
            RemainderProjected(UncrossScan(left - CancelledIds(cancellations[..n]), sources), cancellations[n])
            == Some(UncrossScan(left - CancelledIds(cancellations[..n + 1]), sources))
  {
    var left, r := TradesApplied(active, trades, |trades|), cancellations[n];
    assert RemainderIsSound(active, trades, r);
    AppliedIs(active, trades, |trades|, r.orderId);
    CancelledPrefix(cancellations, n, r.orderId);
    hide TradesApplied, SourcesOf;
    var now, next := left - CancelledIds(cancellations[..n]), left - CancelledIds(cancellations[..n + 1]);
    forall id: OrderId ensures id in now - {r.orderId} <==> id in next {
      CancelledPrefix(cancellations, n, id);
      CancelledPrefix(cancellations, n + 1, id);
    }
    hide CancelledIds;
    assert now - {r.orderId} == next;
  }

  ghost predicate Cancelling(events: seq<CallAuctionEvent>, start: nat, cancellations: seq<CallAuctionCancellation>) {
    && start + |cancellations| <= |events|
    && forall k {:trigger cancellations[k]} :: 0 <= k < |cancellations| ==> events[start + k].kind == CallAuctionEventKind.RemainderCancelled(cancellations[k])
  }

  lemma {:induction false} RemaindersProject(active: Orders, events: seq<CallAuctionEvent>, trades: seq<CallAuctionTrade>,
                                             cancellations: seq<CallAuctionCancellation>, n: nat)
    requires TradesAreSound(active, trades) && Trading(events, trades)
    requires RemaindersAreSound(active, trades, cancellations) && Cancelling(events, |trades|, cancellations) && n <= |cancellations|
    ensures UncrossProjected(active, events, |trades| + n) ==
              Some(UncrossScan(TradesApplied(active, trades, |trades|) - CancelledIds(cancellations[..n]), SourcesOf(active, trades, |trades|)))
  {
    hide TradesAreSound, RemaindersAreSound, TradeProjected, RemainderProjected, TradesApplied, SourcesOf, CancelledIds, Trading;
    if n == 0 {
      TradesProject(active, events, trades, |trades|);
      NothingGone(TradesApplied(active, trades, |trades|), cancellations);
    } else {
      RemaindersProject(active, events, trades, cancellations, n - 1);
      RemainderApplies(active, trades, cancellations, n - 1);
      assert events[|trades| + (n - 1)].kind == CallAuctionEventKind.RemainderCancelled(cancellations[n - 1]);
    }
  }

  lemma NothingGone(orders: Orders, cancellations: seq<CallAuctionCancellation>)
    ensures orders - CancelledIds(cancellations[..0]) == orders
  {
  }

  // ----- the uncross of a book

  lemma TradedIsExecuted(m: BookModel, c: AuctionClearing, allocation: AuctionAllocationPolicy, id: OrderId)
    requires ClearsAt(m, c) && TradeIdsFit(m, c, allocation) && id in m.active
    ensures TradedBy(PreparedTrades(m, c, allocation), |PreparedTrades(m, c, allocation)|, id) == Executed(m, c, allocation, id) <= m.active[id].quantity
  {
    hide ClearsAt, PairsOf, PreparedTrades, Executed;
    var trades := PreparedTrades(m, c, allocation);
    TradesCarryExecutions(m, c, allocation, id);
    ExecutedIsShare(m, c, allocation, id);
    TradedBySplits(trades, |trades|, id);
    assert trades[|trades|..] == [];
  }

  /** A party of a trade executed something, so it accepts the clearing price. */
  lemma PartyAccepts(m: BookModel, c: AuctionClearing, allocation: AuctionAllocationPolicy, k: nat, id: OrderId)
    requires ClearsAt(m, c) && TradeIdsFit(m, c, allocation) && k < |PreparedTrades(m, c, allocation)| && id in m.active
    requires PreparedTrades(m, c, allocation)[k].buyOrderId == id || PreparedTrades(m, c, allocation)[k].sellOrderId == id
    ensures PriceAdmits(m.active[id].side, m.active[id].constraint, c.price)
  {
    hide ClearsAt, PairsOf, PreparedTrades, Executed;
    var trades := PreparedTrades(m, c, allocation);
    TradedByGrows(trades, k + 1, |trades|, id);
    TradedIsExecuted(m, c, allocation, id);
    ExecutedIsShare(m, c, allocation, id);
  }

  lemma PreparedTradeIsSound(m: BookModel, c: AuctionClearing, allocation: AuctionAllocationPolicy, k: nat)
    requires ClearsAt(m, c) && TradeIdsFit(m, c, allocation) && k < |PreparedTrades(m, c, allocation)|
    ensures TradeIsSound(m.active, PreparedTrades(m, c, allocation)[k])
  {
    hide ClearsAt, PairsOf, PreparedTrades, SideFills, TradesOf, PriceAdmits, Pairs;
    PreparedTradesAre(m, c, allocation);
    var buys, sells, pairs := SideFills(m, Buy, c, allocation), SideFills(m, Sell, c, allocation), PairsOf(m, c, allocation);
    TradesAreContiguous(m.definition, m.active, c.price, buys, sells, pairs, m.nextTradeId);
    var trade := PreparedTrades(m, c, allocation)[k];
    assert trade == TradeOf(m.definition, m.active, c.price, buys, sells, pairs[k], m.nextTradeId + k);
    PartyAccepts(m, c, allocation, k, trade.buyOrderId);
    PartyAccepts(m, c, allocation, k, trade.sellOrderId);
  }

  /** Projecting the trades and cancellations of an uncross leaves exactly the uncrossed orders. */
  lemma UncrossProjects(m: BookModel, c: AuctionClearing, policy: CallAuctionUncrossPolicy, events: seq<CallAuctionEvent>)
    requires ClearsAt(m, c) && TradeIdsFit(m, c, policy.allocation)
    requires Trading(events, PreparedTrades(m, c, policy.allocation))
    requires Cancelling(events, |PreparedTrades(m, c, policy.allocation)|, Cancellations(m, c, policy))
    ensures var scan := UncrossProjected(m.active, events, |PreparedTrades(m, c, policy.allocation)| + |Cancellations(m, c, policy)|);
            scan.Some? && scan.value.orders == ActiveAfter(m, c, policy)
  {
    hide ClearsAt, PairsOf, PreparedTrades, Cancellations, Executed, ActiveAfter, TradeIsSound, Trading, Cancelling, UncrossProjected, TradesApplied,
      CancelledIds, TradedBy, CallAuctionRemainderPolicy.Cancels;
    var trades, cancellations := PreparedTrades(m, c, policy.allocation), Cancellations(m, c, policy);
    forall k | 0 <= k < |trades| ensures TradeIsSound(m.active, trades[k]) { PreparedTradeIsSound(m, c, policy.allocation, k); }
    forall id | id in m.active ensures TradedBy(trades, |trades|, id) <= m.active[id].quantity { TradedIsExecuted(m, c, policy.allocation, id); }
    CancellationsAreSound(m, c, policy);
    forall k | 0 <= k < |cancellations| ensures RemainderIsSound(m.active, trades, cancellations[k]) {
      assert CancellationIs(m, c, policy.allocation, cancellations[k]);
      TradedIsExecuted(m, c, policy.allocation, cancellations[k].orderId);
    }
    RemaindersProject(m.active, events, trades, cancellations, |cancellations|);
    assert cancellations[..|cancellations|] == cancellations;
    LeftIsActiveAfter(m, c, policy);
  }

  lemma LeftIsActiveAfter(m: BookModel, c: AuctionClearing, policy: CallAuctionUncrossPolicy)
    requires ClearsAt(m, c) && TradeIdsFit(m, c, policy.allocation)
    ensures var trades := PreparedTrades(m, c, policy.allocation);
            TradesApplied(m.active, trades, |trades|) - CancelledIds(Cancellations(m, c, policy)) == ActiveAfter(m, c, policy)
  {
    hide ClearsAt, PairsOf, PreparedTrades, Cancellations, Executed, ActiveAfter, TradesApplied, CancelledIds, TradedBy, SourcesOf,
      CallAuctionRemainderPolicy.Cancels;
    var trades := PreparedTrades(m, c, policy.allocation);
    var left := TradesApplied(m.active, trades, |trades|) - CancelledIds(Cancellations(m, c, policy));
    forall id: OrderId
      ensures id in left <==> id in ActiveAfter(m, c, policy)
      ensures id in left ==> left[id] == ActiveAfter(m, c, policy)[id]
    {
      AppliedIs(m.active, trades, |trades|, id);
      if id in m.active { TradedIsExecuted(m, c, policy.allocation, id); }
      CancelledIs(m, c, policy, id);
      RemainingOrder(m, c, policy, id);
    }
  }
}
