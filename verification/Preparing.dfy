/** Building and re-checking one uncross preparation: counterparty trades, remainder
    cancellations, and the audit a commit makes before it changes anything. */
module Preparing {
  import opened AbstractBook
  import opened Allocation
  import opened BookInterest
  import opened Domain
  import opened Pairing
  import opened RestingIndex
  import opened Uncross

  /** What pairing works on. */
  datatype Deal = Deal(definition: InstrumentDefinition, active: Active, price: Price, buys: Fills, sells: Fills, firstId: nat) {
    ghost predicate Matched() {
      && ActiveFills(active, buys, Buy) && ActiveFills(active, sells, Sell)
      && 1 <= firstId && buys != [] && sells != [] && LotsFrom(buys, 0) == LotsFrom(sells, 0)
    }

    ghost predicate Ready() {
      Matched() && firstId + |Pairs(buys, sells)| <= U64_MAX
    }

    ghost predicate InPairs(c: Cursor, done: nat) {
      && Ready() && Balanced(c, buys, sells) && WellPaired(PairsFrom(c, buys, sells), buys, sells)
      && done + |PairsFrom(c, buys, sells)| == |Pairs(buys, sells)|
    }

    /** The trades still to come from a cursor. */
    ghost function Rest(c: Cursor, done: nat): (trades: seq<CallAuctionTrade>)
      requires InPairs(c, done)
    {
      TradesOf(definition, active, price, buys, sells, PairsFrom(c, buys, sells), firstId + done)
    }

    ghost function Self(c: Cursor, done: nat): Option<Pair>
      requires InPairs(c, done)
    {
      FirstSelfPair(active, buys, sells, PairsFrom(c, buys, sells))
    }
  }

  lemma DealStarts(d: Deal)
    requires d.Ready()
    ensures d.InPairs(Start(d.buys, d.sells), 0)
  {
    StartIsBalanced(d.buys, d.sells);
    PairsAreInRange(Start(d.buys, d.sells), d.buys, d.sells);
  }

  /** The next pair is between active orders; its trade heads the trades still to come. */
  lemma DealNext(d: Deal, c: Cursor, done: nat)
    requires d.InPairs(c, done) && Live(c, d.buys, d.sells)
    ensures d.buys[c.buy].orderId in d.active && d.active[d.buys[c.buy].orderId].side == Buy
    ensures d.sells[c.sell].orderId in d.active && d.active[d.sells[c.sell].orderId].side == Sell
    ensures PairLots(c) >= 1 && 1 <= d.firstId + done < U64_MAX
    ensures d.InPairs(Advance(c, d.buys, d.sells), done + 1)
    ensures var pair := Pair(c.buy, c.sell, PairLots(c));
            && d.Rest(c, done) ==
                 [TradeOf(d.definition, d.active, d.price, d.buys, d.sells, pair, d.firstId + done)] + d.Rest(Advance(c, d.buys, d.sells), done + 1)
            && d.Self(c, done) == if SameAccount(d.active, d.buys, d.sells, pair) then Some(pair) else d.Self(Advance(c, d.buys, d.sells), done + 1)
  {
    AdvanceKeepsBalance(c, d.buys, d.sells);
    var next := Advance(c, d.buys, d.sells);
    PairsAreInRange(next, d.buys, d.sells);
    var pairs := PairsFrom(c, d.buys, d.sells);
    assert pairs[0] == Pair(c.buy, c.sell, PairLots(c)) && pairs[1..] == PairsFrom(next, d.buys, d.sells);
    hide Balanced, Advance, Pairs, LotsFrom;
  }

  lemma DealEnds(d: Deal, c: Cursor, done: nat)
    requires d.InPairs(c, done) && !Live(c, d.buys, d.sells)
    ensures Drained(c, d.buys, d.sells) && d.Rest(c, done) == [] && d.Self(c, done) == None && done == |Pairs(d.buys, d.sells)|
  {
    BalancedStop(c, d.buys, d.sells);
  }

  lemma SelfIsPair(d: Deal, c: Cursor, done: nat)
    requires d.InPairs(c, done) && d.Self(c, done).Some?
    ensures var pair := d.Self(c, done).value;
            && pair.buy < |d.buys| && pair.sell < |d.sells|
            && d.buys[pair.buy].orderId in d.active && d.sells[pair.sell].orderId in d.active
  {
    FirstSelfPairIsOne(d.active, d.buys, d.sells, PairsFrom(c, d.buys, d.sells));
  }

  /** What pairing gives: trade identities may run out, and `Abort` stops at the first self trade. */
  ghost function PairingOutcome(d: Deal, selfTrade: CallAuctionSelfTradePolicy): Result<(seq<CallAuctionTrade>, u64), CallAuctionPrepareError>
    requires d.Matched()
  {
    if d.firstId + |Pairs(d.buys, d.sells)| > U64_MAX then Err(TradeIdentifierExhausted)
    else
      var start := Start(d.buys, d.sells);
      DealStarts(d);
      if selfTrade == Abort && d.Self(start, 0).Some? then
        var pair := d.Self(start, 0).value;
        SelfIsPair(d, start, 0);
        Err(SelfTradeWouldOccur(d.active[d.buys[pair.buy].orderId].accountId, d.buys[pair.buy].orderId, d.sells[pair.sell].orderId, pair.lots))
      else Ok((d.Rest(start, 0), d.firstId + |Pairs(d.buys, d.sells)|))
  }

  lemma PairingOutcomeIs(d: Deal, selfTrade: CallAuctionSelfTradePolicy)
    requires d.Matched()
    ensures d.firstId + |Pairs(d.buys, d.sells)| > U64_MAX ==> PairingOutcome(d, selfTrade) == Err(TradeIdentifierExhausted)
    ensures d.firstId + |Pairs(d.buys, d.sells)| <= U64_MAX ==>
              && d.Ready() && d.InPairs(Start(d.buys, d.sells), 0)
              && (!(selfTrade == Abort && d.Self(Start(d.buys, d.sells), 0).Some?) ==>
                    PairingOutcome(d, selfTrade) == Ok((d.Rest(Start(d.buys, d.sells), 0), d.firstId + |Pairs(d.buys, d.sells)|)))
              && (selfTrade == Abort ==> forall pair :: d.Self(Start(d.buys, d.sells), 0) == Some(pair) ==>
                    && pair.buy < |d.buys| && pair.sell < |d.sells|
                    && d.buys[pair.buy].orderId in d.active
                    && PairingOutcome(d, selfTrade) ==
                         Err(SelfTradeWouldOccur(d.active[d.buys[pair.buy].orderId].accountId, d.buys[pair.buy].orderId, d.sells[pair.sell].orderId, pair.lots)))
  {
    if d.firstId + |Pairs(d.buys, d.sells)| <= U64_MAX {
      DealStarts(d);
      if d.Self(Start(d.buys, d.sells), 0).Some? { SelfIsPair(d, Start(d.buys, d.sells), 0); }
    }
  }

  /** Pairs the two fill lists into trades; under `Abort` the first self trade stops everything. */
  method PrepareTradePairs(definition: InstrumentDefinition, orders: Orders, price: Price, buys: Fills, sells: Fills,
                           nextTradeId: u64, selfTrade: CallAuctionSelfTradePolicy)
    returns (r: Result<(seq<CallAuctionTrade>, u64), CallAuctionPrepareError>)
    requires Deal(definition, ActiveOf(orders), price, buys, sells, nextTradeId).Matched()
    ensures r == PairingOutcome(Deal(definition, ActiveOf(orders), price, buys, sells, nextTradeId), selfTrade)
  {
    hide *;
    var count := RequiredPairCount(buys, sells);
    ghost var d := Deal(definition, ActiveOf(orders), price, buys, sells, nextTradeId);
    DealIsMatched(d);
    PairingOutcomeIs(d, selfTrade);
    if count.None? {
      return Err(PrepareInvariantViolation);
    }
    if nextTradeId + count.value > U64_MAX {
      return Err(TradeIdentifierExhausted);
    }
    var c, trades: seq<CallAuctionTrade> := Start(buys, sells), [];
    LiveIs(c, buys, sells);
    while c.buy < |buys| && c.sell < |sells|
      invariant d.InPairs(c, |trades|) && trades + d.Rest(c, |trades|) == d.Rest(Start(buys, sells), 0)
      invariant selfTrade == Abort ==> d.Self(c, |trades|) == d.Self(Start(buys, sells), 0)
      decreases |d.Rest(c, |trades|)|
    {
      LiveIs(c, buys, sells);
      DealNext(d, c, |trades|);
      var quantityLots := PairLots(c);
      var buyOrderId, sellOrderId := buys[c.buy].orderId, sells[c.sell].orderId;
      if buyOrderId !in orders || sellOrderId !in orders {
        assert false;
        return Err(PrepareInvariantViolation);
      }
      OrderAt(orders, buyOrderId);
      OrderAt(orders, sellOrderId);
      var buyOrder, sellOrder := orders[buyOrderId].order, orders[sellOrderId].order;
      if buyOrder.side != Buy || sellOrder.side != Sell || quantityLots == 0 {
        assert false;
        return Err(PrepareInvariantViolation);
      }
      ghost var pair := Pair(c.buy, c.sell, quantityLots);
      TradeIs(d, pair, nextTradeId + |trades|);
      if selfTrade == Abort && buyOrder.accountId == sellOrder.accountId {
        return Err(SelfTradeWouldOccur(buyOrder.accountId, buyOrderId, sellOrderId, quantityLots));
      }
      var trade := CallAuctionTrade(nextTradeId + |trades|, definition.instrumentId, definition.version, buyOrderId, buyOrder.accountId,
                                    sellOrderId, sellOrder.accountId, price, quantityLots);
      assert trades + d.Rest(c, |trades|) == trades + [trade] + d.Rest(Advance(c, buys, sells), |trades| + 1);
      trades := trades + [trade];
      c := Advance(c, buys, sells);
    }
    LiveIs(c, buys, sells);
    DealEnds(d, c, |trades|);
    assert trades + [] == trades;
    DrainedIs(c, buys, sells);
    if |trades| != count.value || c.buy != |buys| || c.sell != |sells| || c.buyLeft != 0 || c.sellLeft != 0 {
      assert false;
      return Err(PrepareInvariantViolation);
    }
    return Ok((trades, nextTradeId + count.value));
  }

  lemma DealIsMatched(d: Deal)
    ensures d.Matched() ==> d.buys != [] && d.sells != [] && LotsFrom(d.buys, 0) == LotsFrom(d.sells, 0)
  {
  }

  lemma LiveIs(c: Cursor, buys: Fills, sells: Fills)
    ensures Live(c, buys, sells) <==> c.buy < |buys| && c.sell < |sells|
  {
  }

  lemma DrainedIs(c: Cursor, buys: Fills, sells: Fills)
    ensures Drained(c, buys, sells) <==> c == Cursor(|buys|, |sells|, 0, 0)
  {
  }

  lemma TradeIs(d: Deal, pair: Pair, id: nat)
    requires pair.buy < |d.buys| && pair.sell < |d.sells| && 1 <= id <= U64_MAX
    requires d.buys[pair.buy].orderId in d.active && d.sells[pair.sell].orderId in d.active
    ensures TradeOf(d.definition, d.active, d.price, d.buys, d.sells, pair, id) ==
              CallAuctionTrade(id, d.definition.instrumentId, d.definition.version,
                               d.buys[pair.buy].orderId, d.active[d.buys[pair.buy].orderId].accountId,
                               d.sells[pair.sell].orderId, d.active[d.sells[pair.sell].orderId].accountId, d.price, pair.lots)
    ensures SameAccount(d.active, d.buys, d.sells, pair) <==>
              d.active[d.buys[pair.buy].orderId].accountId == d.active[d.sells[pair.sell].orderId].accountId
  {
  }

  // ----- remainder cancellations

  lemma {:induction false} FillsPrefix(orders: seq<AuctionOrder>, shares: seq<nat>, k: nat, n: nat)
    requires k <= n <= |orders| && WithinLeaves(shares, orders)
    ensures |FillsOf(orders, shares, k)| <= |FillsOf(orders, shares, n)|
    ensures FillsOf(orders, shares, n)[..|FillsOf(orders, shares, k)|] == FillsOf(orders, shares, k)
  {
    if k == n {
      assert FillsOf(orders, shares, n)[..|FillsOf(orders, shares, n)|] == FillsOf(orders, shares, n);
    } else {
      FillsPrefix(orders, shares, k, n - 1);
      var at := |FillsOf(orders, shares, k)|;
      assert FillsOf(orders, shares, n)[..at] == FillsOf(orders, shares, n - 1)[..at];
    }
  }

  /** `fills` is the whole fill list of a side, read up to the orders before `source`. */
  ghost predicate ReadUpTo(fills: Fills, orders: seq<AuctionOrder>, shares: seq<nat>, source: nat, fillIndex: nat) {
    && WithinLeaves(shares, orders) && source <= |orders|
    && fills == FillsOf(orders, shares, |orders|) && fillIndex == |FillsOf(orders, shares, source)|
  }

  lemma NextSource(fills: Fills, orders: seq<AuctionOrder>, shares: seq<nat>, source: nat, fillIndex: nat)
    requires ReadUpTo(fills, orders, shares, source, fillIndex) && source < |orders|
    ensures fillIndex <= |fills| && (fillIndex < |fills| ==> fills[fillIndex].sourceIndex >= source)
    ensures if shares[source] > 0
            then fillIndex < |fills| && fills[fillIndex].sourceIndex == source && fills[fillIndex].quantityLots == shares[source]
                 && ReadUpTo(fills, orders, shares, source + 1, fillIndex + 1)
            else (fillIndex < |fills| ==> fills[fillIndex].sourceIndex > source) && ReadUpTo(fills, orders, shares, source + 1, fillIndex)
  {
    FillsPrefix(orders, shares, source, |orders|);
    FillsPrefix(orders, shares, source + 1, |orders|);
    FillsOfSources(orders, shares, |orders|);
    FillsOfSources(orders, shares, source + 1);
    var before, after := FillsOf(orders, shares, source), FillsOf(orders, shares, source + 1);
    assert after == before + if shares[source] > 0 then [AuctionOrderFill(source, orders[source].orderId, shares[source])] else [];
    hide FillsOf;
    if shares[source] > 0 {
      assert fills[fillIndex] == fills[..|after|][fillIndex] == after[fillIndex];
    } else {
      assert after == before;
      if fillIndex < |fills| {
        LaterFill(fills, orders, shares, source + 1, fillIndex);
      }
    }
  }

  lemma {:induction false} LaterFill(fills: Fills, orders: seq<AuctionOrder>, shares: seq<nat>, source: nat, at: nat)
    requires WithinLeaves(shares, orders) && source <= |orders| && fills == FillsOf(orders, shares, |orders|)
    requires |FillsOf(orders, shares, source)| <= at < |fills|
    ensures fills[at].sourceIndex >= source
  {
    LaterFillUpTo(orders, shares, source, |orders|, at);
  }

  lemma {:induction false} LaterFillUpTo(orders: seq<AuctionOrder>, shares: seq<nat>, source: nat, n: nat, at: nat)
    requires WithinLeaves(shares, orders) && source <= n <= |orders|
    requires |FillsOf(orders, shares, source)| <= at < |FillsOf(orders, shares, n)|
    ensures FillsOf(orders, shares, n)[at].sourceIndex >= source
    decreases n
  {
    if n > source {
      var before := FillsOf(orders, shares, n - 1);
      if at < |before| {
        LaterFillUpTo(orders, shares, source, n - 1, at);
        assert FillsOf(orders, shares, n)[at] == before[at];
      }
    }
  }

  /** The lots filled for one source position; the cursor only moves forward. */
  method FillQuantityForSource(sourceIndex: nat, fills: Fills, fillIndex0: nat, ghost orders: seq<AuctionOrder>, ghost shares: seq<nat>)
    returns (lots: u64, fillIndex: nat)
    requires ReadUpTo(fills, orders, shares, sourceIndex, fillIndex0) && sourceIndex < |orders|
    ensures lots == shares[sourceIndex] <= orders[sourceIndex].quantity && ReadUpTo(fills, orders, shares, sourceIndex + 1, fillIndex)
  {
    hide *;
    fillIndex := fillIndex0;
    while fillIndex < |fills| && fills[fillIndex].sourceIndex < sourceIndex
      invariant fillIndex0 <= fillIndex
      invariant forall k {:trigger fills[k]} :: fillIndex0 <= k < fillIndex && k < |fills| ==> fills[k].sourceIndex < sourceIndex
      invariant fillIndex0 <= |fills| ==> fillIndex <= |fills|
      decreases |fills| - fillIndex
    {
      fillIndex := fillIndex + 1;
    }
    NextSource(fills, orders, shares, sourceIndex, fillIndex0);
    SharesFit(fills, orders, shares, sourceIndex, fillIndex0);
    if fillIndex < |fills| && fills[fillIndex].sourceIndex == sourceIndex {
      return fills[fillIndex].quantityLots, fillIndex + 1;
    }
    return 0, fillIndex;
  }

  lemma SharesFit(fills: Fills, orders: seq<AuctionOrder>, shares: seq<nat>, source: nat, fillIndex: nat)
    requires ReadUpTo(fills, orders, shares, source, fillIndex) && source < |orders|
    ensures |shares| == |orders| && shares[source] <= orders[source].quantity
  {
  }

  /** Cancels, in source order, every positive remainder the policy selects. */
  method AppendRemainderCancellations(auctionOrders: seq<AuctionOrder>, fills: Fills, policy: CallAuctionRemainderPolicy, orders: Orders,
                                      output0: seq<CallAuctionCancellation>, ghost shares: seq<nat>)
    returns (ok: bool, output: seq<CallAuctionCancellation>)
    requires WithinLeaves(shares, auctionOrders) && RestingOrders(ActiveOf(orders), auctionOrders)
    requires fills == FillsOf(auctionOrders, shares, |auctionOrders|)
    ensures ok && output == output0 + Remainders(ActiveOf(orders), auctionOrders, shares, policy, |auctionOrders|)
    ensures CancelledIds(output[|output0|..]) == SelectedRemainders(auctionOrders, shares, policy, |auctionOrders|)
  {
    hide FillsOf, RestingOrders, WithinLeaves, CallAuctionRemainderPolicy.Cancels, ActiveOf, Remainders, CancelledIds, SelectedRemainders;
    ghost var active := ActiveOf(orders);
    NoRemainders(active, auctionOrders, shares, policy);
    WithinIs(shares, auctionOrders);
    output := output0;
    var fillIndex: nat := 0;
    NothingRead(fills, auctionOrders, shares);
    for orderIndex := 0 to |auctionOrders|
      invariant ReadUpTo(fills, auctionOrders, shares, orderIndex, fillIndex)
      invariant output == output0 + Remainders(active, auctionOrders, shares, policy, orderIndex)
    {
      var executedQuantityLots, next := FillQuantityForSource(orderIndex, fills, fillIndex, auctionOrders, shares);
      fillIndex := next;
      RestingAt(active, auctionOrders, orderIndex);
      RemainderNext(active, auctionOrders, shares, policy, orderIndex);
      var auctionOrder := auctionOrders[orderIndex];
      if executedQuantityLots > auctionOrder.quantity {
        assert false;
        return false, output;
      }
      var remainingLots := auctionOrder.quantity - executedQuantityLots;
      if remainingLots != 0 && policy.Cancels(auctionOrder.constraint) {
        OrderAt(orders, auctionOrder.orderId);
        var order := orders[auctionOrder.orderId].order;
        if order.constraint != auctionOrder.constraint || order.quantity != auctionOrder.quantity {
          assert false;
          return false, output;
        }
        output := output + [CallAuctionCancellation(order.orderId, order.accountId, order.side, order.constraint, remainingLots, executedQuantityLots)];
      }
    }
    RemaindersBySelection(active, auctionOrders, shares, policy, |auctionOrders|);
    assert output[|output0|..] == Remainders(active, auctionOrders, shares, policy, |auctionOrders|);
    return true, output;
  }

  lemma NothingRead(fills: Fills, orders: seq<AuctionOrder>, shares: seq<nat>)
    requires WithinLeaves(shares, orders) && fills == FillsOf(orders, shares, |orders|)
    ensures ReadUpTo(fills, orders, shares, 0, 0)
  {
  }

  lemma RestingAt(active: Active, orders: seq<AuctionOrder>, i: nat)
    requires RestingOrders(active, orders) && i < |orders|
    ensures orders[i].orderId in active && orders[i] == AsAuctionOrder(active[orders[i].orderId])
  {
  }

  lemma RemainderNext(active: Active, orders: seq<AuctionOrder>, shares: seq<nat>, policy: CallAuctionRemainderPolicy, n: nat)
    requires n < |orders| && WithinLeaves(shares, orders) && RestingOrders(active, orders)
    ensures |shares| == |orders| && orders[n].orderId in active && active[orders[n].orderId].quantity == orders[n].quantity
    ensures Remainders(active, orders, shares, policy, n + 1) ==
              if shares[n] < orders[n].quantity && policy.Cancels(orders[n].constraint)
              then Remainders(active, orders, shares, policy, n) + [RemainderOf(active[orders[n].orderId], shares[n])]
              else Remainders(active, orders, shares, policy, n)
  {
  }

  // ----- the audit before a commit

  /** A fill is of a listed order that is still active on its side with the listed terms, within
      its leaves. */
  ghost predicate FillMatches(fill: AuctionOrderFill, side: Side, listed: seq<AuctionOrder>, orders: Orders) {
    && fill.sourceIndex < |listed| && listed[fill.sourceIndex].orderId == fill.orderId && fill.orderId in orders
    && var order := orders[fill.orderId].order;
       && order.side == side && fill.quantityLots <= order.quantity
       && listed[fill.sourceIndex].constraint == order.constraint && listed[fill.sourceIndex].quantity == order.quantity
  }

  ghost predicate FillsMatch(fills: Fills, side: Side, listed: seq<AuctionOrder>, orders: Orders) {
    && (forall k {:trigger fills[k]} :: 0 <= k < |fills| ==> FillMatches(fills[k], side, listed, orders))
    && (forall j, k :: 0 <= j < k < |fills| ==> fills[j].sourceIndex < fills[k].sourceIndex)
  }

  /** Fills are accepted exactly when they match the active orders, in list order. */
  method ValidatePreparedFills(fills: Fills, side: Side, auctionOrders: seq<AuctionOrder>, orders: Orders) returns (ok: bool)
    ensures ok <==> FillsMatch(fills, side, auctionOrders, orders)
  {
    var previous: Option<nat> := None;
    for k := 0 to |fills|
      invariant previous == if k == 0 then None else Some(fills[k - 1].sourceIndex)
      invariant FillsMatch(fills[..k], side, auctionOrders, orders)
    {
      var fill := fills[k];
      assert fills[..k + 1] == fills[..k] + [fill];
      if previous.Some? && previous.value >= fill.sourceIndex {
        return false;
      }
      if fill.sourceIndex >= |auctionOrders| || fill.orderId !in orders {
        return false;
      }
      var auctionOrder, order := auctionOrders[fill.sourceIndex], orders[fill.orderId].order;
      if auctionOrder.orderId != fill.orderId || auctionOrder.constraint != order.constraint || auctionOrder.quantity != order.quantity
         || order.side != side || fill.quantityLots > order.quantity {
        return false;
      }
      assert k > 0 ==> fills[..k][k - 1].sourceIndex < fill.sourceIndex;
      previous := Some(fill.sourceIndex);
    }
    assert fills[..|fills|] == fills;
    return true;
  }

  /** The trades agree on everything a commit compares; the instrument binding is not compared. */
  ghost predicate SameDeal(a: CallAuctionTrade, b: CallAuctionTrade) {
    a == b.(instrumentId := a.instrumentId, instrumentVersion := a.instrumentVersion)
  }

  ghost predicate SameDeals(trades: seq<CallAuctionTrade>, canonical: seq<CallAuctionTrade>) {
    |trades| == |canonical| && forall k {:trigger trades[k]} :: 0 <= k < |trades| ==> SameDeal(trades[k], canonical[k])
  }

  lemma SameDealsAre(trades: seq<CallAuctionTrade>, canonical: seq<CallAuctionTrade>)
    ensures SameDeals(trades, trades)
    ensures SameDeals(trades, canonical) ==> |trades| == |canonical|
    ensures SameDeals([], [])
    ensures trades != [] && canonical != [] ==>
              (SameDeals(trades, canonical) <==> SameDeal(trades[0], canonical[0]) && SameDeals(trades[1..], canonical[1..]))
  {
    if trades != [] && canonical != [] && SameDeal(trades[0], canonical[0]) && SameDeals(trades[1..], canonical[1..]) {
      forall k | 0 <= k < |trades| ensures SameDeal(trades[k], canonical[k]) {
        if k > 0 { assert trades[1..][k - 1] == trades[k]; }
      }
    }
  }

  /** Trades are accepted exactly when they are the canonical pairing of the plan's fills, numbered
      from the current identity and between the same accounts, for the whole executable quantity. */
  method ValidatePreparedTrades(orders: Orders, price: Price, buys: Fills, sells: Fills, trades: seq<CallAuctionTrade>,
                                firstId: u64, nextTradeId: u64, executable: u128, ghost definition: InstrumentDefinition)
    returns (ok: bool)
    requires var d := Deal(definition, ActiveOf(orders), price, buys, sells, firstId); d.Ready() && d.InPairs(Start(buys, sells), 0)
    ensures ok <==>
              && SameDeals(trades, Deal(definition, ActiveOf(orders), price, buys, sells, firstId).Rest(Start(buys, sells), 0))
              && nextTradeId == firstId + |Pairs(buys, sells)| && executable == LotsFrom(buys, 0)
  {
    hide *;
    ghost var d := Deal(definition, ActiveOf(orders), price, buys, sells, firstId);
    ghost var canonical := d.Rest(Start(buys, sells), 0);
    DealIsMatched(d);
    ReadyIs(d);
    RestLength(d, Start(buys, sells), 0);
    StartOutstanding(buys, sells);
    SameDealsAre(trades, canonical);
    var count := RequiredPairCount(buys, sells);
    if count.None? || |trades| != count.value {
      return false;
    }
    var c, pairedQuantity: u128 := Start(buys, sells), 0;
    for index := 0 to |trades|
      invariant d.InPairs(c, index) && (SameDeals(trades, canonical) <==> SameDeals(trades[index..], d.Rest(c, index)))
      invariant pairedQuantity + Outstanding(buys, c.buy, c.buyLeft) == LotsFrom(buys, 0)
    {
      RestLength(d, c, index);
      LiveIs(c, buys, sells);
      SameDealsAre(trades[index..], d.Rest(c, index));
      if c.buy >= |buys| || c.sell >= |sells| {
        return false;
      }
      DealNext(d, c, index);
      var pair := Pair(c.buy, c.sell, PairLots(c));
      var trade := trades[index];
      TradeIs(d, pair, firstId + index);
      SameDealIs(trade, d.Rest(c, index)[0]);
      assert trade == trades[index..][0] && trades[index..][1..] == trades[index + 1..];
      if trade.buyOrderId !in orders || trade.sellOrderId !in orders {
        return false;
      }
      OrderAt(orders, trade.buyOrderId);
      OrderAt(orders, trade.sellOrderId);
      var buyOrder, sellOrder := orders[trade.buyOrderId].order, orders[trade.sellOrderId].order;
      if trade.tradeId != firstId + index || trade.price != price || trade.buyOrderId != buys[c.buy].orderId || trade.sellOrderId != sells[c.sell].orderId
         || trade.quantity != PairLots(c) || buyOrder.side != Buy || sellOrder.side != Sell
         || buyOrder.accountId != trade.buyAccountId || sellOrder.accountId != trade.sellAccountId {
        return false;
      }
      OutstandingNext(d, c, index);
      if pairedQuantity + trade.quantity > U128_MAX {
        return false;
      }
      pairedQuantity := pairedQuantity + trade.quantity;
      c := Advance(c, buys, sells);
    }
    RestLength(d, c, |trades|);
    LiveIs(c, buys, sells);
    DealEnds(d, c, |trades|);
    DrainedIs(c, buys, sells);
    OutstandingEnds(buys, c);
    assert trades[|trades|..] == [];
    SameDealsAre([], []);
    ok := firstId + |trades| == nextTradeId && pairedQuantity == executable && c.buy == |buys| && c.sell == |sells| && c.buyLeft == 0 && c.sellLeft == 0;
  }

  lemma SameDealIs(a: CallAuctionTrade, b: CallAuctionTrade)
    ensures SameDeal(a, b) <==>
              && a.tradeId == b.tradeId && a.price == b.price && a.quantity == b.quantity
              && a.buyOrderId == b.buyOrderId && a.buyAccountId == b.buyAccountId && a.sellOrderId == b.sellOrderId && a.sellAccountId == b.sellAccountId
  {
  }

  lemma ReadyIs(d: Deal)
    ensures d.Ready() <==> d.Matched() && d.firstId + |Pairs(d.buys, d.sells)| <= U64_MAX
  {
  }

  lemma RestLength(d: Deal, c: Cursor, done: nat)
    requires d.InPairs(c, done)
    ensures |d.Rest(c, done)| == |Pairs(d.buys, d.sells)| - done
    ensures |d.Rest(c, done)| > 0 <==> Live(c, d.buys, d.sells)
  {
    TradesHaveLength(d.definition, d.active, d.price, d.buys, d.sells, PairsFrom(c, d.buys, d.sells), d.firstId + done);
    if Live(c, d.buys, d.sells) { AdvanceKeepsBalance(c, d.buys, d.sells); }
  }

  lemma {:induction false} TradesHaveLength(definition: InstrumentDefinition, active: Active, price: Price, buys: Fills, sells: Fills, pairs: seq<Pair>, firstId: nat)
    requires WellPaired(pairs, buys, sells) && ActiveFills(active, buys, Buy) && ActiveFills(active, sells, Sell)
    requires 1 <= firstId && firstId + |pairs| <= U64_MAX
    ensures |TradesOf(definition, active, price, buys, sells, pairs, firstId)| == |pairs|
  {
    if pairs != [] {
      TradesHaveLength(definition, active, price, buys, sells, pairs[1..], firstId + 1);
    }
  }

  lemma StartOutstanding(buys: Fills, sells: Fills)
    ensures Outstanding(buys, Start(buys, sells).buy, Start(buys, sells).buyLeft) == LotsFrom(buys, 0)
  {
  }

  lemma OutstandingNext(d: Deal, c: Cursor, done: nat)
    requires d.InPairs(c, done) && Live(c, d.buys, d.sells)
    ensures var next := Advance(c, d.buys, d.sells);
            Outstanding(d.buys, c.buy, c.buyLeft) == PairLots(c) + Outstanding(d.buys, next.buy, next.buyLeft)
  {
    AdvanceConsumes(c, d.buys, d.sells, 1);
  }

  lemma OutstandingEnds(buys: Fills, c: Cursor)
    requires c.buy >= |buys|
    ensures Outstanding(buys, c.buy, c.buyLeft) == 0
  {
  }

  /** Cancellations are accepted exactly when the selected remainders of the side, in source order,
      stand at the index reached so far; the index moves past them. */
  method ValidatePreparedSideCancellations(auctionOrders: seq<AuctionOrder>, fills: Fills, policy: CallAuctionRemainderPolicy, orders: Orders,
                                           cancellations: seq<CallAuctionCancellation>, index0: nat, ghost shares: seq<nat>)
    returns (ok: bool, index: nat)
    requires WithinLeaves(shares, auctionOrders) && RestingOrders(ActiveOf(orders), auctionOrders)
    requires fills == FillsOf(auctionOrders, shares, |auctionOrders|) && index0 <= |cancellations|
    ensures ok <==> Remainders(ActiveOf(orders), auctionOrders, shares, policy, |auctionOrders|) <= cancellations[index0..]
    ensures ok ==> index == index0 + |Remainders(ActiveOf(orders), auctionOrders, shares, policy, |auctionOrders|)| <= |cancellations|
  {
    hide FillsOf, RestingOrders, WithinLeaves, CallAuctionRemainderPolicy.Cancels, ActiveOf, Remainders;
    ghost var active := ActiveOf(orders);
    ghost var all := Remainders(active, auctionOrders, shares, policy, |auctionOrders|);
    index := index0;
    var fillIndex: nat := 0;
    NothingRead(fills, auctionOrders, shares);
    NoRemainders(active, auctionOrders, shares, policy);
    for source := 0 to |auctionOrders|
      invariant ReadUpTo(fills, auctionOrders, shares, source, fillIndex)
      invariant index == index0 + |Remainders(active, auctionOrders, shares, policy, source)| <= |cancellations|
      invariant Remainders(active, auctionOrders, shares, policy, source) == cancellations[index0..index]
    {
      var executedQuantityLots, next := FillQuantityForSource(source, fills, fillIndex, auctionOrders, shares);
      fillIndex := next;
      RestingAt(active, auctionOrders, source);
      RemainderNext(active, auctionOrders, shares, policy, source);
      RemaindersPrefix(active, auctionOrders, shares, policy, source + 1, |auctionOrders|);
      var auctionOrder := auctionOrders[source];
      if executedQuantityLots > auctionOrder.quantity {
        return false, index;
      }
      var remainingLots := auctionOrder.quantity - executedQuantityLots;
      if remainingLots != 0 && policy.Cancels(auctionOrder.constraint) {
        ghost var done := index - index0;
        assert done < |all| && all[done] == all[..done + 1][done] == RemainderOf(active[auctionOrder.orderId], shares[source]);
        if index >= |cancellations| || auctionOrder.orderId !in orders {
          return false, index;
        }
        var cancellation := cancellations[index];
        OrderAt(orders, auctionOrder.orderId);
        assert cancellation == cancellations[index0..][done];
        var order := orders[auctionOrder.orderId].order;
        if cancellation.orderId != auctionOrder.orderId || cancellation.quantity != remainingLots || cancellation.executedQuantityLots != executedQuantityLots
           || order.accountId != cancellation.accountId || order.side != cancellation.side || order.constraint != cancellation.constraint
           || order.constraint != auctionOrder.constraint || order.quantity != auctionOrder.quantity {
          return false, index;
        }
        index := index + 1;
      }
    }
    return true, index;
  }

  lemma WithinIs(shares: seq<nat>, orders: seq<AuctionOrder>)
    requires WithinLeaves(shares, orders)
    ensures |shares| == |orders|
  {
  }

  lemma NoRemainders(active: Active, orders: seq<AuctionOrder>, shares: seq<nat>, policy: CallAuctionRemainderPolicy)
    requires WithinLeaves(shares, orders) && RestingOrders(active, orders)
    ensures Remainders(active, orders, shares, policy, 0) == []
  {
  }

  lemma {:induction false} RemaindersPrefix(active: Active, orders: seq<AuctionOrder>, shares: seq<nat>, policy: CallAuctionRemainderPolicy, k: nat, n: nat)
    requires k <= n <= |orders| && WithinLeaves(shares, orders) && RestingOrders(active, orders)
    ensures |Remainders(active, orders, shares, policy, k)| <= |Remainders(active, orders, shares, policy, n)|
    ensures Remainders(active, orders, shares, policy, n)[..|Remainders(active, orders, shares, policy, k)|] == Remainders(active, orders, shares, policy, k)
  {
    var at := |Remainders(active, orders, shares, policy, k)|;
    if k == n {
      assert Remainders(active, orders, shares, policy, n)[..at] == Remainders(active, orders, shares, policy, n);
    } else {
      RemaindersPrefix(active, orders, shares, policy, k, n - 1);
      RemainderNext(active, orders, shares, policy, n - 1);
      hide Remainders, RestingOrders, WithinLeaves, CallAuctionRemainderPolicy.Cancels;
      assert Remainders(active, orders, shares, policy, n)[..at] == Remainders(active, orders, shares, policy, n - 1)[..at];
    }
  }
}
