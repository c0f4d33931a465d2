/** The collection book: orders linked in price queues and account lanes, updated in place, and
    proved to behave as the plain map of orders. */
module AuctionBook {
  import opened Allocation
  import opened Ascending
  import opened BookInterest
  import opened AbstractBook
  import opened Chains
  import opened Clearing
  import opened Discovery
  import opened Domain
  import opened MassCancellation
  import opened Pairing
  import opened Preparing
  import opened RestingIndex
  import opened SetSums
  import opened Uncross
  import opened UncrossLaws
  import opened UncrossSteps

  class CallAuctionBook {
    const instanceId: nat
    const definition: InstrumentDefinition
    const limits: CallAuctionBookLimits
    var orders: Orders
    var accountOrders: Accounts
    var seenOrderIds: set<OrderId>
    var queues: PriceIndex
    var nextPrioritySequence: u64
    var nextTradeId: u64
    var stateRevision: u64
    var availableLeases: usize
    var buyOrderScratch: seq<AuctionOrder>
    var sellOrderScratch: seq<AuctionOrder>

    /** Tokens handed out so far; only this book creates tokens that carry its instance. */
    ghost var indicated: set<CallAuctionIndicative>
    ghost var issued: set<PreparedCallAuctionUncross>

    /** Preparations that still hold their lease, committed or not. */
    ghost var leased: multiset<PreparedCallAuctionUncross>

    ghost function Model(): BookModel
      reads this
    {
      BookModel(definition, limits, ActiveOf(orders), seenOrderIds, nextPrioritySequence, nextTradeId, stateRevision)
    }

    /** Both indexes agree with the active orders, which obey every rule of the book. */
    ghost predicate Sound()
      reads this
    {
      && Model().Valid()
      && PriceIndexed(PriceChain(orders), queues)
      && AccountIndexed(LaneChain(orders), accountOrders)
    }

    /** Every lease is free or held. */
    ghost predicate LeasesAgree()
      reads this
    {
      availableLeases + |leased| == limits.maxPreparedUncrosses
    }

    /** Between operations, tokens of the current revision fit the current book. */
    ghost predicate Valid()
      reads this
    {
      Sound() && LeasesAgree() && TokensFit(Model(), instanceId, indicated, issued, buyOrderScratch, sellOrderScratch)
    }

    lemma Unfold()
      ensures Valid() <==> Sound() && LeasesAgree() && TokensFit(Model(), instanceId, indicated, issued, buyOrderScratch, sellOrderScratch)
      ensures LeasesAgree() <==> availableLeases + |leased| == limits.maxPreparedUncrosses
      ensures Sound() <==> Model().Valid() && PriceIndexed(PriceChain(orders), queues) && AccountIndexed(LaneChain(orders), accountOrders)
      ensures Model() == BookModel(definition, limits, ActiveOf(orders), seenOrderIds, nextPrioritySequence, nextTradeId, stateRevision)
    {
    }

    constructor (instanceId: nat, definition: InstrumentDefinition, limits: CallAuctionBookLimits)
      requires definition.Valid() && limits.Valid()
      ensures Valid() && Model() == EmptyBook(definition, limits) && indicated == {} && issued == {}
      ensures this.instanceId == instanceId && this.definition == definition && this.limits == limits
    {
      this.instanceId, this.definition, this.limits := instanceId, definition, limits;
      orders, accountOrders, seenOrderIds := map[], map[], {};
      queues := PriceIndex(map[], map[], EMPTY_QUEUE, EMPTY_QUEUE);
      nextPrioritySequence, nextTradeId, stateRevision := 1, 1, 0;
      availableLeases, buyOrderScratch, sellOrderScratch := limits.maxPreparedUncrosses, [], [];
      indicated, issued, leased := {}, {}, multiset{};
      new;
      assert ActiveOf(orders) == map[];
      EmptyIsIndexed();
    }

    /** Links a last-ranked order at the tail of its price queue and of its account lane. */
    method LinkLast(order: CallAuctionOrderSnapshot)
      requires PriceIndexed(PriceChain(orders), queues) && AccountIndexed(LaneChain(orders), accountOrders)
      requires order.orderId !in orders && RanksBelow(orders, order.prioritySequence) && |orders| < U64_MAX
      modifies this`orders, this`accountOrders, this`queues
      ensures PriceIndexed(PriceChain(orders), queues) && AccountIndexed(LaneChain(orders), accountOrders)
      ensures ActiveOf(orders) == ActiveOf(old(orders))[order.orderId := order]
    {
      hide *;
      InsertionRoom(orders, queues, accountOrders, order.accountId, order.side, order.constraint, order.quantity);
      var queue := queues.QueueAt(order.side, order.constraint);
      var grown := queue.With(order.orderId, order.quantity);
      var lanes := LanesOf(accountOrders, order.accountId);
      var lane := lanes.Lane(order.side);
      var grownLane := lane.With(order.orderId, order.quantity);
      orders := WithAccountNext(orders, lane.tail, Some(order.orderId));
      accountOrders := WithLanes(accountOrders, order.accountId, lanes.WithLane(order.side, grownLane));
      orders := WithNext(orders, queue.tail, Some(order.orderId));
      queues := queues.Replaced(order.side, order.constraint, grown);
      orders := orders[order.orderId := RestingAuctionOrder(order, queue.tail, None, lane.tail, None)];
      InsertedIs(old(orders), order, queue.tail, lane.tail);
      InsertionIndexed(old(orders), old(queues), old(accountOrders), order, orders, queues, accountOrders, grown, grownLane);
    }

    /** Inserts one preflighted order and consumes its identity and priority sequence. */
    method InsertPreflighted(command: CallAuctionOrder) returns (accepted: CallAuctionOrderSnapshot)
      requires Sound() && Admission(Model(), command).Ok?
      modifies this`orders, this`accountOrders, this`seenOrderIds, this`queues
      modifies this`nextPrioritySequence, this`stateRevision
      ensures Sound() && accepted == AcceptedSnapshot(command, old(nextPrioritySequence))
      ensures old(nextPrioritySequence) < U64_MAX && old(stateRevision) < U64_MAX
      ensures Model() == Admitted(old(Model()), accepted)
    {
      hide *;
      Unfold();
      ghost var m := Model();
      accepted := AcceptedSnapshot(command, nextPrioritySequence);
      AdmitKeepsValid(m, command);
      AdmissionFacts(m, command);
      AcceptedIs(command, nextPrioritySequence);
      MaximumHolds(m);
      BookRanksBelow(orders, m);
      LinkLast(accepted);
      seenOrderIds := seenOrderIds + {command.orderId};
      nextPrioritySequence := nextPrioritySequence + 1;
      stateRevision := stateRevision + 1;
      AdmittedIs(m, accepted);
      Unfold();
    }

    /** Unlinks one active order from its price queue and its account lane and forgets it. */
    method RemoveActiveOrder(id: OrderId)
      requires Sound() && id in orders
      modifies this`orders, this`accountOrders, this`queues
      ensures Sound() && Model() == WithoutTarget(old(Model()), id)
      ensures orders.Keys == old(orders.Keys) - {id}
    {
      hide *;
      Unfold();
      ghost var m, before, beforeAccounts, beforeQueues := Model(), orders, accountOrders, queues;
      var r := orders[id];
      var order := r.order;
      OrderAt(orders, id);
      OrderFacts(m, id);
      RemovalRoom(orders, queues, accountOrders, m, id);
      orders := WithNext(orders, r.previous, r.next);
      orders := WithPrevious(orders, r.next, r.previous);
      var queue := queues.QueueAt(order.side, order.constraint);
      var shrunk := queue.Without(id, r.previous, r.next, order.quantity);
      queues := queues.Replaced(order.side, order.constraint, shrunk);
      orders := WithAccountNext(orders, r.accountPrevious, r.accountNext);
      orders := WithAccountPrevious(orders, r.accountNext, r.accountPrevious);
      var lanes := LanesOf(accountOrders, order.accountId);
      var lane := lanes.Lane(order.side);
      var shrunkLane := lane.Without(id, r.accountPrevious, r.accountNext, order.quantity);
      accountOrders := WithLanes(accountOrders, order.accountId, lanes.WithLane(order.side, shrunkLane));
      orders := orders - {id};
      RemovedIs(before, r);
      RemovalIndexed(before, beforeQueues, beforeAccounts, m, id, orders, queues, accountOrders, shrunk, shrunkLane);
      WithoutTargetIsValid(m, id);
      Unfold();
      WithoutTargetIs(m, id);
    }

    /** Reduces one active order in place: links and priority stay. */
    method ReduceOrder(id: OrderId, quantity: Quantity)
      requires Sound() && id in orders && quantity < orders[id].order.quantity
      requires definition.ValidateLeaves(quantity).None?
      modifies this`orders, this`accountOrders, this`queues
      ensures Sound() && orders.Keys == old(orders.Keys)
      ensures Model() == old(Model()).(active := old(Model()).active[id := old(Model()).active[id].(quantity := quantity)])
    {
      hide BookModel.Valid, PriceIndexed, AccountIndexed, PriceIndex.Replaced, PriceIndex.QueueAt, LanesOf, WithLanes,
        AuctionAccountIndex.WithLane, AuctionAccountIndex.Lane, PriceChain, LaneChain, InstrumentDefinition.Valid, InstrumentDefinition.ValidateLeaves;
      ghost var m, before, beforeAccounts, beforeQueues := Model(), orders, accountOrders, queues;
      var order := orders[id].order;
      OrderAt(orders, id);
      OrderFacts(m, id);
      RemovalRoom(orders, queues, accountOrders, m, id);
      var delta := order.quantity - quantity;
      var queue := queues.QueueAt(order.side, order.constraint);
      var total: u128 := queue.totalQuantity - delta;
      queues := queues.Replaced(order.side, order.constraint, queue.(totalQuantity := total));
      var lane := LanesOf(accountOrders, order.accountId).Lane(order.side);
      var laneTotal: u128 := lane.totalQuantity - delta;
      accountOrders := WithLanes(accountOrders, order.accountId, LanesOf(accountOrders, order.accountId).WithLane(order.side, lane.(totalQuantity := laneTotal)));
      orders := orders[id := orders[id].(order := order.(quantity := quantity))];
      ReductionIndexed(before, beforeQueues, beforeAccounts, m, id, quantity, total, laneTotal);
      ReducedIsValid(m, id, quantity);
    }

    /** Rebuilds a book from its saved parts, relinking both lists by ascending priority. The saved
        orders have their own identities and priority sequences; the rebuilt book is sound exactly
        when its parts are those of a valid book. */
    constructor FromParts(instanceId: nat, definition: InstrumentDefinition, limits: CallAuctionBookLimits,
                          activeOrders: seq<CallAuctionOrderSnapshot>, acceptedOrderIds: seq<OrderId>,
                          nextPrioritySequence: u64, nextTradeId: u64, stateRevision: u64, ghost m: BookModel)
      requires DistinctPriorities(m.active) && |m.active| <= U64_MAX && Gathered(activeOrders, m.active, m.active.Keys)
      requires m == BookModel(definition, limits, m.active, IdSet(acceptedOrderIds), nextPrioritySequence, nextTradeId, stateRevision)
      ensures PriceIndexed(PriceChain(orders), queues) && AccountIndexed(LaneChain(orders), accountOrders)
      ensures Model() == m && (Sound() <==> m.Valid()) && (Valid() <==> m.Valid())
      ensures this.instanceId == instanceId && indicated == {} && issued == {}
      ensures availableLeases == limits.maxPreparedUncrosses
      ensures this.definition == definition && this.limits == limits
    {
      hide *;
      this.instanceId, this.definition, this.limits := instanceId, definition, limits;
      orders, accountOrders := map[], map[];
      seenOrderIds := IdSet(acceptedOrderIds);
      queues := PriceIndex(map[], map[], EMPTY_QUEUE, EMPTY_QUEUE);
      this.nextPrioritySequence, this.nextTradeId, this.stateRevision := nextPrioritySequence, nextTradeId, stateRevision;
      availableLeases, buyOrderScratch, sellOrderScratch := limits.maxPreparedUncrosses, [], [];
      indicated, issued, leased := {}, {}, multiset{};
      new;
      EmptyIsIndexed();
      EmptyIsActive();
      Relink(activeOrders, m);
      NoTokensFit(m, instanceId);
      Unfold();
    }

    /** Links saved orders into an empty book, lowest priority sequence first. */
    method Relink(activeOrders: seq<CallAuctionOrderSnapshot>, ghost m: BookModel)
      requires DistinctPriorities(m.active) && |m.active| <= U64_MAX
      requires Gathered(activeOrders, m.active, m.active.Keys) && ActiveOf(orders) == map[]
      requires PriceIndexed(PriceChain(orders), queues) && AccountIndexed(LaneChain(orders), accountOrders)
      modifies this`orders, this`accountOrders, this`queues
      ensures PriceIndexed(PriceChain(orders), queues) && AccountIndexed(LaneChain(orders), accountOrders)
      ensures ActiveOf(orders) == m.active
    {
      hide *;
      SortByRankGathers(activeOrders, m.active, m.active.Keys);
      var ordered := SortByRank(activeOrders);
      GatheredSize(ordered, m.active, m.active.Keys);
      RelinkNothing(m.active, ordered);
      for k := 0 to |ordered|
        invariant PriceIndexed(PriceChain(orders), queues) && AccountIndexed(LaneChain(orders), accountOrders)
        invariant Relinked(m.active, ordered, k, ActiveOf(orders))
      {
        RelinkNext(m, ordered, k, orders);
        LinkLast(ordered[k]);
      }
      RelinkAll(m.active, ordered, ActiveOf(orders));
    }

    // ----- admission

    method PreflightAdmission(command: CallAuctionOrder) returns (r: Result<CallAuctionOrderSnapshot, CallAuctionAdmissionError>)
      requires Sound()
      ensures r == Admission(Model(), command)
    {
      hide BookModel.Valid, PriceIndexed, AccountIndexed, BookModel.LevelPrices, ValidateCommand, PriceIndex.QueueAt, PriceIndex.Levels, LanesOf,
        AuctionAccountIndex.Lane, PriceChain, LaneChain, ActiveOf, InstrumentDefinition.Valid;
      ghost var m := Model();
      RulesHold(m);
      if ValidateCommand(definition, command).Some? {
        return Err(Instrument(ValidateCommand(definition, command).value));
      }
      if command.orderId in seenOrderIds {
        return Err(DuplicateOrderId);
      }
      OrderQuantities(orders);
      if |orders| >= limits.maxActiveOrders {
        return Err(CapacityExceeded(ActiveOrders));
      }
      if |seenOrderIds| >= limits.maxAcceptedOrderIds {
        return Err(CapacityExceeded(AcceptedOrderIds));
      }
      LevelKeys(orders, queues, m, command.side);
      if command.constraint.Limit? {
        var levels := queues.Levels(command.side);
        if command.constraint.price !in levels && |levels| >= limits.maxPriceLevelsPerSide {
          return Err(CapacityExceeded(LevelCapacity(command.side)));
        }
      }
      if nextPrioritySequence == U64_MAX {
        return Err(PrioritySequenceExhausted);
      }
      if stateRevision == U64_MAX {
        return Err(AdmissionRevisionExhausted);
      }
      BookRanksBelow(orders, m);
      InsertionRoom(orders, queues, accountOrders, command.accountId, command.side, command.constraint, command.quantity);
      var queue := queues.QueueAt(command.side, command.constraint);
      var lane := LanesOf(accountOrders, command.accountId).Lane(command.side);
      if CheckedAddU128(queue.totalQuantity, command.quantity).None? || CheckedAddU64(queue.orderCount, 1).None?
         || CheckedAddU128(lane.totalQuantity, command.quantity).None? || CheckedAddU64(lane.orderCount, 1).None? {
        return Err(AggregateQuantityOverflow(command.side));
      }
      return Ok(AcceptedSnapshot(command, nextPrioritySequence));
    }

    /** Admits one order at the tail of its queue and lane, or changes nothing. */
    method Admit(command: CallAuctionOrder) returns (r: Result<CallAuctionOrderSnapshot, CallAuctionAdmissionError>)
      requires Valid()
      modifies this`orders, this`accountOrders, this`seenOrderIds, this`queues, this`nextPrioritySequence, this`stateRevision
      ensures Valid() && r == Admission(old(Model()), command)
      ensures r.Ok? ==> old(nextPrioritySequence) < U64_MAX && old(stateRevision) < U64_MAX && Model() == Admitted(old(Model()), r.value)
      ensures r.Err? ==> Model() == old(Model())
    {
      hide *;
      Unfold();
      r := PreflightAdmission(command);
      if r.Err? {
        return;
      }
      ghost var m := Model();
      AdmissionFacts(m, command);
      var accepted := InsertPreflighted(command);
      Unfold();
      AdmittedIs(m, accepted);
      TokensAge(m, Model(), instanceId, indicated, issued, buyOrderScratch, sellOrderScratch);
    }

    // ----- cancellation and amendment

    method PreflightCancel(accountId: AccountId, orderId: OrderId) returns (r: Result<CallAuctionOrderSnapshot, CallAuctionCancelError>)
      ensures r == Cancellation(Model(), accountId, orderId)
    {
      if orderId !in orders {
        return Err(UnknownOrder);
      }
      if orders[orderId].order.accountId != accountId {
        return Err(AccountMismatch);
      }
      if stateRevision == U64_MAX {
        return Err(CallAuctionCancelError.StateRevisionExhausted);
      }
      return Ok(orders[orderId].order);
    }

    method Cancel(accountId: AccountId, orderId: OrderId) returns (r: Result<CallAuctionOrderSnapshot, CallAuctionCancelError>)
      requires Valid()
      modifies this`orders, this`accountOrders, this`queues, this`stateRevision
      ensures Valid() && r == Cancellation(old(Model()), accountId, orderId)
      ensures r.Ok? ==> old(stateRevision) < U64_MAX && Model() == WithoutOrders(old(Model()), {orderId})
      ensures r.Err? ==> Model() == old(Model())
    {
      hide *;
      Unfold();
      ghost var m := Model();
      r := PreflightCancel(accountId, orderId);
      CancellationFacts(m, accountId, orderId);
      if r.Err? {
        return;
      }
      RemoveActiveOrder(orderId);
      Unfold();
      WithoutTargetIs(m, orderId);
      stateRevision := stateRevision + 1;
      Unfold();
      WithoutOrdersIs(m, {orderId});
      RemoveKeepsValid(m, {orderId});
      TokensAge(m, Model(), instanceId, indicated, issued, buyOrderScratch, sellOrderScratch);
    }

    method PreflightAmend(accountId: AccountId, orderId: OrderId, newQuantity: Quantity) returns (r: Result<CallAuctionOrderSnapshot, CallAuctionAmendError>)
      requires definition.Valid()
      ensures r == Amendment(Model(), accountId, orderId, newQuantity)
    {
      if orderId !in orders {
        return Err(UnknownTarget);
      }
      if orders[orderId].order.accountId != accountId {
        return Err(TargetAccountMismatch);
      }
      var rule := definition.ValidateLeaves(newQuantity);
      if rule.Some? {
        return Err(LeavesRule(rule.value));
      }
      if newQuantity >= orders[orderId].order.quantity {
        return Err(QuantityNotReduced);
      }
      if stateRevision == U64_MAX {
        return Err(AmendRevisionExhausted);
      }
      return Ok(orders[orderId].order);
    }

    /** Reduces one owned order at its existing priority; the previous state is returned. */
    method Amend(accountId: AccountId, orderId: OrderId, newQuantity: Quantity) returns (r: Result<CallAuctionOrderSnapshot, CallAuctionAmendError>)
      requires Valid()
      modifies this`orders, this`accountOrders, this`queues, this`stateRevision
      ensures Valid() && definition.Valid() && r == Amendment(old(Model()), accountId, orderId, newQuantity)
      ensures r.Ok? ==> orderId in old(Model()).active && old(stateRevision) < U64_MAX && Model() == Amended(old(Model()), orderId, newQuantity)
      ensures r.Err? ==> Model() == old(Model())
    {
      hide *;
      Unfold();
      ghost var m := Model();
      RulesHold(m);
      r := PreflightAmend(accountId, orderId, newQuantity);
      AmendmentFacts(m, accountId, orderId, newQuantity);
      if r.Err? {
        return;
      }
      OrderAt(orders, orderId);
      ReduceOrder(orderId, newQuantity);
      Unfold();
      stateRevision := stateRevision + 1;
      Unfold();
      AmendedIs(m, orderId, newQuantity);
      AmendKeepsValid(m, accountId, orderId, newQuantity);
      TokensAge(m, Model(), instanceId, indicated, issued, buyOrderScratch, sellOrderScratch);
    }

    // ----- replacement

    /** Whether the replacement's level will fit once the target's level has possibly emptied. */
    method PreflightReplacementLevel(targetOrderId: OrderId, replacement: CallAuctionOrder) returns (r: Option<CallAuctionReplaceError>)
      requires Sound() && targetOrderId in orders
      ensures var levels := WithoutTarget(Model(), targetOrderId).LevelPrices(replacement.side);
              r == if replacement.constraint.Limit? && replacement.constraint.price !in levels && |levels| >= limits.maxPriceLevelsPerSide
                   then Some(Replacement(CapacityExceeded(LevelCapacity(replacement.side)))) else None
    {
      hide *;
      Unfold();
      ghost var m := Model();
      if replacement.constraint.Market? {
        return None;
      }
      var price, target := replacement.constraint.price, orders[targetOrderId].order;
      var levels := queues.Levels(replacement.side);
      var sameSideLimit := target.side == replacement.side && target.constraint.Limit?;
      var targetRemovesLevel := sameSideLimit && queues.QueueAt(target.side, target.constraint).orderCount == 1;
      var targetIsRequestedLevel := sameSideLimit && target.constraint.price == price;
      var requestedExistsAfterRemoval := price in levels && !(targetIsRequestedLevel && targetRemovesLevel);
      var levelsAfterRemoval := if targetRemovesLevel && |levels| > 0 then |levels| - 1 else |levels|;
      LevelKeys(orders, queues, m, replacement.side);
      LevelsLeft(orders, queues, m, targetOrderId, replacement.side);
      OnLevelIs(target, replacement.side, price);
      LevelsWithoutTarget(orders, queues, m, targetOrderId, replacement.side, price);
      if !requestedExistsAfterRemoval && levelsAfterRemoval >= limits.maxPriceLevelsPerSide {
        return Some(Replacement(CapacityExceeded(match replacement.side case Buy => BidPriceLevels case Sell => AskPriceLevels)));
      }
      return None;
    }

    method PreflightReplace(accountId: AccountId, targetOrderId: OrderId, replacement: CallAuctionOrder)
      returns (r: Result<(CallAuctionOrderSnapshot, CallAuctionOrderSnapshot), CallAuctionReplaceError>)
      requires Sound()
      ensures definition.Valid() && r == ReplacementOutcome(Model(), accountId, targetOrderId, replacement)
    {
      hide BookModel.Valid, PriceIndexed, AccountIndexed, BookModel.LevelPrices, ValidateCommand, PriceIndex.QueueAt, PriceIndex.Levels, LanesOf,
        AuctionAccountIndex.Lane, PriceChain, LaneChain, ActiveOf, InstrumentDefinition.Valid, WithoutTarget, LevelCapacity, TokensFit;
      ghost var m := Model();
      RulesHold(m);
      if targetOrderId !in orders {
        return Err(Target(UnknownOrder));
      }
      var target := orders[targetOrderId].order;
      OrderAt(orders, targetOrderId);
      if target.accountId != accountId {
        return Err(Target(AccountMismatch));
      }
      if replacement.accountId != accountId {
        return Err(ReplacementAccountMismatch);
      }
      if ValidateCommand(definition, replacement).Some? {
        return Err(Replacement(Instrument(ValidateCommand(definition, replacement).value)));
      }
      if replacement.orderId in seenOrderIds {
        return Err(Replacement(DuplicateOrderId));
      }
      WithoutTargetIs(m, targetOrderId);
      if |seenOrderIds| >= limits.maxAcceptedOrderIds {
        return Err(Replacement(CapacityExceeded(AcceptedOrderIds)));
      }
      var levelError := PreflightReplacementLevel(targetOrderId, replacement);
      if levelError.Some? {
        return Err(levelError.value);
      }
      if nextPrioritySequence == U64_MAX {
        return Err(Replacement(PrioritySequenceExhausted));
      }
      if stateRevision == U64_MAX {
        return Err(Replacement(AdmissionRevisionExhausted));
      }
      var fits := PreflightReplacementAggregates(targetOrderId, replacement);
      if !fits {
        return Err(Replacement(AggregateQuantityOverflow(replacement.side)));
      }
      return Ok((target, AcceptedSnapshot(replacement, nextPrioritySequence)));
    }

    /** The queue and lane a replacement joins, after its target has left them, cannot overflow. */
    method PreflightReplacementAggregates(targetOrderId: OrderId, replacement: CallAuctionOrder) returns (fits: bool)
      requires Sound() && targetOrderId in orders && orders[targetOrderId].order.accountId == replacement.accountId
      ensures fits
    {
      hide *;
      Unfold();
      ghost var m := Model();
      ReplacementRoom(orders, queues, accountOrders, m, targetOrderId, replacement);
      var target := orders[targetOrderId].order;
      var queue := queues.QueueAt(replacement.side, replacement.constraint);
      if target.side == replacement.side && target.constraint == replacement.constraint {
        if queue.totalQuantity < target.quantity || queue.orderCount == 0 {
          return false;
        }
        queue := queue.(totalQuantity := queue.totalQuantity - target.quantity, orderCount := queue.orderCount - 1);
      }
      if queue.totalQuantity + replacement.quantity > U128_MAX || queue.orderCount + 1 > U64_MAX {
        return false;
      }
      if replacement.accountId !in accountOrders {
        return false;
      }
      var lane := accountOrders[replacement.accountId].Lane(replacement.side);
      if target.side == replacement.side {
        if lane.totalQuantity < target.quantity || lane.orderCount == 0 {
          return false;
        }
        lane := lane.(totalQuantity := lane.totalQuantity - target.quantity, orderCount := lane.orderCount - 1);
      }
      if lane.totalQuantity + replacement.quantity > U128_MAX || lane.orderCount + 1 > U64_MAX {
        return false;
      }
      return true;
    }

    /** Cancels the target and admits the replacement under one revision, or changes nothing. */
    method Replace(accountId: AccountId, targetOrderId: OrderId, replacement: CallAuctionOrder)
      returns (r: Result<(CallAuctionOrderSnapshot, CallAuctionOrderSnapshot), CallAuctionReplaceError>)
      requires Valid()
      modifies this`orders, this`accountOrders, this`seenOrderIds, this`queues, this`nextPrioritySequence, this`stateRevision
      ensures Valid() && definition.Valid() && r == ReplacementOutcome(old(Model()), accountId, targetOrderId, replacement)
      ensures r.Ok? ==>
                && old(nextPrioritySequence) < U64_MAX && old(stateRevision) < U64_MAX
                && Model() == Admitted(WithoutTarget(old(Model()), targetOrderId), r.value.1)
      ensures r.Err? ==> Model() == old(Model())
    {
      hide *;
      Unfold();
      ghost var m := Model();
      r := PreflightReplace(accountId, targetOrderId, replacement);
      if r.Err? {
        return;
      }
      ReplacementFacts(m, accountId, targetOrderId, replacement);
      ReplaceIsAdmitAfterRemove(m, accountId, targetOrderId, replacement);
      RemoveActiveOrder(targetOrderId);
      Unfold();
      AdmissionFacts(Model(), replacement);
      AdmittedIs(Model(), AcceptedSnapshot(replacement, nextPrioritySequence));
      WithoutTargetIs(m, targetOrderId);
      var accepted := InsertPreflighted(replacement);
      Unfold();
      TokensAge(m, Model(), instanceId, indicated, issued, buyOrderScratch, sellOrderScratch);
    }

    // ----- mass cancellation

    /** Counts and totals come from the account's lanes, without visiting its orders. */
    method PreflightMassCancel(accountId: AccountId, scope: MassCancelScope) returns (r: Result<CallAuctionMassCancelResult, CallAuctionMassCancelError>)
      requires Sound()
      ensures r == MassCancelOutcome(Model(), accountId, scope)
    {
      hide *;
      Unfold();
      ghost var m := Model();
      var lanes := LanesOf(accountOrders, accountId);
      SelectionOfLanes(orders, accountOrders, m, accountId, scope);
      MassCancelOutcomeIs(m, accountId, scope);
      var count: u64, quantity: u128;
      match scope {
        case All =>
          var sum, total := CheckedAddU64(lanes.Lane(Buy).orderCount, lanes.Lane(Sell).orderCount),
                            CheckedAddU128(lanes.Lane(Buy).totalQuantity, lanes.Lane(Sell).totalQuantity);
          CheckedAddsFit(lanes.Lane(Buy).orderCount, lanes.Lane(Sell).orderCount, lanes.Lane(Buy).totalQuantity, lanes.Lane(Sell).totalQuantity);
          if sum.None? || total.None? {
            return Err(MassCancelInvariantViolation);
          }
          count, quantity := sum.value, total.value;
        case OneSide(side) =>
          count, quantity := lanes.Lane(side).orderCount, lanes.Lane(side).totalQuantity;
      }
      if count == 0 {
        return Ok(CallAuctionMassCancelResult(count, quantity, stateRevision));
      }
      if stateRevision == U64_MAX {
        return Err(MassCancelRevisionExhausted);
      }
      return Ok(CallAuctionMassCancelResult(count, quantity, stateRevision + 1));
    }

    /** Follows one lane from head to tail, checking links and totals as it goes. */
    method AppendAccountSideValues(accountId: AccountId, side: Side, output0: seq<CallAuctionOrderSnapshot>, ghost ids: set<OrderId>)
      returns (ok: bool, output: seq<CallAuctionOrderSnapshot>)
      requires Sound() && Gathered(output0, ActiveOf(orders), ids) && ids !! Members(LaneChain(orders), AccountLane(accountId, side))
      ensures ok && Gathered(output, ActiveOf(orders), ids + Members(LaneChain(orders), AccountLane(accountId, side)))
    {
      hide *;
      Unfold();
      ghost var c, key, active := LaneChain(orders), AccountLane(accountId, side), ActiveOf(orders);
      var lane := LanesOf(accountOrders, accountId).Lane(side);
      LaneIsDescribed(c, accountOrders, accountId, side);
      WalkBegins(c, key, lane);
      LaneTotals(orders, accountOrders, accountId, side, {});
      var current, previous: Option<OrderId>, total: u128, visited: nat := lane.head, None, 0, 0;
      output := output0;
      ghost var lower: set<OrderId> := {};
      assert ids + lower == ids;
      while visited < lane.orderCount
        invariant OnListWalk(c, key, lane, current, previous) && lower == Lower(c, key, current)
        invariant visited == |lower| <= lane.orderCount && lower <= Members(c, key)
        invariant Gathered(output, active, ids + lower)
        invariant lower <= c.Keys == NodeQuantities(c).Keys && total == Total(NodeQuantities(c), lower)
      {
        WalkEnds(c, key, lane, current, previous);
        if current.None? {
          return false, output;
        }
        var orderId := current.value;
        WalkContinues(c, key, lane, orderId, previous);
        NodesAt(orders, orderId);
        OrderFacts(Model(), orderId);
        LaneTotals(orders, accountOrders, accountId, side, lower + {orderId});
        QuantityAt(c, orderId);
        TotalAdd(NodeQuantities(c), lower, orderId);
        assert orderId in Members(c, key) by { WalkIsMember(c, key, lane, orderId, previous); }
        var r := orders[orderId];
        if r.order.accountId != accountId || r.order.side != side || r.accountPrevious != previous || total + r.order.quantity > U128_MAX {
          return false, output;
        }
        total := total + r.order.quantity;
        GatherOne(output, active, ids + lower, orderId);
        output := output + [r.order];
        assert ids + lower + {orderId} == ids + (lower + {orderId});
        assert |lower + {orderId}| == |lower| + 1;
        lower := lower + {orderId};
        previous, current, visited := current, r.accountNext, visited + 1;
      }
      WalkEnds(c, key, lane, current, previous);
      LaneTotals(orders, accountOrders, accountId, side, lower);
      ok := current.None? && previous == lane.tail && total == lane.totalQuantity;
    }

    /** Materializes the selection in ascending identity order without changing the book. */
    method PreflightMassCancelInto(accountId: AccountId, scope: MassCancelScope, output0: seq<CallAuctionOrderSnapshot>, capacity: nat)
      returns (r: Result<CallAuctionMassCancelResult, CallAuctionMassCancelError>, output: seq<CallAuctionOrderSnapshot>)
      requires Sound()
      ensures r == MassCancelIntoOutcome(Model(), accountId, scope, output0, capacity)
      ensures output == if r.Ok? then AscendingOrders(Model().active, Selected(Model(), accountId, scope)) else output0
    {
      hide *;
      Unfold();
      ghost var m := Model();
      output := output0;
      MassCancelIntoIs(m, accountId, scope, output0, capacity);
      MassCancelOutcomeIs(m, accountId, scope);
      if output0 != [] {
        return Err(OutputNotEmpty), output0;
      }
      var result := PreflightMassCancel(accountId, scope);
      if result.Err? {
        return Err(result.error), output0;
      }
      if capacity < result.value.cancelledOrderCount {
        return Err(OutputCapacityExceeded(result.value.cancelledOrderCount, capacity)), output0;
      }
      SelectionNeedsLanes(orders, accountOrders, m, accountId, scope);
      SelectionOfLanes(orders, accountOrders, m, accountId, scope);
      AscendingSelection(m, accountId, scope);
      if result.value.cancelledOrderCount == 0 {
        return result, output;
      }
      if accountId !in accountOrders {
        return Err(MassCancelInvariantViolation), output0;
      }
      GatherNone(m.active);
      var ok := true;
      ghost var buys, sells := Members(LaneChain(orders), AccountLane(accountId, Buy)), Members(LaneChain(orders), AccountLane(accountId, Sell));
      match scope {
        case All =>
          assert {} + buys == buys;
          ok, output := AppendAccountSideValues(accountId, Buy, output, {});
          if ok {
            ok, output := AppendAccountSideValues(accountId, Sell, output, buys);
          }
        case OneSide(side) =>
          ghost var lane := Members(LaneChain(orders), AccountLane(accountId, side));
          assert {} + lane == lane;
          ok, output := AppendAccountSideValues(accountId, side, output, {});
      }
      GatheredSize(output, m.active, Selected(m, accountId, scope));
      if !ok || |output| != result.value.cancelledOrderCount {
        return Err(MassCancelInvariantViolation), output0;
      }
      SortAscends(output, m.active, Selected(m, accountId, scope));
      output := SortById(output);
      AscendingIsUnique(output, AscendingOrders(m.active, Selected(m, accountId, scope)), m.active, Selected(m, accountId, scope));
      AscendingAgrees(output, m, accountId, scope);
      var agrees := SelectionIsValid(output, accountId, scope, result.value.cancelledQuantityLots);
      if !agrees {
        return Err(MassCancelInvariantViolation), output0;
      }
      r := result;
    }

    /** Re-validates a sorted selection: no identity twice in a row, every snapshot an active order
        of the account and scope, and the announced total. */
    method SelectionIsValid(selection: seq<CallAuctionOrderSnapshot>, accountId: AccountId, scope: MassCancelScope, lots: u128) returns (ok: bool)
      ensures ok <==> SelectionAgrees(selection, ActiveOf(orders), accountId, scope, lots)
    {
      hide *;
      ghost var active := ActiveOf(orders);
      AgreesIs(selection, active, accountId, scope, lots);
      var i := 1;
      while i < |selection|
        invariant 1 <= i
        invariant i <= |selection| ==> NoRepeats(selection[..i])
        invariant |selection| < i ==> NoRepeats(selection)
      {
        RepeatsGrow(selection, i);
        if selection[i - 1].orderId == selection[i].orderId {
          return false;
        }
        i := i + 1;
      }
      assert selection[..|selection|] == selection;
      var total: u128 := 0;
      for k := 0 to |selection|
        invariant total == ListedLots(selection[..k]) && AllPicked(selection[..k], active, accountId, scope)
      {
        ListedLotsGrow(selection, k);
        PicksGrow(selection, active, accountId, scope, k);
        var snapshot := selection[k];
        if total + snapshot.quantity > U128_MAX {
          return false;
        }
        total := total + snapshot.quantity;
        if snapshot.orderId in orders {
          OrderAt(orders, snapshot.orderId);
        }
        if snapshot.accountId != accountId || !Includes(scope, snapshot.side) || snapshot.orderId !in orders || orders[snapshot.orderId].order != snapshot {
          return false;
        }
      }
      return total == lots;
    }

    /** Unlinks a materialized selection order by order. */
    method RemoveSelected(selection: seq<CallAuctionOrderSnapshot>, ghost ids: set<OrderId>)
      requires Sound() && AscendingOf(selection, Model().active, ids)
      modifies this`orders, this`accountOrders, this`queues
      ensures Sound() && Model() == old(Model()).(active := old(Model()).active - ids)
    {
      hide *;
      Unfold();
      ghost var m := Model();
      AllSnapshots(selection, m.active, ids);
      DropNothing(m.active);
      for index := 0 to |selection|
        invariant Sound() && Model() == m.(active := m.active - SnapshotIds(selection[..index]))
      {
        Unfold();
        var orderId := selection[index].orderId;
        NextSnapshot(selection, m.active, ids, index);
        DropOne(m.active, SnapshotIds(selection[..index]), orderId);
        if orderId !in orders {
          assert false;
          return;
        }
        WithoutTargetIs(Model(), orderId);
        RemoveActiveOrder(orderId);
        Unfold();
      }
    }

    /** Removes every selected order under one revision, or changes nothing. */
    method MassCancelInto(accountId: AccountId, scope: MassCancelScope, output0: seq<CallAuctionOrderSnapshot>, capacity: nat)
      returns (r: Result<CallAuctionMassCancelResult, CallAuctionMassCancelError>, output: seq<CallAuctionOrderSnapshot>)
      requires Valid()
      modifies this`orders, this`accountOrders, this`queues, this`stateRevision
      ensures Valid() && MassCancelAnswers(r, output, old(Model()), Model(), accountId, scope, output0, capacity)
    {
      hide *;
      Unfold();
      ghost var m := Model();
      MassCancelIntoIs(m, accountId, scope, output0, capacity);
      MassCancelOutcomeIs(m, accountId, scope);
      r, output := PreflightMassCancelInto(accountId, scope, output0, capacity);
      if r.Err? {
        Unmassed(r, output, m, accountId, scope, output0, capacity);
        return;
      }
      ghost var after := MassCancelled(m, accountId, scope);
      MassCancelledFields(m, accountId, scope, r.value);
      AscendingSelection(m, accountId, scope);
      RemoveSelected(output, Selected(m, accountId, scope));
      Unfold();
      stateRevision := r.value.stateRevision;
      Unfold();
      assert Model() == after;
      MassCancelKeepsValid(m, accountId, scope);
      Massed(r, output, m, accountId, scope, output0, capacity);
      assert TokensFit(Model(), instanceId, indicated, issued, buyOrderScratch, sellOrderScratch) by {
        if after != m {
          TokensAge(m, after, instanceId, indicated, issued, buyOrderScratch, sellOrderScratch);
        }
      }
    }

    // ----- indicative clearing

    /** Aggregate levels of one side, best first. */
    method RebuildLevels(side: Side) returns (levels: seq<AuctionLevel>)
      requires Sound()
      ensures LevelsOf(levels, ActiveOf(orders), side)
    {
      hide *;
      Unfold();
      var index := queues.Levels(side);
      var prices := InOrder(index.Keys);
      levels := [];
      ReadNothing(queues, side, prices);
      for k := 0 to |prices|
        invariant PartlyRead(levels, queues, side, prices, k)
      {
        ReadNext(levels, queues, side, prices, k);
        var price := if side == Buy then prices[|prices| - 1 - k] else prices[k];
        LevelTotal(orders, queues, side, price);
        levels := levels + [AuctionLevel(price, index[price].totalQuantity)];
      }
      ReadAll(levels, queues, side, prices);
      ReadIsLevels(levels, orders, queues, side, prices);
    }

    /** The best clearing state of a band, bound to this book and revision. Only the band and the
        reference can be refused: the book's own levels and totals always pass. */
    method IndicativeClearing(band: AuctionPriceBand, reference: Price, policy: AuctionPricePolicy)
      returns (r: Result<Option<CallAuctionIndicative>, AuctionError>)
      requires Valid()
      modifies this`indicated
      ensures Valid() && Grid(Model()).Valid() && Fits(ActiveOf(orders))
      ensures r.Ok? <==> BandIsAligned(Model(), band, reference)
      ensures r.Ok? ==> r.value == match BookDiscovery(ActiveOf(orders), Grid(Model()), band, reference, policy)
                                   case None => None
                                   case Some(c) => Some(CallAuctionIndicative(instanceId, stateRevision, c))
      ensures r.Ok? ==> IsBestOfBook(ClearingOf(r.value), ActiveOf(orders), Grid(Model()), band, reference, policy)
      ensures r.Err? ==> IsBandError(r.error, Model(), band, reference)
      ensures indicated == old(indicated) + (if r.Ok? && r.value.Some? then {r.value.value} else {})
    {
      hide *;
      Unfold();
      var bidLevels := RebuildLevels(Buy);
      var askLevels := RebuildLevels(Sell);
      ghost var m := Model();
      var interest := AuctionMarketInterest(queues.QueueAt(Buy, AuctionOrderConstraint.Market).totalQuantity,
                                            queues.QueueAt(Sell, AuctionOrderConstraint.Market).totalQuantity);
      ghost var market := AggregateMarket(bidLevels, askLevels, interest);
      InterestFits(m);
      MarketTotal(orders, queues, Buy);
      MarketTotal(orders, queues, Sell);
      BookMarket(m, market);
      GridIs(m);
      var clearing := DiscoverBoundedClearingPrice(bidLevels, askLevels, interest, AuctionPriceGrid(definition.tickSize), band, reference, policy);
      BookInputs(m, market, band, reference);
      if clearing.Err? {
        OnlyBandErrors(clearing.error, m, market, band, reference);
        return Err(clearing.error);
      }
      SweepFindsBest(clearing.value, market, m.active, Grid(m), band, reference, policy);
      BookDiscoveryMeans(clearing.value, m.active, Grid(m), band, reference, policy);
      ClearingOfIs(clearing.value, instanceId, stateRevision);
      if clearing.value.None? {
        return Ok(None);
      }
      var indicative := CallAuctionIndicative(instanceId, stateRevision, clearing.value.value);
      DiscoveryClears(m, clearing.value.value, band, reference, policy);
      indicated := indicated + {indicative};
      Unfold();
      IndicativeFits(m, indicative, instanceId, old(indicated), issued, buyOrderScratch, sellOrderScratch);
      return Ok(Some(indicative));
    }

    // ----- preparing an uncross

    /** Follows one price queue from its head. */
    method AppendQueueOrders(side: Side, constraint: AuctionOrderConstraint, output0: seq<AuctionOrder>, ghost ids: set<OrderId>)
      returns (output: seq<AuctionOrder>)
      requires Sound() && Collected(output0, ActiveOf(orders), ids) && ids !! QueueIds(ActiveOf(orders), side, constraint)
      ensures Collected(output, ActiveOf(orders), ids + QueueIds(ActiveOf(orders), side, constraint))
    {
      hide *;
      Unfold();
      ghost var c, key, active := PriceChain(orders), PriceQueue(side, constraint), ActiveOf(orders);
      QueueMembers(orders, side, constraint);
      var queue := queues.QueueAt(side, constraint);
      QueueIsDescribed(c, queues, side, constraint);
      WalkBegins(c, key, queue);
      var current, appended: nat := queue.head, 0;
      ghost var previous: Option<OrderId>, lower: set<OrderId> := None, {};
      output := output0;
      assert ids + lower == ids;
      while current.Some?
        invariant OnListWalk(c, key, queue, current, previous) && lower == Lower(c, key, current)
        invariant appended == |lower| <= queue.orderCount && lower <= Members(c, key)
        invariant Collected(output, active, ids + lower)
        decreases queue.orderCount - appended
      {
        var orderId := current.value;
        WalkContinues(c, key, queue, orderId, previous);
        WalkIsMember(c, key, queue, orderId, previous);
        NodesAt(orders, orderId);
        OrderFacts(Model(), orderId);
        if appended >= queue.orderCount || orderId !in orders {
          assert false;
          break;
        }
        var order := orders[orderId].order;
        CollectOne(output, active, ids + lower, orderId);
        AuctionOrderIs(order);
        output := output + [AuctionOrder(order.orderId, order.constraint, order.quantity, order.priorityClass, order.prioritySequence)];
        assert ids + lower + {orderId} == ids + (lower + {orderId});
        assert |lower + {orderId}| == |lower| + 1;
        lower := lower + {orderId};
        previous := current;
        current, appended := orders[orderId].next, appended + 1;
      }
      WalkEnds(c, key, queue, current, previous);
    }

    /** Every order of one side, collected queue by queue and then sorted into priority. */
    method RebuildOrders(side: Side) returns (sorted: seq<AuctionOrder>)
      requires Sound()
      ensures sorted == SideOrders(ActiveOf(orders), side) && RunsInOrder(sorted, side)
    {
      hide *;
      Unfold();
      var prices := InOrder(queues.Levels(side).Keys);
      ghost var active := ActiveOf(orders);
      CollectNone(active);
      ReadIdsStart(active, side, prices);
      var collected := AppendQueueOrders(side, AuctionOrderConstraint.Market, [], {});
      for k := 0 to |prices|
        invariant Collected(collected, active, ReadIds(active, side, prices, k))
      {
        NextQueueIsNew(active, side, prices, k);
        ReadIdsStep(active, side, prices, k);
        collected := AppendQueueOrders(side, Limit(BestFirst(prices, side, k)), collected, ReadIds(active, side, prices, k));
      }
      AllQueuesRead(orders, queues, side, prices);
      InterestFits(Model());
      SortGivesSide(collected, active, side);
      sorted := SortByPriority(collected, side);
    }

    /** Prepares a same-revision clearing state for commitment. Allocation cannot fail: only the
        revision, the lease pool, trade identities and the self-trade policy can refuse it. */
    method PrepareUncross(indicative: CallAuctionIndicative, policy: CallAuctionUncrossPolicy)
      returns (r: Result<PreparedCallAuctionUncross, CallAuctionPrepareError>)
      requires Valid() && (indicative.bookInstanceId == instanceId ==> indicative in indicated)
      modifies this`buyOrderScratch, this`sellOrderScratch, this`availableLeases, this`issued, this`leased
      ensures Valid()
      ensures PrepareAnswers(r, Model(), instanceId, old(availableLeases), indicative, policy)
      ensures availableLeases == old(availableLeases) - (if r.Ok? then 1 else 0)
      ensures leased == old(leased) + (if r.Ok? then multiset{r.value} else multiset{})
      ensures issued == old(issued) + (if r.Ok? then {r.value} else {})
    {
      hide *;
      Unfold();
      ghost var m := Model();
      PrepareAnswersIs(m, instanceId, availableLeases, indicative, policy);
      if stateRevision == U64_MAX {
        return Err(PrepareRevisionExhausted);
      }
      if indicative.bookInstanceId != instanceId {
        return Err(PlanFailed(ForeignBook));
      }
      if indicative.stateRevision != stateRevision {
        return Err(PlanFailed(StaleRevision(indicative.stateRevision, stateRevision)));
      }
      if availableLeases == 0 {
        return Err(PreparationCapacityExhausted(limits.maxPreparedUncrosses));
      }
      IndicativeIsCurrent(m, indicative, instanceId, indicated, issued, buyOrderScratch, sellOrderScratch);
      var bids := RebuildOrders(Buy);
      var asks := RebuildOrders(Sell);
      buyOrderScratch, sellOrderScratch := bids, asks;
      Unfold();
      ScratchIsRebuilt(m, instanceId, indicated, issued, old(buyOrderScratch), old(sellOrderScratch));
      var settled := PrepareSettlement(indicative.clearing, policy, bids, asks);
      PreparationIs(m, instanceId, indicative.clearing, policy);
      if settled.Err? {
        return settled;
      }
      issued := issued + {settled.value};
      Lend(settled.value);
      Unfold();
      PreparedFits(m, settled.value, instanceId, indicated, old(issued), bids, asks);
      return settled;
    }

    /** Takes a free lease for a preparation. */
    method Lend(prepared: PreparedCallAuctionUncross)
      requires LeasesAgree() && availableLeases > 0
      modifies this`availableLeases, this`leased
      ensures LeasesAgree() && availableLeases == old(availableLeases) - 1 && leased == old(leased) + multiset{prepared}
    {
      availableLeases, leased := availableLeases - 1, leased + multiset{prepared};
    }

    /** Gives back the lease of a dropped preparation, or of a dropped committed uncross. The pool
        never receives more leases than it lent. */
    method Release(prepared: PreparedCallAuctionUncross)
      requires Valid() && prepared in leased
      modifies this`availableLeases, this`leased
      ensures Valid() && availableLeases == old(availableLeases) + 1 && leased == old(leased) - multiset{prepared}
    {
      hide *;
      Unfold();
      if availableLeases >= limits.maxPreparedUncrosses {
        assert false;
        return;
      }
      availableLeases, leased := availableLeases + 1, leased - multiset{prepared};
      Unfold();
    }

    /** Allocates, pairs and selects remainder cancellations at a clearing state of this book. */
    method PrepareSettlement(c: AuctionClearing, policy: CallAuctionUncrossPolicy, bids: seq<AuctionOrder>, asks: seq<AuctionOrder>)
      returns (r: Result<PreparedCallAuctionUncross, CallAuctionPrepareError>)
      requires Sound() && ClearsAt(Model(), c) && WellFormed(c) && stateRevision < U64_MAX
      requires bids == SideOrders(ActiveOf(orders), Buy) && asks == SideOrders(ActiveOf(orders), Sell)
      ensures r == PreparationOutcome(Model(), instanceId, c, policy)
    {
      hide *;
      Unfold();
      ghost var m := Model();
      BookAllocates(m, c, policy.allocation);
      GridIs(m);
      var plan := AllocateClearing(bids, asks, AuctionPriceGrid(definition.tickSize), c, policy.allocation, definition.incrementLots, limits.maxActiveOrders);
      match plan {
        case Err(error) => return Err(PlanFailed(AllocationFailed(error)));
        case Ok(_) =>
      }
      PlanIsPrepared(m, c, policy.allocation, plan.value);
      SideRemaindersAre(m, Buy, c, policy);
      SideRemaindersAre(m, Sell, c, policy);
      OutcomeFromPairing(m, instanceId, c, policy);
      var pairing := PrepareTradePairs(definition, orders, c.price, plan.value.buyFills, plan.value.sellFills, nextTradeId, policy.selfTrade);
      if pairing.Err? {
        return Err(pairing.error);
      }
      var ok, cancellations := AppendRemainderCancellations(bids, plan.value.buyFills, policy.remainder, orders, [], SideShares(m, Buy, c, policy.allocation));
      assert cancellations == SideRemainders(m, Buy, c, policy);
      if ok {
        ok, cancellations := AppendRemainderCancellations(asks, plan.value.sellFills, policy.remainder, orders, cancellations,
                                                          SideShares(m, Sell, c, policy.allocation));
      }
      if !ok {
        return Err(PrepareInvariantViolation);
      }
      return Ok(PreparedCallAuctionUncross(instanceId, stateRevision, stateRevision + 1, pairing.value.1, policy, plan.value, pairing.value.0, cancellations));
    }

    /** Applies one fill: a complete one removes its order, a partial one reduces it in place. */
    method ApplyFill(fill: AuctionOrderFill)
      requires Sound() && fill.orderId in orders && fill.quantityLots <= orders[fill.orderId].order.quantity
      requires fill.quantityLots < orders[fill.orderId].order.quantity ==>
                 definition.Valid() && definition.ValidateLeaves(orders[fill.orderId].order.quantity - fill.quantityLots).None?
      modifies this`orders, this`accountOrders, this`queues
      ensures Sound()
      ensures var active := old(Model()).active;
              Model() == old(Model()).(active :=
                if fill.quantityLots == active[fill.orderId].quantity then active - {fill.orderId}
                else active[fill.orderId := active[fill.orderId].(quantity := active[fill.orderId].quantity - fill.quantityLots)])
    {
      hide *;
      Unfold();
      OrderAt(orders, fill.orderId);
      WithoutTargetIs(Model(), fill.orderId);
      if fill.quantityLots == orders[fill.orderId].order.quantity {
        RemoveActiveOrder(fill.orderId);
        return;
      }
      ReduceOrder(fill.orderId, orders[fill.orderId].order.quantity - fill.quantityLots);
    }

    /** Applies the fills of one side in order. */
    method ApplyFills(fills: Fills, ghost m: BookModel, ghost base: Active)
      requires Sound() && Model() == m.(active := base) && FillsApply(m, base, fills)
      modifies this`orders, this`accountOrders, this`queues
      ensures Sound() && Model() == m.(active := FillsApplied(base, fills, |fills|))
    {
      hide *;
      Unfold();
      NothingApplied(base, fills);
      for k := 0 to |fills|
        invariant Sound() && Model() == m.(active := FillsApplied(base, fills, k))
      {
        Unfold();
        FillsApplyAt(m, base, fills, k);
        FillAppliesIs(m, base, fills, k);
        OrderAt(orders, fills[k].orderId);
        ApplyFill(fills[k]);
      }
      Unfold();
    }

    /** Removes the cancelled remainders, every one of which is still active when its turn comes. */
    method RemoveCancelled(cancellations: seq<CallAuctionCancellation>, ghost m: BookModel, ghost applied: Active)
      requires Sound() && Model() == m.(active := applied) && StayActive(applied, cancellations)
      modifies this`orders, this`accountOrders, this`queues
      ensures Sound() && Model() == m.(active := applied - CancelledIds(cancellations))
    {
      hide *;
      Unfold();
      NothingCancelled(applied, cancellations);
      for k := 0 to |cancellations|
        invariant Sound() && Model() == m.(active := applied - CancelledIds(cancellations[..k]))
      {
        Unfold();
        var orderId := cancellations[k].orderId;
        NextCancelled(applied, cancellations, k);
        StaysActive(applied, cancellations, k);
        assert orderId in Model().active;
        if orderId in orders {
          WithoutTargetIs(Model(), orderId);
          RemoveActiveOrder(orderId);
          Unfold();
        }
      }
      assert cancellations[..|cancellations|] == cancellations;
      Unfold();
    }

    /** Re-derives every part of a preparation from the current book before anything changes. */
    method ValidateUncrossPreparation(prepared: PreparedCallAuctionUncross) returns (ok: bool)
      requires Valid() && prepared in issued && prepared.stateRevision == stateRevision
      ensures ok
    {
      hide *;
      Unfold();
      ghost var m := Model();
      var c := prepared.plan.clearing;
      PreparationIsCurrent(m, prepared, instanceId, indicated, issued, buyOrderScratch, sellOrderScratch);
      PreparationFacts(m, prepared);
      if stateRevision + 1 != prepared.nextStateRevision {
        return false;
      }
      FillsMatchOrders(orders, m, Buy, c, prepared.policy.allocation);
      FillsMatchOrders(orders, m, Sell, c, prepared.policy.allocation);
      var fillsOk := ValidatePreparedFills(prepared.plan.buyFills, Buy, buyOrderScratch, orders);
      if !fillsOk {
        return false;
      }
      fillsOk := ValidatePreparedFills(prepared.plan.sellFills, Sell, sellOrderScratch, orders);
      if !fillsOk {
        return false;
      }
      SameDealsAre(prepared.trades, prepared.trades);
      var tradesOk := ValidatePreparedTrades(orders, c.price, prepared.plan.buyFills, prepared.plan.sellFills, prepared.trades, nextTradeId,
                                             prepared.nextTradeId, c.executableQuantity, definition);
      if !tradesOk {
        return false;
      }
      SideFillsAreActive(m, Buy, c, prepared.policy.allocation);
      SideFillsAreActive(m, Sell, c, prepared.policy.allocation);
      SideRemaindersAre(m, Buy, c, prepared.policy);
      SideRemaindersAre(m, Sell, c, prepared.policy);
      ghost var first := SideRemainders(m, Buy, c, prepared.policy);
      TwoSides(first, SideRemainders(m, Sell, c, prepared.policy));
      var cancelOk, index := ValidatePreparedSideCancellations(buyOrderScratch, prepared.plan.buyFills, prepared.policy.remainder, orders,
                                                               prepared.cancellations, 0, SideShares(m, Buy, c, prepared.policy.allocation));
      if !cancelOk {
        return false;
      }
      cancelOk, index := ValidatePreparedSideCancellations(sellOrderScratch, prepared.plan.sellFills, prepared.policy.remainder, orders,
                                                           prepared.cancellations, index, SideShares(m, Sell, c, prepared.policy.allocation));
      return cancelOk && index == |prepared.cancellations|;
    }

    /** Commits a preparation of this book's current revision; a foreign or stale one is refused
        before anything changes, and a current one always commits. */
    method CommitUncross(prepared: PreparedCallAuctionUncross) returns (r: Result<(), CallAuctionCommitError>)
      requires Valid() && (prepared.bookInstanceId == instanceId ==> prepared in issued)
      modifies this`orders, this`accountOrders, this`queues, this`nextTradeId, this`stateRevision
      ensures Valid() && CommitAnswers(r, old(Model()), instanceId, prepared, Model())
    {
      hide *;
      Unfold();
      ghost var m, c, policy := Model(), prepared.plan.clearing, prepared.policy;
      CommitAnswersIs(m, instanceId, prepared);
      if prepared.bookInstanceId != instanceId {
        return Err(ForeignPreparation);
      }
      if prepared.stateRevision != stateRevision {
        return Err(StalePreparation(prepared.stateRevision, stateRevision));
      }
      var ok := ValidateUncrossPreparation(prepared);
      if !ok {
        return Err(CommitInvariantViolation);
      }
      PreparationIsCurrent(m, prepared, instanceId, indicated, issued, buyOrderScratch, sellOrderScratch);
      PreparationFacts(m, prepared);
      var buys, sells := prepared.plan.buyFills, prepared.plan.sellFills;
      BuyFillsApply(m, c, policy.allocation);
      ApplyFills(buys, m, m.active);
      ghost var bought := FillsApplied(m.active, buys, |buys|);
      SellFillsApply(m, c, policy.allocation);
      ApplyFills(sells, m, bought);
      CancelledAreActive(m, c, policy);
      RemoveCancelled(prepared.cancellations, m, FillsApplied(bought, sells, |sells|));
      Unfold();
      nextTradeId := prepared.nextTradeId;
      stateRevision := prepared.nextStateRevision;
      Unfold();
      StepsReachUncrossed(m, c, policy);
      UncrossKeepsValid(m, c, policy);
      TokensAge(m, Model(), instanceId, indicated, issued, buyOrderScratch, sellOrderScratch);
      return Ok(());
    }
  }

  lemma EmptyIsIndexed()
    ensures PriceIndexed(PriceChain(map[]), PriceIndex(map[], map[], EMPTY_QUEUE, EMPTY_QUEUE))
    ensures AccountIndexed(LaneChain(map[]), map[])
  {
    assert PriceChain(map[]) == map[] && LaneChain(map[]) == map[];
    var c: Chain := map[];
    forall key ensures Describes(EMPTY_QUEUE, c, key) {
      assert Members(c, key) == {};
    }
  }

  /** The machine-typed aggregates of the queue and lane an order joins have room for it. */
  lemma InsertionRoom(orders: Orders, ix: PriceIndex, accounts: Accounts, accountId: AccountId, side: Side, constraint: AuctionOrderConstraint, quantity: Quantity)
    requires |orders| < U64_MAX && PriceIndexed(PriceChain(orders), ix) && AccountIndexed(LaneChain(orders), accounts)
    ensures ix.QueueAt(side, constraint).orderCount + 1 <= U64_MAX && ix.QueueAt(side, constraint).totalQuantity + quantity <= U128_MAX
    ensures LanesOf(accounts, accountId).Lane(side).orderCount + 1 <= U64_MAX && LanesOf(accounts, accountId).Lane(side).totalQuantity + quantity <= U128_MAX
  {
    hide *;
    OrderQuantities(orders);
    QueueIsDescribed(PriceChain(orders), ix, side, constraint);
    LaneIsDescribed(LaneChain(orders), accounts, accountId, side);
    RoomToGrow(PriceChain(orders), ix.QueueAt(side, constraint), PriceQueue(side, constraint), quantity);
    RoomToGrow(LaneChain(orders), LanesOf(accounts, accountId).Lane(side), AccountLane(accountId, side), quantity);
  }

  ghost predicate RanksBelow(orders: Orders, rank: nat) {
    forall j :: j in orders ==> orders[j].order.prioritySequence < rank
  }

  /** Inserting a last-ranked order at both tails keeps both indexes. */
  lemma InsertionIndexed(orders: Orders, ix: PriceIndex, accounts: Accounts, accepted: CallAuctionOrderSnapshot,
                         orders': Orders, ix': PriceIndex, accounts': Accounts, grown: AuctionQueue, grownLane: AuctionQueue)
    requires accepted.orderId !in orders && RanksBelow(orders, accepted.prioritySequence)
    requires PriceIndexed(PriceChain(orders), ix) && AccountIndexed(LaneChain(orders), accounts)
    requires var queue, lane := ix.QueueAt(accepted.side, accepted.constraint), LanesOf(accounts, accepted.accountId).Lane(accepted.side);
             && queue.GrownBy(grown, accepted.orderId, accepted.quantity)
             && orders' == Inserted(orders, accepted, queue.tail, lane.tail)
             && ix' == ix.Replaced(accepted.side, accepted.constraint, grown)
             && lane.GrownBy(grownLane, accepted.orderId, accepted.quantity)
             && accounts' == WithLanes(accounts, accepted.accountId, LanesOf(accounts, accepted.accountId).WithLane(accepted.side, grownLane))
    ensures PriceIndexed(PriceChain(orders'), ix') && AccountIndexed(LaneChain(orders'), accounts')
    ensures ActiveOf(orders') == ActiveOf(orders)[accepted.orderId := accepted]
  {
    hide *;
    var queue, lane := ix.QueueAt(accepted.side, accepted.constraint), LanesOf(accounts, accepted.accountId).Lane(accepted.side);
    ChainRanksBelow(orders, accepted.prioritySequence);
    PriceIndexInsert(PriceChain(orders), ix, accepted.orderId, accepted.side, accepted.constraint, accepted.prioritySequence, accepted.quantity, grown);
    AccountsInsert(LaneChain(orders), accounts, accepted.orderId, accepted.accountId, accepted.side, accepted.prioritySequence, accepted.quantity, grownLane);
    InsertedChains(orders, accepted, queue.tail, lane.tail);
    ChainKeys(accepted);
  }

  lemma ChainKeys(order: CallAuctionOrderSnapshot)
    ensures PriceKey(order) == PriceQueue(order.side, order.constraint) && LaneKey(order) == AccountLane(order.accountId, order.side)
  {
  }

  lemma ChainRanksBelow(orders: Orders, rank: nat)
    requires RanksBelow(orders, rank)
    ensures forall j :: j in PriceChain(orders) ==> PriceChain(orders)[j].rank < rank
    ensures forall j :: j in LaneChain(orders) ==> LaneChain(orders)[j].rank < rank
  {
  }

  lemma BookRanksBelow(orders: Orders, m: BookModel)
    requires m.Valid() && m.active == ActiveOf(orders)
    ensures RanksBelow(orders, m.nextPrioritySequence) && |orders| == |m.active| <= U64_MAX
  {
    MaximumHolds(m);
    OrderQuantities(orders);
    hide BookModel.Valid, InstrumentDefinition.Valid, InstrumentDefinition.ValidateLeaves;
    forall j | j in orders ensures orders[j].order.prioritySequence < m.nextPrioritySequence {
      OrderFacts(m, j);
      OrderAt(orders, j);
    }
  }

  lemma AcceptedIs(command: CallAuctionOrder, prioritySequence: u64)
    ensures AcceptedSnapshot(command, prioritySequence) ==
              CallAuctionOrderSnapshot(command.orderId, command.accountId, command.side, command.constraint, command.quantity, command.priorityClass, prioritySequence)
  {
  }

  // ----- rebuilding from saved orders

  /** The first `n` saved orders have been relinked. */
  ghost predicate Relinked(active: Active, ordered: seq<CallAuctionOrderSnapshot>, n: nat, linked: Active) {
    && n <= |ordered| && Gathered(ordered, active, active.Keys) && InRank(ordered)
    && linked == map id | id in active && id in SnapshotIds(ordered[..n]) :: active[id]
  }

  function IdSet(ids: seq<OrderId>): set<OrderId> {
    set i | 0 <= i < |ids| :: ids[i]
  }

  lemma EmptyIsActive()
    ensures ActiveOf(map[]) == map[]
  {
  }

  lemma RelinkNothing(active: Active, ordered: seq<CallAuctionOrderSnapshot>)
    requires Gathered(ordered, active, active.Keys) && InRank(ordered)
    ensures Relinked(active, ordered, 0, map[])
  {
  }

  ghost predicate DistinctPriorities(active: Active) {
    forall a, b :: a in active && b in active && a != b ==> active[a].prioritySequence != active[b].prioritySequence
  }

  lemma RelinkNext(m: BookModel, ordered: seq<CallAuctionOrderSnapshot>, n: nat, orders: Orders)
    requires DistinctPriorities(m.active) && n < |ordered| && |m.active| <= U64_MAX
    requires Relinked(m.active, ordered, n, ActiveOf(orders))
    ensures ordered[n].orderId !in orders && RanksBelow(orders, ordered[n].prioritySequence) && |orders| < U64_MAX
    ensures Relinked(m.active, ordered, n + 1, ActiveOf(orders)[ordered[n].orderId := ordered[n]])
  {
    hide DistinctPriorities, InRank, ActiveOf;
    PrefixOfGathered(ordered, m.active, n);
    var order := ordered[n];
    assert orders.Keys == ActiveOf(orders).Keys == SnapshotIds(ordered[..n]);
    forall id | id in orders ensures orders[id].order.prioritySequence < order.prioritySequence {
      OrderAt(orders, id);
      EarlierRank(m, ordered, n, id);
    }
    hide SnapshotIds, Gathered, Relinked;
    assert |orders| == |orders.Keys| && |m.active| == |m.active.Keys|;
    LowerIsSmaller(orders.Keys, m.active.Keys, order.orderId);
    RelinkedGrows(m.active, ordered, n, ActiveOf(orders));
  }

  lemma RelinkedGrows(active: Active, ordered: seq<CallAuctionOrderSnapshot>, n: nat, linked: Active)
    requires n < |ordered| && Relinked(active, ordered, n, linked)
    ensures Relinked(active, ordered, n + 1, linked[ordered[n].orderId := ordered[n]])
  {
    PrefixOfGathered(ordered, active, n);
    hide SnapshotIds, Gathered, InRank;
  }

  lemma EarlierRank(m: BookModel, ordered: seq<CallAuctionOrderSnapshot>, n: nat, id: OrderId)
    requires DistinctPriorities(m.active) && n < |ordered| && Gathered(ordered, m.active, m.active.Keys) && InRank(ordered)
    requires id in SnapshotIds(ordered[..n])
    ensures id in m.active && m.active[id].prioritySequence < ordered[n].prioritySequence
  {
    hide DistinctPriorities;
    var k :| 0 <= k < n && ordered[..n][k].orderId == id;
    assert ordered[k].orderId == id && ordered[k] == m.active[id] && ordered[n] == m.active[ordered[n].orderId];
    DistinctSequences(m, id, ordered[n].orderId);
  }

  lemma DistinctSequences(m: BookModel, a: OrderId, b: OrderId)
    requires DistinctPriorities(m.active) && a in m.active && b in m.active && a != b
    ensures m.active[a].prioritySequence != m.active[b].prioritySequence
  {
  }

  lemma PrefixOfGathered(s: seq<CallAuctionOrderSnapshot>, active: Active, n: nat)
    requires Gathered(s, active, active.Keys) && n < |s|
    ensures SnapshotIds(s[..n + 1]) == SnapshotIds(s[..n]) + {s[n].orderId}
    ensures s[n].orderId !in SnapshotIds(s[..n]) && s[n].orderId in active && active[s[n].orderId] == s[n]
    ensures SnapshotIds(s[..n]) <= active.Keys
  {
    var before, after := s[..n], s[..n + 1];
    forall id: OrderId ensures id in SnapshotIds(after) <==> id in SnapshotIds(before) || id == s[n].orderId {
      if id in SnapshotIds(before) {
        var i :| 0 <= i < n && before[i].orderId == id;
        assert after[i].orderId == id;
      }
      if id in SnapshotIds(after) && id != s[n].orderId {
        var i :| 0 <= i <= n && after[i].orderId == id;
        assert before[i].orderId == id;
      }
      assert after[n].orderId == s[n].orderId;
    }
    forall id | id in SnapshotIds(before) ensures id in active {
      var i :| 0 <= i < n && before[i].orderId == id;
      assert s[i].orderId in active;
    }
  }

  lemma RelinkAll(active: Active, ordered: seq<CallAuctionOrderSnapshot>, linked: Active)
    requires Relinked(active, ordered, |ordered|, linked)
    ensures linked == active
  {
    assert ordered[..|ordered|] == ordered;
  }

  lemma IndexedIsLinked(orders: Orders, ix: PriceIndex, accounts: Accounts)
    requires PriceIndexed(PriceChain(orders), ix) && AccountIndexed(LaneChain(orders), accounts)
    ensures Linked(PriceChain(orders)) && Linked(LaneChain(orders))
  {
  }

  lemma NoTokensFit(m: BookModel, bookInstanceId: nat)
    ensures TokensFit(m, bookInstanceId, {}, {}, [], [])
  {
  }

  /** A book's links, queues and lanes are a function of its orders: two sound books with the same
      contents have identical indexes, so a rebuilt book is the original. */
  lemma IndexesAreDetermined(a: CallAuctionBook, b: CallAuctionBook)
    requires a.Sound() && b.Sound() && a.Model() == b.Model()
    ensures a.orders == b.orders && a.queues == b.queues && a.accountOrders == b.accountOrders
  {
    hide *;
    a.Unfold();
    b.Unfold();
    IndexedIsLinked(a.orders, a.queues, a.accountOrders);
    IndexedIsLinked(b.orders, b.queues, b.accountOrders);
    LinksAgree(a.orders, b.orders);
    QueuesAgree(PriceChain(a.orders), a.queues, b.queues);
    AccountsAgree(LaneChain(a.orders), a.accountOrders, b.accountOrders);
  }

  /** An active order is counted in its queue and lane; alone, it is the whole of them. */
  lemma RemovalRoom(orders: Orders, ix: PriceIndex, accounts: Accounts, m: BookModel, id: OrderId)
    requires m.Valid() && m.active == ActiveOf(orders) && id in orders && orders[id].order.orderId == id
    requires PriceIndexed(PriceChain(orders), ix) && AccountIndexed(LaneChain(orders), accounts)
    ensures var r := orders[id];
            var queue, lane := ix.QueueAt(r.order.side, r.order.constraint), LanesOf(accounts, r.order.accountId).Lane(r.order.side);
            && queue.orderCount >= 1 && queue.totalQuantity >= r.order.quantity
            && lane.orderCount >= 1 && lane.totalQuantity >= r.order.quantity
            && (lane.orderCount == 1 ==>
                  lane.totalQuantity == r.order.quantity && lane.head == lane.tail == Some(id) && r.accountNext == r.accountPrevious == None)
  {
    hide *;
    var r, c, d := orders[id], PriceChain(orders), LaneChain(orders);
    NodesAt(orders, id);
    QueueIsDescribed(c, ix, r.order.side, r.order.constraint);
    LaneIsDescribed(d, accounts, r.order.accountId, r.order.side);
    RoomToShrink(c, ix.QueueAt(r.order.side, r.order.constraint), id);
    RoomToShrink(d, LanesOf(accounts, r.order.accountId).Lane(r.order.side), id);
    if LanesOf(accounts, r.order.accountId).Lane(r.order.side).orderCount == 1 {
      AloneInList(d, LanesOf(accounts, r.order.accountId).Lane(r.order.side), id);
    }
  }

  lemma RemovalIndexed(orders: Orders, ix: PriceIndex, accounts: Accounts, m: BookModel, id: OrderId,
                       orders': Orders, ix': PriceIndex, accounts': Accounts, shrunk: AuctionQueue, shrunkLane: AuctionQueue)
    requires m.Valid() && m.active == ActiveOf(orders) && id in orders && orders[id].order.orderId == id
    requires PriceIndexed(PriceChain(orders), ix) && AccountIndexed(LaneChain(orders), accounts)
    requires var r := orders[id];
             && ix.QueueAt(r.order.side, r.order.constraint).ShrunkBy(shrunk, id, r.previous, r.next, r.order.quantity)
             && LanesOf(accounts, r.order.accountId).Lane(r.order.side).ShrunkBy(shrunkLane, id, r.accountPrevious, r.accountNext, r.order.quantity)
             && orders' == Removed(orders, r)
             && ix' == ix.Replaced(r.order.side, r.order.constraint, shrunk)
             && accounts' == WithLanes(accounts, r.order.accountId, LanesOf(accounts, r.order.accountId).WithLane(r.order.side, shrunkLane))
    ensures PriceIndexed(PriceChain(orders'), ix') && AccountIndexed(LaneChain(orders'), accounts')
    ensures ActiveOf(orders') == ActiveOf(orders) - {id}
  {
    hide *;
    var r := orders[id];
    NodesAt(orders, id);
    PriceIndexRemove(PriceChain(orders), ix, id, r.order.side, r.order.constraint, shrunk);
    AccountsRemove(LaneChain(orders), accounts, id, r.order.accountId, r.order.side, shrunkLane);
    RemovedChains(orders, id);
  }

  lemma ReductionIndexed(orders: Orders, ix: PriceIndex, accounts: Accounts, m: BookModel, id: OrderId, quantity: Quantity, total: u128, laneTotal: u128)
    requires m.Valid() && m.active == ActiveOf(orders) && id in orders && orders[id].order.orderId == id && quantity <= orders[id].order.quantity
    requires PriceIndexed(PriceChain(orders), ix) && AccountIndexed(LaneChain(orders), accounts)
    requires var r := orders[id];
             && total == ix.QueueAt(r.order.side, r.order.constraint).totalQuantity - (r.order.quantity - quantity)
             && laneTotal == LanesOf(accounts, r.order.accountId).Lane(r.order.side).totalQuantity - (r.order.quantity - quantity)
    ensures var r := orders[id];
            var n := orders[id := r.(order := r.order.(quantity := quantity))];
            var queue, lane := ix.QueueAt(r.order.side, r.order.constraint), LanesOf(accounts, r.order.accountId).Lane(r.order.side);
            && PriceIndexed(PriceChain(n), ix.Replaced(r.order.side, r.order.constraint, queue.(totalQuantity := total)))
            && AccountIndexed(LaneChain(n), WithLanes(accounts, r.order.accountId, LanesOf(accounts, r.order.accountId).WithLane(r.order.side, lane.(totalQuantity := laneTotal))))
            && ActiveOf(n) == ActiveOf(orders)[id := ActiveOf(orders)[id].(quantity := quantity)]
  {
    hide *;
    var r := orders[id];
    NodesAt(orders, id);
    PriceIndexReduce(PriceChain(orders), ix, id, r.order.side, r.order.constraint, quantity, total);
    AccountsReduce(LaneChain(orders), accounts, id, r.order.accountId, r.order.side, quantity, laneTotal);
    ReducedChains(orders, id, quantity);
  }

  lemma OnLevelIs(order: CallAuctionOrderSnapshot, side: Side, price: Price)
    ensures OnLevel(order, side, price) <==> order.side == side && order.constraint == Limit(price)
    ensures LevelCapacity(side) == match side case Buy => BidPriceLevels case Sell => AskPriceLevels
  {
  }

  /** How many levels a side has once a target has left. */
  lemma LevelsLeft(orders: Orders, ix: PriceIndex, m: BookModel, target: OrderId, side: Side)
    requires PriceIndexed(PriceChain(orders), ix) && m.active == ActiveOf(orders) && target in orders
    ensures var order := orders[target].order;
            var removes := order.side == side && order.constraint.Limit? && ix.QueueAt(order.side, order.constraint).orderCount == 1;
            && (removes ==> |m.LevelPrices(side)| > 0)
            && |WithoutTarget(m, target).LevelPrices(side)| == |m.LevelPrices(side)| - if removes then 1 else 0
  {
    hide PriceIndexed, PriceIndex.QueueAt, BookModel.LevelPrices, PriceChain, ActiveOf, OnLevel;
    var order := orders[target].order;
    var removes := order.side == side && order.constraint.Limit? && ix.QueueAt(order.side, order.constraint).orderCount == 1;
    var before, after := m.LevelPrices(side), WithoutTarget(m, target).LevelPrices(side);
    forall price: Price ensures price in after <==> price in before && !(removes && order.constraint.price == price) {
      LevelsWithoutTarget(orders, ix, m, target, side, price);
      OnLevelIs(order, side, price);
    }
    if removes {
      LevelsWithoutTarget(orders, ix, m, target, side, order.constraint.price);
      OnLevelIs(order, side, order.constraint.price);
      assert after == before - {order.constraint.price};
      assert |after| == |before| - 1;
    } else {
      assert after == before;
    }
  }

  lemma ReplacementRoom(orders: Orders, ix: PriceIndex, accounts: Accounts, m: BookModel, target: OrderId, replacement: CallAuctionOrder)
    requires m.Valid() && m.active == ActiveOf(orders) && target in orders && orders[target].order.accountId == replacement.accountId
    requires PriceIndexed(PriceChain(orders), ix) && AccountIndexed(LaneChain(orders), accounts)
    ensures var order, queue := orders[target].order, ix.QueueAt(replacement.side, replacement.constraint);
            && queue.totalQuantity + replacement.quantity <= U128_MAX
            && (if order.side == replacement.side && order.constraint == replacement.constraint
                then queue.totalQuantity >= order.quantity && queue.orderCount >= 1 else queue.orderCount + 1 <= U64_MAX)
    ensures replacement.accountId in accounts
    ensures var order, lane := orders[target].order, accounts[replacement.accountId].Lane(replacement.side);
            && lane.totalQuantity + replacement.quantity <= U128_MAX
            && (if order.side == replacement.side then lane.totalQuantity >= order.quantity && lane.orderCount >= 1 else lane.orderCount + 1 <= U64_MAX)
  {
    hide *;
    var order, c, d := orders[target].order, PriceChain(orders), LaneChain(orders);
    NodesAt(orders, target);
    OrderQuantities(orders);
    MaximumHolds(m);
    QueueIsDescribed(c, ix, replacement.side, replacement.constraint);
    RoomToSwap(c, ix.QueueAt(replacement.side, replacement.constraint), PriceQueue(replacement.side, replacement.constraint), target, replacement.quantity);
    LaneIsDescribed(d, accounts, order.accountId, order.side);
    RoomToShrink(d, LanesOf(accounts, order.accountId).Lane(order.side), target);
    NoLanesIsEmpty(accounts, order.accountId, order.side);
    LaneIsDescribed(d, accounts, order.accountId, replacement.side);
    RoomToSwap(d, LanesOf(accounts, order.accountId).Lane(replacement.side), AccountLane(order.accountId, replacement.side), target, replacement.quantity);
  }

  // ----- mass cancellation

  lemma CheckedAddsFit(a: u64, b: u64, x: u128, y: u128)
    ensures a + b <= U64_MAX ==> CheckedAddU64(a, b) == Some(a + b)
    ensures x + y <= U128_MAX ==> CheckedAddU128(x, y) == Some(x + y)
  {
  }

  /** The selection of an account is what its lanes link, with the lanes' own counts and totals. */
  lemma SelectionOfLanes(orders: Orders, accounts: Accounts, m: BookModel, accountId: AccountId, scope: MassCancelScope)
    requires m.Valid() && m.active == ActiveOf(orders) && AccountIndexed(LaneChain(orders), accounts)
    ensures var d := LaneChain(orders);
            var buys, sells := Members(d, AccountLane(accountId, Buy)), Members(d, AccountLane(accountId, Sell));
            var lanes, ids := LanesOf(accounts, accountId), Selected(m, accountId, scope);
            && buys !! sells && ids <= m.active.Keys == Lots(m.active).Keys
            && (match scope
                case All =>
                  && ids == buys + sells && |ids| == lanes.Lane(Buy).orderCount + lanes.Lane(Sell).orderCount
                  && Total(Lots(m.active), ids) == lanes.Lane(Buy).totalQuantity + lanes.Lane(Sell).totalQuantity
                case OneSide(side) =>
                  && ids == Members(d, AccountLane(accountId, side)) && |ids| == lanes.Lane(side).orderCount
                  && Total(Lots(m.active), ids) == lanes.Lane(side).totalQuantity)
  {
    hide *;
    var d := LaneChain(orders);
    var buys, sells := Members(d, AccountLane(accountId, Buy)), Members(d, AccountLane(accountId, Sell));
    LanesSelect(orders, m, accountId, scope);
    LaneIsDescribed(d, accounts, accountId, Buy);
    LaneIsDescribed(d, accounts, accountId, Sell);
    DescribesTotals(LanesOf(accounts, accountId).Lane(Buy), d, AccountLane(accountId, Buy));
    DescribesTotals(LanesOf(accounts, accountId).Lane(Sell), d, AccountLane(accountId, Sell));
    TotalUnion(Lots(m.active), buys, sells);
    assert |buys + sells| == |buys| + |sells|;
    match scope {
      case All =>
      case OneSide(side) => assert side == Buy || side == Sell;
    }
  }

  lemma SelectionNeedsLanes(orders: Orders, accounts: Accounts, m: BookModel, accountId: AccountId, scope: MassCancelScope)
    requires m.Valid() && m.active == ActiveOf(orders) && AccountIndexed(LaneChain(orders), accounts)
    ensures accountId !in accounts ==> |Selected(m, accountId, scope)| == 0
  {
    hide *;
    SelectionOfLanes(orders, accounts, m, accountId, scope);
    NoLanesAreEmpty(accounts, accountId);
    match scope
    case All =>
    case OneSide(side) => assert side == Buy || side == Sell;
  }

  lemma DescribesTotals(q: AuctionQueue, c: Chain, key: ListKey)
    requires Describes(q, c, key)
    ensures q.orderCount == |Members(c, key)| && Members(c, key) <= c.Keys == NodeQuantities(c).Keys
    ensures q.totalQuantity == Total(NodeQuantities(c), Members(c, key))
  {
  }

  lemma LanesSelect(orders: Orders, m: BookModel, accountId: AccountId, scope: MassCancelScope)
    requires m.active == ActiveOf(orders)
    ensures var d := LaneChain(orders);
            var buys, sells := Members(d, AccountLane(accountId, Buy)), Members(d, AccountLane(accountId, Sell));
            && buys !! sells && d.Keys == m.active.Keys && NodeQuantities(d) == Lots(m.active)
            && Selected(m, accountId, scope) == if scope == All then buys + sells else if scope == OneSide(Buy) then buys else sells
  {
    var d := LaneChain(orders);
    forall id | id in orders
      ensures d[id].key == AccountLane(m.active[id].accountId, m.active[id].side) && d[id].quantity == m.active[id].quantity
    {
      NodesAt(orders, id);
    }
    hide LaneChain, ActiveOf;
    var buys, sells := Members(d, AccountLane(accountId, Buy)), Members(d, AccountLane(accountId, Sell));
    assert buys !! sells;
    assert NodeQuantities(d) == Lots(m.active);
    hide NodeQuantities, Lots;
    match scope {
      case All =>
        forall id | id in m.active ensures id in Selected(m, accountId, scope) <==> id in buys || id in sells {
          assert m.active[id].side == Buy || m.active[id].side == Sell;
        }
        assert Selected(m, accountId, scope) == buys + sells;
      case OneSide(side) => assert Selected(m, accountId, scope) == if side == Buy then buys else sells;
    }
  }

  /** Totals over part of a lane are bounded by the lane's total, and all of it is the total. */
  lemma LaneTotals(orders: Orders, accounts: Accounts, accountId: AccountId, side: Side, part: set<OrderId>)
    requires AccountIndexed(LaneChain(orders), accounts)
    ensures var c, ids, lane := LaneChain(orders), Members(LaneChain(orders), AccountLane(accountId, side)), LanesOf(accounts, accountId).Lane(side);
            && c.Keys == NodeQuantities(c).Keys && ids <= c.Keys && lane.orderCount == |ids| && Total(NodeQuantities(c), {}) == 0
            && (part <= ids ==> Total(NodeQuantities(c), part) <= lane.totalQuantity)
            && (part == ids ==> Total(NodeQuantities(c), part) == lane.totalQuantity)
  {
    var c := LaneChain(orders);
    LaneIsDescribed(c, accounts, accountId, side);
    if part <= Members(c, AccountLane(accountId, side)) {
      TotalMonotone(NodeQuantities(c), part, Members(c, AccountLane(accountId, side)));
    }
  }

  lemma WalkIsMember(c: Chain, key: ListKey, q: AuctionQueue, at: OrderId, previous: Option<OrderId>)
    requires OnListWalk(c, key, q, Some(at), previous)
    ensures at in Members(c, key)
  {
  }

  /** A mass cancellation moves the active orders and the revision, or nothing. */
  lemma MassCancelledFields(m: BookModel, accountId: AccountId, scope: MassCancelScope, r: CallAuctionMassCancelResult)
    requires m.Valid() && MassCancelOutcome(m, accountId, scope) == Ok(r)
    ensures Selected(m, accountId, scope) != {} ==> m.stateRevision < U64_MAX
    ensures MassCancelled(m, accountId, scope) == m.(active := m.active - Selected(m, accountId, scope), stateRevision := r.stateRevision)
    ensures MassCancelled(m, accountId, scope) == m || MassCancelled(m, accountId, scope).stateRevision > m.stateRevision
  {
    MassCancelOutcomeIs(m, accountId, scope);
    DropNothing(m.active);
    hide BookModel.Valid, Selected, MassCancelOutcome;
  }

  /** What a mass cancellation answers, hands out and leaves behind: everything selected, or nothing. */
  ghost predicate MassCancelAnswers(r: Result<CallAuctionMassCancelResult, CallAuctionMassCancelError>, output: seq<CallAuctionOrderSnapshot>,
                                    m: BookModel, after: BookModel, accountId: AccountId, scope: MassCancelScope,
                                    output0: seq<CallAuctionOrderSnapshot>, capacity: nat) {
    && m.Valid() && r == MassCancelIntoOutcome(m, accountId, scope, output0, capacity)
    && (r.Ok? ==> && (Selected(m, accountId, scope) != {} ==> m.stateRevision < U64_MAX) && after == MassCancelled(m, accountId, scope)
                  && output == AscendingOrders(m.active, Selected(m, accountId, scope)))
    && (r.Err? ==> after == m && output == output0)
  }

  lemma Massed(r: Result<CallAuctionMassCancelResult, CallAuctionMassCancelError>, output: seq<CallAuctionOrderSnapshot>, m: BookModel,
               accountId: AccountId, scope: MassCancelScope, output0: seq<CallAuctionOrderSnapshot>, capacity: nat)
    requires m.Valid() && r.Ok? && r == MassCancelIntoOutcome(m, accountId, scope, output0, capacity)
    requires Selected(m, accountId, scope) != {} ==> m.stateRevision < U64_MAX
    requires output == AscendingOrders(m.active, Selected(m, accountId, scope))
    ensures MassCancelAnswers(r, output, m, MassCancelled(m, accountId, scope), accountId, scope, output0, capacity)
  {
    hide BookModel.Valid, Selected, MassCancelIntoOutcome, MassCancelled;
  }

  lemma Unmassed(r: Result<CallAuctionMassCancelResult, CallAuctionMassCancelError>, output: seq<CallAuctionOrderSnapshot>, m: BookModel,
                 accountId: AccountId, scope: MassCancelScope, output0: seq<CallAuctionOrderSnapshot>, capacity: nat)
    requires m.Valid() && r.Err? && r == MassCancelIntoOutcome(m, accountId, scope, output0, capacity) && output == output0
    ensures MassCancelAnswers(r, output, m, m, accountId, scope, output0, capacity)
  {
    hide BookModel.Valid, Selected, MassCancelIntoOutcome, MassCancelled;
  }

  lemma DropNothing(active: Active)
    ensures active - {} == active
  {
  }

  lemma DropOne(active: Active, gone: set<OrderId>, id: OrderId)
    ensures active - gone - {id} == active - (gone + {id})
    ensures id in active && id !in gone ==> id in active - gone
  {
  }

  // ----- indicative clearing

  ghost predicate PartlyRead(levels: seq<AuctionLevel>, ix: PriceIndex, side: Side, prices: seq<Price>, n: nat) {
    && AscendingPrices(prices) && (forall p :: p in prices <==> p in ix.Levels(side)) && |levels| == n <= |prices|
    && forall k {:trigger levels[k]} :: 0 <= k < |levels| ==>
         var price := if side == Buy then prices[|prices| - 1 - k] else prices[k];
         levels[k].price == price && price in ix.Levels(side) && levels[k].quantity == ix.Levels(side)[price].totalQuantity
  }

  lemma ReadNothing(ix: PriceIndex, side: Side, prices: seq<Price>)
    requires AscendingPrices(prices) && forall p :: p in prices <==> p in ix.Levels(side)
    ensures PartlyRead([], ix, side, prices, 0)
  {
  }

  lemma ReadNext(levels: seq<AuctionLevel>, ix: PriceIndex, side: Side, prices: seq<Price>, n: nat)
    requires PartlyRead(levels, ix, side, prices, n) && n < |prices|
    ensures var price := if side == Buy then prices[|prices| - 1 - n] else prices[n];
            && price in ix.Levels(side)
            && (ix.Levels(side)[price].totalQuantity >= 1 ==>
                  PartlyRead(levels + [AuctionLevel(price, ix.Levels(side)[price].totalQuantity)], ix, side, prices, n + 1))
  {
    var price := if side == Buy then prices[|prices| - 1 - n] else prices[n];
    assert price in prices;
    hide PriceIndex.Levels;
  }

  lemma ReadAll(levels: seq<AuctionLevel>, ix: PriceIndex, side: Side, prices: seq<Price>)
    requires PartlyRead(levels, ix, side, prices, |prices|)
    ensures IndexRead(levels, ix, side, prices)
  {
  }

  /** What a caller must supply to discovery over a book. */
  ghost function ClearingOf(indicative: Option<CallAuctionIndicative>): Option<AuctionClearing> {
    match indicative case None => None case Some(bound) => Some(bound.clearing)
  }

  lemma ClearingOfIs(best: Option<AuctionClearing>, bookInstanceId: nat, revision: u64)
    ensures ClearingOf(None) == None
    ensures best.Some? ==> ClearingOf(Some(CallAuctionIndicative(bookInstanceId, revision, best.value))) == best
  {
  }

  ghost predicate BandIsAligned(m: BookModel, band: AuctionPriceBand, reference: Price)
    requires Grid(m).Valid()
  {
    band.minimum <= band.maximum && Grid(m).Contains(band.minimum) && Grid(m).Contains(band.maximum) && Grid(m).Contains(reference)
  }

  ghost predicate IsBandError(error: AuctionError, m: BookModel, band: AuctionPriceBand, reference: Price)
    requires Grid(m).Valid()
  {
    match error
    case PriceBandInverted => band.minimum > band.maximum
    case PriceBandMinimumOffGrid => band.minimum <= band.maximum && !Grid(m).Contains(band.minimum)
    case PriceBandMaximumOffGrid => band.minimum <= band.maximum && Grid(m).Contains(band.minimum) && !Grid(m).Contains(band.maximum)
    case ReferencePriceOffGrid => band.minimum <= band.maximum && Grid(m).Contains(band.minimum) && Grid(m).Contains(band.maximum) && !Grid(m).Contains(reference)
    case _ => false
  }

  lemma GridIs(m: BookModel)
    requires m.Valid()
    ensures Grid(m) == AuctionPriceGrid(m.definition.tickSize) && Grid(m).Valid()
  {
  }

  lemma LevelsAreCanonical(m: BookModel, levels: seq<AuctionLevel>, side: Side)
    requires m.Valid() && LevelsOf(levels, m.active, side)
    requires forall i {:trigger levels[i]} :: 0 <= i < |levels| ==> LevelHolds(m.active, side, levels[i].price)
    ensures Grid(m).Valid() && Canonical(levels, side, Grid(m))
  {
    GridIs(m);
    hide BookModel.Valid, InstrumentDefinition.Valid, Lots, LevelIds, PricedIn;
    forall i | 0 <= i < |levels| ensures Grid(m).Contains(levels[i].price) {
      assert LevelHolds(m.active, side, levels[i].price);
      var id :| id in m.active && OnLevel(m.active[id], side, levels[i].price);
      OrderIsReady(m, id);
    }
  }

  lemma LevelIsHeld(active: Active, side: Side, price: Price)
    ensures Total(Lots(active), LevelIds(active, side, price)) > 0 ==> LevelHolds(active, side, price)
  {
    if LevelIds(active, side, price) != {} {
      var id :| id in LevelIds(active, side, price);
      assert OnLevel(active[id], side, price);
    }
  }

  lemma BookSide(m: BookModel, levels: seq<AuctionLevel>, side: Side)
    requires m.Valid() && LevelsOf(levels, m.active, side)
    ensures Grid(m).Valid() && Canonical(levels, side, Grid(m))
  {
    hide BookModel.Valid, InstrumentDefinition.Valid, Lots, LevelIds, PricedIn, LevelHolds, AuctionPriceGrid.Valid;
    forall i | 0 <= i < |levels| ensures LevelHolds(m.active, side, levels[i].price) {
      LevelIsHeld(m.active, side, levels[i].price);
    }
    LevelsAreCanonical(m, levels, side);
  }

  lemma BookMarket(m: BookModel, market: AggregateMarket)
    requires m.Valid() && LevelsOf(market.bids, m.active, Buy) && LevelsOf(market.asks, m.active, Sell)
    requires market.interest.buyQuantity == Total(Lots(m.active), MarketIds(m.active, Buy))
    requires market.interest.sellQuantity == Total(Lots(m.active), MarketIds(m.active, Sell))
    ensures Aggregates(market, m.active) && market.Representable()
    ensures Grid(m).Valid() && Canonical(market.bids, Buy, Grid(m)) && Canonical(market.asks, Sell, Grid(m))
  {
    hide BookModel.Valid, LevelsOf, Canonical, Lots, MarketIds, AuctionPriceGrid.Valid, AggregateMarket.Representable;
    InterestFits(m);
    MarketFits(market, m.active);
    BookSide(m, market.bids, Buy);
    BookSide(m, market.asks, Sell);
  }

  /** The book's own aggregates are never at fault. */
  lemma BookInputs(m: BookModel, market: AggregateMarket, band: AuctionPriceBand, reference: Price)
    requires Grid(m).Valid() && market.Representable() && Canonical(market.bids, Buy, Grid(m)) && Canonical(market.asks, Sell, Grid(m))
    ensures ValidInputs(market, Grid(m), band, reference) <==> BandIsAligned(m, band, reference)
  {
    hide Canonical, AuctionPriceGrid.Contains, AuctionPriceGrid.Valid, Uncross.Grid;
  }

  lemma OnlyBandErrors(error: AuctionError, m: BookModel, market: AggregateMarket, band: AuctionPriceBand, reference: Price)
    requires Grid(m).Valid() && market.Representable() && Canonical(market.bids, Buy, Grid(m)) && Canonical(market.asks, Sell, Grid(m))
    requires IsInputError(error, market, Grid(m), band, reference)
    ensures IsBandError(error, m, band, reference)
  {
    if exists n :: FirstOffence(error, market.bids, Buy, Grid(m), n) {
      var n :| FirstOffence(error, market.bids, Buy, Grid(m), n);
      NoOffence(error, market.bids, Buy, Grid(m), n);
    }
    if exists n :: FirstOffence(error, market.asks, Sell, Grid(m), n) {
      var n :| FirstOffence(error, market.asks, Sell, Grid(m), n);
      NoOffence(error, market.asks, Sell, Grid(m), n);
    }
  }

  lemma NoOffence(error: AuctionError, levels: seq<AuctionLevel>, side: Side, grid: AuctionPriceGrid, n: nat)
    requires grid.Valid() && Canonical(levels, side, grid) && TotalOf(levels) <= U128_MAX
    ensures !FirstOffence(error, levels, side, grid, n)
  {
    if n < |levels| {
      PrefixAtMostTotal(levels, n + 1);
    }
  }

  lemma DiscoveryClears(m: BookModel, c: AuctionClearing, band: AuctionPriceBand, reference: Price, policy: AuctionPricePolicy)
    requires m.Valid() && Fits(m.active) && Grid(m).Valid() && BookDiscovery(m.active, Grid(m), band, reference, policy) == Some(c)
    ensures ClearsAt(m, c)
  {
    assert IsBookDiscovery(Some(c), m.active, Grid(m), band, reference, policy);
  }

  lemma IndicativeFits(m: BookModel, t: CallAuctionIndicative, bookInstanceId: nat, indicated: set<CallAuctionIndicative>,
                       issued: set<PreparedCallAuctionUncross>, buys: seq<AuctionOrder>, sells: seq<AuctionOrder>)
    requires TokensFit(m, bookInstanceId, indicated, issued, buys, sells)
    requires t == CallAuctionIndicative(bookInstanceId, m.stateRevision, t.clearing) && ClearsAt(m, t.clearing)
    ensures TokensFit(m, bookInstanceId, indicated + {t}, issued, buys, sells)
  {
    hide ClearsAt, IsPreparation;
  }

  // ----- preparing and committing an uncross

  lemma AuctionOrderIs(order: CallAuctionOrderSnapshot)
    ensures AsAuctionOrder(order) == AuctionOrder(order.orderId, order.constraint, order.quantity, order.priorityClass, order.prioritySequence)
  {
  }

  lemma ReadIdsStart(active: Active, side: Side, prices: seq<Price>)
    ensures ReadIds(active, side, prices, 0) == {} + QueueIds(active, side, AuctionOrderConstraint.Market)
  {
  }

  lemma ReadIdsStep(active: Active, side: Side, prices: seq<Price>, n: nat)
    requires n < |prices|
    ensures ReadIds(active, side, prices, n + 1) == ReadIds(active, side, prices, n) + QueueIds(active, side, Limit(BestFirst(prices, side, n)))
  {
  }

  /** How preparing answers, in the order its checks are made. */
  ghost predicate PrepareAnswers(r: Result<PreparedCallAuctionUncross, CallAuctionPrepareError>, m: BookModel, bookInstanceId: nat, leases: usize,
                                 indicative: CallAuctionIndicative, policy: CallAuctionUncrossPolicy) {
    if m.stateRevision == U64_MAX then r == Err(PrepareRevisionExhausted)
    else if indicative.bookInstanceId != bookInstanceId then r == Err(PlanFailed(ForeignBook))
    else if indicative.stateRevision != m.stateRevision then r == Err(PlanFailed(StaleRevision(indicative.stateRevision, m.stateRevision)))
    else if leases == 0 then r == Err(PreparationCapacityExhausted(m.limits.maxPreparedUncrosses))
    else ClearsAt(m, indicative.clearing) && r == PreparationOutcome(m, bookInstanceId, indicative.clearing, policy)
  }

  lemma PrepareAnswersIs(m: BookModel, bookInstanceId: nat, leases: usize, indicative: CallAuctionIndicative, policy: CallAuctionUncrossPolicy)
    ensures forall r: Result<PreparedCallAuctionUncross, CallAuctionPrepareError> :: PrepareAnswers(r, m, bookInstanceId, leases, indicative, policy) <==>
              if m.stateRevision == U64_MAX then r == Err(PrepareRevisionExhausted)
              else if indicative.bookInstanceId != bookInstanceId then r == Err(PlanFailed(ForeignBook))
              else if indicative.stateRevision != m.stateRevision then r == Err(PlanFailed(StaleRevision(indicative.stateRevision, m.stateRevision)))
              else if leases == 0 then r == Err(PreparationCapacityExhausted(m.limits.maxPreparedUncrosses))
              else ClearsAt(m, indicative.clearing) && r == PreparationOutcome(m, bookInstanceId, indicative.clearing, policy)
  {
  }

  lemma IndicativeIsCurrent(m: BookModel, t: CallAuctionIndicative, bookInstanceId: nat, indicated: set<CallAuctionIndicative>,
                            issued: set<PreparedCallAuctionUncross>, buys: seq<AuctionOrder>, sells: seq<AuctionOrder>)
    requires TokensFit(m, bookInstanceId, indicated, issued, buys, sells) && t in indicated && t.stateRevision == m.stateRevision
    ensures ClearsAt(m, t.clearing) && WellFormed(t.clearing)
  {
  }

  lemma ScratchIsRebuilt(m: BookModel, bookInstanceId: nat, indicated: set<CallAuctionIndicative>, issued: set<PreparedCallAuctionUncross>,
                         buys: seq<AuctionOrder>, sells: seq<AuctionOrder>)
    requires TokensFit(m, bookInstanceId, indicated, issued, buys, sells)
    ensures TokensFit(m, bookInstanceId, indicated, issued, SideOrders(m.active, Buy), SideOrders(m.active, Sell))
  {
    hide ClearsAt, IsPreparation, SideOrders;
  }

  lemma PlanIsPrepared(m: BookModel, c: AuctionClearing, allocation: AuctionAllocationPolicy, plan: AuctionAllocationPlan)
    requires ClearsAt(m, c) && m.definition.Valid()
    requires IsPlan(plan, SideOrders(m.active, Buy), SideOrders(m.active, Sell), c, allocation, m.definition.incrementLots)
    ensures plan == AuctionAllocationPlan(c, SideFills(m, Buy, c, allocation), SideFills(m, Sell, c, allocation))
    ensures m.nextTradeId >= 1
  {
    ClearingFacts(m, c);
    hide ClearsAt, SideOrders, SharesFor;
  }

  /** The deal an uncross pairs. */
  ghost function DealOf(m: BookModel, c: AuctionClearing, allocation: AuctionAllocationPolicy): Deal
    requires ClearsAt(m, c)
  {
    Deal(m.definition, m.active, c.price, SideFills(m, Buy, c, allocation), SideFills(m, Sell, c, allocation), m.nextTradeId)
  }

  lemma DealIsMatchedUp(m: BookModel, c: AuctionClearing, allocation: AuctionAllocationPolicy)
    requires ClearsAt(m, c)
    ensures DealOf(m, c, allocation).Matched()
    ensures TradeIdsFit(m, c, allocation) <==> m.nextTradeId + |Pairs(SideFills(m, Buy, c, allocation), SideFills(m, Sell, c, allocation))| <= U64_MAX
    ensures TradeIdsFit(m, c, allocation) ==>
              var d := DealOf(m, c, allocation);
              && d.InPairs(Start(d.buys, d.sells), 0)
              && d.Rest(Start(d.buys, d.sells), 0) == PreparedTrades(m, c, allocation)
              && d.Self(Start(d.buys, d.sells), 0) == SelfPairOf(m, c, allocation)
  {
    ClearingFacts(m, c);
    hide ClearsAt, SideFills, ActiveFills, TradesOf, FirstSelfPair, LotsFrom;
    SideFillsAreActive(m, Buy, c, allocation);
    SideFillsAreActive(m, Sell, c, allocation);
    if TradeIdsFit(m, c, allocation) {
      DealStarts(DealOf(m, c, allocation));
    }
  }

  /** Preparation succeeds exactly when pairing does, and carries its trades. */
  lemma OutcomeFromPairing(m: BookModel, bookInstanceId: nat, c: AuctionClearing, policy: CallAuctionUncrossPolicy)
    requires ClearsAt(m, c) && m.stateRevision < U64_MAX
    ensures Deal(m.definition, m.active, c.price, SideFills(m, Buy, c, policy.allocation), SideFills(m, Sell, c, policy.allocation), m.nextTradeId).Matched()
    ensures var d := Deal(m.definition, m.active, c.price, SideFills(m, Buy, c, policy.allocation), SideFills(m, Sell, c, policy.allocation), m.nextTradeId);
            PreparationOutcome(m, bookInstanceId, c, policy) ==
              match PairingOutcome(d, policy.selfTrade)
              case Err(error) => Err(error)
              case Ok(paired) => Ok(PreparedCallAuctionUncross(
                bookInstanceId, m.stateRevision, m.stateRevision + 1, paired.1, policy,
                AuctionAllocationPlan(c, SideFills(m, Buy, c, policy.allocation), SideFills(m, Sell, c, policy.allocation)),
                paired.0, SideRemainders(m, Buy, c, policy) + SideRemainders(m, Sell, c, policy)))
  {
    hide ClearsAt, SideFills, SideRemainders, Deal.Matched, Deal.Rest, Deal.Self, PreparedTrades, SelfPairOf, Pairs;
    DealIsMatchedUp(m, c, policy.allocation);
    var d := DealOf(m, c, policy.allocation);
    if TradeIdsFit(m, c, policy.allocation) && SelfPairOf(m, c, policy.allocation).Some? {
      SelfIsPair(d, Start(d.buys, d.sells), 0);
    }
  }

  lemma PreparationIs(m: BookModel, bookInstanceId: nat, c: AuctionClearing, policy: CallAuctionUncrossPolicy)
    requires ClearsAt(m, c) && m.stateRevision < U64_MAX
    ensures var r := PreparationOutcome(m, bookInstanceId, c, policy);
            r.Ok? ==> r.value.bookInstanceId == bookInstanceId && r.value.stateRevision == m.stateRevision
                      && r.value.plan.clearing == c && r.value.policy == policy
  {
  }

  lemma SideRemaindersAre(m: BookModel, side: Side, c: AuctionClearing, policy: CallAuctionUncrossPolicy)
    requires ClearsAt(m, c)
    ensures m.definition.Valid() && WithinLeaves(SideShares(m, side, c, policy.allocation), SideOrders(m.active, side))
    ensures RestingOrders(m.active, SideOrders(m.active, side))
    ensures SideFills(m, side, c, policy.allocation) ==
              FillsOf(SideOrders(m.active, side), SideShares(m, side, c, policy.allocation), |SideOrders(m.active, side)|)
    ensures SideRemainders(m, side, c, policy) ==
              Remainders(m.active, SideOrders(m.active, side), SideShares(m, side, c, policy.allocation), policy.remainder, |SideOrders(m.active, side)|)
  {
    SideFillsAreActive(m, side, c, policy.allocation);
    hide ClearsAt, SideShares, SideOrders, WithinLeaves, RestingOrders, FillsOf, Remainders;
  }

  lemma PreparedFits(m: BookModel, t: PreparedCallAuctionUncross, bookInstanceId: nat, indicated: set<CallAuctionIndicative>,
                     issued: set<PreparedCallAuctionUncross>, buys: seq<AuctionOrder>, sells: seq<AuctionOrder>)
    requires TokensFit(m, bookInstanceId, indicated, issued, buys, sells) && buys == SideOrders(m.active, Buy) && sells == SideOrders(m.active, Sell)
    requires ClearsAt(m, t.plan.clearing) && m.stateRevision < U64_MAX && t.bookInstanceId == bookInstanceId && t.stateRevision == m.stateRevision
    requires PreparationOutcome(m, bookInstanceId, t.plan.clearing, t.policy) == Ok(t)
    ensures TokensFit(m, bookInstanceId, indicated, issued + {t}, buys, sells)
  {
    hide ClearsAt, SideOrders, PreparationOutcome;
  }

  lemma PreparationIsCurrent(m: BookModel, t: PreparedCallAuctionUncross, bookInstanceId: nat, indicated: set<CallAuctionIndicative>,
                             issued: set<PreparedCallAuctionUncross>, buys: seq<AuctionOrder>, sells: seq<AuctionOrder>)
    requires TokensFit(m, bookInstanceId, indicated, issued, buys, sells) && t in issued && t.stateRevision == m.stateRevision
    ensures IsPreparation(m, t) && buys == SideOrders(m.active, Buy) && sells == SideOrders(m.active, Sell)
  {
  }

  /** What a current preparation holds. */
  lemma PreparationFacts(m: BookModel, t: PreparedCallAuctionUncross)
    requires IsPreparation(m, t)
    ensures ClearsAt(m, t.plan.clearing) && m.stateRevision < U64_MAX && TradeIdsFit(m, t.plan.clearing, t.policy.allocation)
    ensures var c, allocation := t.plan.clearing, t.policy.allocation;
            && t.plan.buyFills == SideFills(m, Buy, c, allocation) && t.plan.sellFills == SideFills(m, Sell, c, allocation)
            && t.cancellations == Cancellations(m, c, t.policy)
            && t.cancellations == SideRemainders(m, Buy, c, t.policy) + SideRemainders(m, Sell, c, t.policy)
            && t.trades == PreparedTrades(m, c, allocation)
            && t.nextTradeId == m.nextTradeId + |Pairs(t.plan.buyFills, t.plan.sellFills)| && t.nextStateRevision == m.stateRevision + 1
            && t.nextTradeId == m.nextTradeId + |PairsOf(m, c, allocation)|
    ensures var d := Deal(m.definition, m.active, t.plan.clearing.price, t.plan.buyFills, t.plan.sellFills, m.nextTradeId);
            && d.Ready() && d.InPairs(Start(t.plan.buyFills, t.plan.sellFills), 0) && t.trades == d.Rest(Start(t.plan.buyFills, t.plan.sellFills), 0)
            && t.plan.clearing.executableQuantity == LotsFrom(t.plan.buyFills, 0)
  {
    hide ClearsAt, SideFills, SideRemainders, PreparedTrades, SelfPairOf, Pairs, Deal.Rest, Deal.InPairs, Deal.Matched;
    DealIsMatchedUp(m, t.plan.clearing, t.policy.allocation);
    SideFillsAreActive(m, Buy, t.plan.clearing, t.policy.allocation);
  }

  lemma FillComesFrom(fills: Fills, listed: seq<AuctionOrder>, shares: seq<nat>, active: Active, side: Side, k: nat)
    requires |listed| == |shares| && FromSources(fills, listed, shares, |listed|) && ActiveFills(active, fills, side)
    requires RestingOrders(active, listed) && k < |fills|
    ensures fills[k].sourceIndex < |listed| && fills[k].orderId in active && active[fills[k].orderId].side == side
    ensures listed[fills[k].sourceIndex].orderId == fills[k].orderId && listed[fills[k].sourceIndex].constraint == active[fills[k].orderId].constraint
    ensures listed[fills[k].sourceIndex].quantity == active[fills[k].orderId].quantity
  {
  }

  lemma FillMatchesIs(fill: AuctionOrderFill, side: Side, listed: seq<AuctionOrder>, orders: Orders)
    requires fill.orderId in ActiveOf(orders) && fill.orderId in orders
    ensures FillMatches(fill, side, listed, orders) <==>
              && fill.sourceIndex < |listed| && listed[fill.sourceIndex].orderId == fill.orderId
              && orders[fill.orderId].order.side == side && fill.quantityLots <= orders[fill.orderId].order.quantity
              && listed[fill.sourceIndex].constraint == orders[fill.orderId].order.constraint
              && listed[fill.sourceIndex].quantity == orders[fill.orderId].order.quantity
  {
  }

  lemma FillsMatchOrders(orders: Orders, m: BookModel, side: Side, c: AuctionClearing, allocation: AuctionAllocationPolicy)
    requires ClearsAt(m, c) && m.active == ActiveOf(orders)
    ensures FillsMatch(SideFills(m, side, c, allocation), side, SideOrders(m.active, side), orders)
  {
    hide SideFills, SideOrders, SideShares, Executed, ActiveFills, RestingOrders, AsAuctionOrder, BookModel.Valid, DistinctFills, FillMatches;
    var fills, listed := SideFills(m, side, c, allocation), SideOrders(m.active, side);
    SideFillsFit(m, side, c, allocation);
    SideFillsDistinct(m, side, c, allocation);
    SideFillsAreActive(m, side, c, allocation);
    forall k | 0 <= k < |fills| ensures FillMatches(fills[k], side, listed, orders) {
      hide *;
      FillComesFrom(fills, listed, SideShares(m, side, c, allocation), m.active, side, k);
      assert fills[k].quantityLots <= m.active[fills[k].orderId].quantity;
      OrderAt(orders, fills[k].orderId);
      FillMatchesIs(fills[k], side, listed, orders);
    }
  }

  lemma TwoSides(a: seq<CallAuctionCancellation>, b: seq<CallAuctionCancellation>)
    ensures a <= (a + b)[0..] && b <= (a + b)[|a|..]
  {
    assert (a + b)[|a|..] == b && (a + b)[0..] == a + b;
  }

  /** How committing answers, and the book it leaves. */
  ghost predicate CommitAnswers(r: Result<(), CallAuctionCommitError>, m: BookModel, bookInstanceId: nat, t: PreparedCallAuctionUncross, n: BookModel) {
    if t.bookInstanceId != bookInstanceId then r == Err(ForeignPreparation) && n == m
    else if t.stateRevision != m.stateRevision then r == Err(StalePreparation(t.stateRevision, m.stateRevision)) && n == m
    else IsPreparation(m, t) && TradeIdsFit(m, t.plan.clearing, t.policy.allocation) && r == Ok(()) && n == Uncrossed(m, t.plan.clearing, t.policy)
  }

  lemma CommitAnswersIs(m: BookModel, bookInstanceId: nat, t: PreparedCallAuctionUncross)
    ensures t.bookInstanceId != bookInstanceId ==> CommitAnswers(Err(ForeignPreparation), m, bookInstanceId, t, m)
    ensures t.bookInstanceId == bookInstanceId && t.stateRevision != m.stateRevision ==>
              CommitAnswers(Err(StalePreparation(t.stateRevision, m.stateRevision)), m, bookInstanceId, t, m)
    ensures t.bookInstanceId == bookInstanceId && t.stateRevision == m.stateRevision && IsPreparation(m, t)
            && TradeIdsFit(m, t.plan.clearing, t.policy.allocation) ==>
              && CommitAnswers(Ok(()), m, bookInstanceId, t, Uncrossed(m, t.plan.clearing, t.policy))
              && Uncrossed(m, t.plan.clearing, t.policy) ==
                   m.(active := ActiveAfter(m, t.plan.clearing, t.policy),
                      nextTradeId := m.nextTradeId + |PairsOf(m, t.plan.clearing, t.policy.allocation)|,
                      stateRevision := m.stateRevision + 1)
  {
  }

  lemma BuyFillApplies(m: BookModel, c: AuctionClearing, allocation: AuctionAllocationPolicy, k: nat)
    requires ClearsAt(m, c) && k < |SideFills(m, Buy, c, allocation)|
    ensures FillApplies(m, m.active, SideFills(m, Buy, c, allocation), k)
  {
    hide ClearsAt, SideFills, FillsApplied, InstrumentDefinition.ValidateLeaves, InstrumentDefinition.Valid;
    SideFillsFit(m, Buy, c, allocation);
    ClearingFacts(m, c);
    FillStep(m, c, allocation, m.active, SideFills(m, Buy, c, allocation), k);
  }

  lemma SellFillApplies(m: BookModel, c: AuctionClearing, allocation: AuctionAllocationPolicy, k: nat)
    requires ClearsAt(m, c) && k < |SideFills(m, Sell, c, allocation)|
    ensures var buys := SideFills(m, Buy, c, allocation);
            FillApplies(m, FillsApplied(m.active, buys, |buys|), SideFills(m, Sell, c, allocation), k)
  {
    hide ClearsAt, SideFills, FillsApplied, InstrumentDefinition.ValidateLeaves, InstrumentDefinition.Valid;
    var buys, sells := SideFills(m, Buy, c, allocation), SideFills(m, Sell, c, allocation);
    SideFillsFit(m, Buy, c, allocation);
    SideFillsFit(m, Sell, c, allocation);
    ClearingFacts(m, c);
    OtherSideUnfilled(m.active, buys, Buy, sells[k].orderId);
    AppliedAt(m.active, buys, |buys|, sells[k].orderId);
    FillStep(m, c, allocation, FillsApplied(m.active, buys, |buys|), sells, k);
  }

  /** The next fill meets its order untouched, leaves acceptable leaves, and extends the prefix. */
  ghost predicate FillApplies(m: BookModel, base: Active, fills: Fills, k: nat) {
    && k < |fills| && m.definition.Valid()
    && var before, fill := FillsApplied(base, fills, k), fills[k];
       && fill.orderId in before && fill.quantityLots <= before[fill.orderId].quantity
       && (fill.quantityLots < before[fill.orderId].quantity ==> m.definition.ValidateLeaves(before[fill.orderId].quantity - fill.quantityLots).None?)
       && FillsApplied(base, fills, k + 1) ==
            if fill.quantityLots == before[fill.orderId].quantity then before - {fill.orderId}
            else before[fill.orderId := before[fill.orderId].(quantity := before[fill.orderId].quantity - fill.quantityLots)]
  }

  /** Every fill of a list applies in its turn. */
  ghost predicate FillsApply(m: BookModel, base: Active, fills: Fills) {
    forall k {:trigger fills[k]} :: 0 <= k < |fills| ==> FillApplies(m, base, fills, k)
  }

  lemma FillsApplyAt(m: BookModel, base: Active, fills: Fills, k: nat)
    requires FillsApply(m, base, fills) && k < |fills|
    ensures FillApplies(m, base, fills, k)
  {
    hide FillApplies;
    var fill := fills[k];
  }

  lemma BuyFillsApply(m: BookModel, c: AuctionClearing, allocation: AuctionAllocationPolicy)
    requires ClearsAt(m, c)
    ensures FillsApply(m, m.active, SideFills(m, Buy, c, allocation))
  {
    hide ClearsAt, SideFills, FillApplies;
    forall k | 0 <= k < |SideFills(m, Buy, c, allocation)| ensures FillApplies(m, m.active, SideFills(m, Buy, c, allocation), k) {
      BuyFillApplies(m, c, allocation, k);
    }
  }

  lemma SellFillsApply(m: BookModel, c: AuctionClearing, allocation: AuctionAllocationPolicy)
    requires ClearsAt(m, c)
    ensures var buys := SideFills(m, Buy, c, allocation); FillsApply(m, FillsApplied(m.active, buys, |buys|), SideFills(m, Sell, c, allocation))
  {
    hide ClearsAt, SideFills, FillApplies, FillsApplied;
    var buys := SideFills(m, Buy, c, allocation);
    var base := FillsApplied(m.active, buys, |buys|);
    forall k | 0 <= k < |SideFills(m, Sell, c, allocation)| ensures FillApplies(m, base, SideFills(m, Sell, c, allocation), k) {
      SellFillApplies(m, c, allocation, k);
    }
  }

  /** Each cancelled order is active until its own cancellation. */
  ghost predicate StayActive(applied: Active, cancellations: seq<CallAuctionCancellation>) {
    forall k {:trigger cancellations[k]} :: 0 <= k < |cancellations| ==> cancellations[k].orderId in applied - CancelledIds(cancellations[..k])
  }

  lemma StaysActive(applied: Active, cancellations: seq<CallAuctionCancellation>, k: nat)
    requires StayActive(applied, cancellations) && k < |cancellations|
    ensures cancellations[k].orderId in applied - CancelledIds(cancellations[..k])
  {
    hide CancelledIds;
  }

  lemma CancelledAreActive(m: BookModel, c: AuctionClearing, policy: CallAuctionUncrossPolicy)
    requires ClearsAt(m, c)
    ensures var buys, sells := SideFills(m, Buy, c, policy.allocation), SideFills(m, Sell, c, policy.allocation);
            StayActive(FillsApplied(FillsApplied(m.active, buys, |buys|), sells, |sells|), Cancellations(m, c, policy))
  {
    hide ClearsAt, SideFills, FillsApplied, CancelledIds, Cancellations;
    forall k | 0 <= k < |Cancellations(m, c, policy)|
      ensures var buys, sells := SideFills(m, Buy, c, policy.allocation), SideFills(m, Sell, c, policy.allocation);
              Cancellations(m, c, policy)[k].orderId in
                FillsApplied(FillsApplied(m.active, buys, |buys|), sells, |sells|) - CancelledIds(Cancellations(m, c, policy)[..k])
    {
      CancelledIsActive(m, c, policy, k);
    }
  }

  lemma FillAppliesIs(m: BookModel, base: Active, fills: Fills, k: nat)
    requires FillApplies(m, base, fills, k)
    ensures k < |fills| && m.definition.Valid()
    ensures var before, fill := FillsApplied(base, fills, k), fills[k];
            && fill.orderId in before && fill.quantityLots <= before[fill.orderId].quantity
            && (fill.quantityLots < before[fill.orderId].quantity ==> m.definition.ValidateLeaves(before[fill.orderId].quantity - fill.quantityLots).None?)
            && FillsApplied(base, fills, k + 1) ==
                 if fill.quantityLots == before[fill.orderId].quantity then before - {fill.orderId}
                 else before[fill.orderId := before[fill.orderId].(quantity := before[fill.orderId].quantity - fill.quantityLots)]
  {
  }

  lemma FillStep(m: BookModel, c: AuctionClearing, allocation: AuctionAllocationPolicy, base: Active, fills: Fills, k: nat)
    requires ClearsAt(m, c) && k < |fills| && DistinctFills(fills) && fills[k].orderId in m.active && fills[k].orderId in base
    requires base[fills[k].orderId] == m.active[fills[k].orderId]
    requires fills[k].quantityLots == Executed(m, c, allocation, fills[k].orderId) <= m.active[fills[k].orderId].quantity
    ensures FillApplies(m, base, fills, k)
  {
    hide ClearsAt, FillsApplied, InstrumentDefinition.ValidateLeaves, InstrumentDefinition.Valid, Executed;
    ClearingFacts(m, c);
    NextFill(base, fills, k);
    if fills[k].quantityLots < m.active[fills[k].orderId].quantity {
      LeavesStayAligned(m, c, allocation, fills[k].orderId);
    }
  }

  lemma NothingCancelled(active: Active, cancellations: seq<CallAuctionCancellation>)
    ensures active - CancelledIds(cancellations[..0]) == active
  {
  }

  lemma NextCancelled(active: Active, cancellations: seq<CallAuctionCancellation>, k: nat)
    requires k < |cancellations|
    ensures var id, before := cancellations[k].orderId, active - CancelledIds(cancellations[..k]);
            active - CancelledIds(cancellations[..k + 1]) == before - {id} && (id !in before ==> before - {id} == before)
  {
    var before, after := cancellations[..k], cancellations[..k + 1];
    forall id: OrderId ensures id in CancelledIds(after) <==> id in CancelledIds(before) || id == cancellations[k].orderId {
      if id in CancelledIds(before) {
        var i :| 0 <= i < k && before[i].orderId == id;
        assert after[i].orderId == id;
      }
      if id in CancelledIds(after) && id != cancellations[k].orderId {
        var i :| 0 <= i <= k && after[i].orderId == id;
        assert before[i].orderId == id;
      }
      assert after[k].orderId == cancellations[k].orderId;
    }
  }
}
