/** When a book accepts, amends, cancels and replaces, and which refusal it gives, bound by bound. */
module AdmissionLaws {
  import opened AbstractBook
  import opened Domain

  // ----- one order against the instrument

  ghost predicate RightInstrument(d: InstrumentDefinition, command: CallAuctionOrder) {
    command.instrumentId == d.instrumentId && command.instrumentVersion == d.version
  }

  ghost predicate WithinSizes(d: InstrumentDefinition, lots: nat) {
    d.minimumLots <= lots <= d.maximumLots
  }

  ghost predicate OnLotGrid(d: InstrumentDefinition, lots: nat)
    requires d.incrementLots >= 1
  {
    lots % d.incrementLots == 0
  }

  ghost predicate WithinCollar(d: InstrumentDefinition, price: Price) {
    d.minimumPrice <= price <= d.maximumPrice
  }

  ghost predicate OnTickGrid(d: InstrumentDefinition, price: Price)
    requires d.tickSize >= 1
  {
    price % d.tickSize == 0
  }

  lemma RulesArePositive(d: InstrumentDefinition)
    requires d.Valid()
    ensures d.tickSize >= 1 && d.incrementLots >= 1
  {
  }

  /** The instrument admits a price exactly inside the collar on the tick grid; the refusal says which
      bound it misses, the collar first. */
  lemma PriceVerdict(d: InstrumentDefinition, price: Price)
    requires d.Valid()
    ensures d.tickSize >= 1
    ensures d.ValidatePrice(price) == None <==> WithinCollar(d, price) && OnTickGrid(d, price)
    ensures d.ValidatePrice(price) == Some(PriceOutsideCollar) <==> !WithinCollar(d, price)
    ensures d.ValidatePrice(price) == Some(PriceOffTickGrid) <==> WithinCollar(d, price) && !OnTickGrid(d, price)
  {
  }

  /** New quantities obey both sizes, leaves only the maximum; both the lot grid. */
  lemma QuantityVerdict(d: InstrumentDefinition, lots: Quantity)
    requires d.Valid()
    ensures d.incrementLots >= 1
    ensures d.ValidateQuantity(lots) == None <==> WithinSizes(d, lots) && OnLotGrid(d, lots)
    ensures d.ValidateQuantity(lots) == Some(QuantityOutsideLimits) <==> !WithinSizes(d, lots)
    ensures d.ValidateQuantity(lots) == Some(QuantityOffGrid) <==> WithinSizes(d, lots) && !OnLotGrid(d, lots)
    ensures d.ValidateLeaves(lots) == None <==> lots <= d.maximumLots && OnLotGrid(d, lots)
    ensures d.ValidateLeaves(lots) == Some(QuantityOutsideLimits) <==> lots > d.maximumLots
    ensures d.ValidateLeaves(lots) == Some(QuantityOffGrid) <==> lots <= d.maximumLots && !OnLotGrid(d, lots)
  {
  }

  /** The instrument's verdict on an order, check by check. */
  ghost predicate InstrumentVerdict(d: InstrumentDefinition, command: CallAuctionOrder, refusal: Option<AdmissionError>)
    requires d.tickSize >= 1 && d.incrementLots >= 1
  {
    var quantityFits := WithinSizes(d, command.quantity) && OnLotGrid(d, command.quantity);
    match refusal
    case Some(WrongInstrument) => command.instrumentId != d.instrumentId
    case Some(WrongVersion) => command.instrumentId == d.instrumentId && command.instrumentVersion != d.version
    case Some(QuantityOutsideLimits) => RightInstrument(d, command) && !WithinSizes(d, command.quantity)
    case Some(QuantityOffGrid) => RightInstrument(d, command) && WithinSizes(d, command.quantity) && !OnLotGrid(d, command.quantity)
    case Some(PriceOutsideCollar) =>
      RightInstrument(d, command) && quantityFits && command.constraint.Limit? && !WithinCollar(d, command.constraint.price)
    case Some(PriceOffTickGrid) =>
      && RightInstrument(d, command) && quantityFits && command.constraint.Limit?
      && WithinCollar(d, command.constraint.price) && !OnTickGrid(d, command.constraint.price)
    case None =>
      && RightInstrument(d, command) && quantityFits
      && (command.constraint.Limit? ==> WithinCollar(d, command.constraint.price) && OnTickGrid(d, command.constraint.price))
  }

  lemma CommandVerdict(d: InstrumentDefinition, command: CallAuctionOrder, refusal: Option<AdmissionError>)
    requires d.Valid()
    ensures d.tickSize >= 1 && d.incrementLots >= 1
    ensures ValidateCommand(d, command) == refusal <==> InstrumentVerdict(d, command, refusal)
  {
    RulesArePositive(d);
    QuantityVerdict(d, command.quantity);
    if command.constraint.Limit? { PriceVerdict(d, command.constraint.price); }
    hide InstrumentDefinition.Valid, InstrumentDefinition.ValidateQuantity, InstrumentDefinition.ValidatePrice, WithinSizes, OnLotGrid, WithinCollar, OnTickGrid;
  }

  // ----- admission

  /** Prices at which a side holds limit orders. */
  ghost function Occupied(active: map<OrderId, CallAuctionOrderSnapshot>, side: Side): set<Price> {
    set id | id in active && active[id].side == side && active[id].constraint.Limit? :: active[id].constraint.price
  }

  /** There is a level for the order: market orders need none, an occupied one is shared. */
  ghost predicate LevelFree(active: map<OrderId, CallAuctionOrderSnapshot>, maximum: nat, order: CallAuctionOrder) {
    order.constraint.Limit? ==> order.constraint.price in Occupied(active, order.side) || |Occupied(active, order.side)| < maximum
  }

  /** Why an order new to a book is refused, or that it is accepted; each refusal stands for the first
      bound missed. */
  ghost predicate AdmissionVerdict(m: BookModel, command: CallAuctionOrder, r: Result<CallAuctionOrderSnapshot, CallAuctionAdmissionError>)
    requires m.definition.tickSize >= 1 && m.definition.incrementLots >= 1
  {
    var fits := InstrumentVerdict(m.definition, command, None) && command.orderId !in m.seen;
    var room := |m.active| < m.limits.maxActiveOrders && |m.seen| < m.limits.maxAcceptedOrderIds;
    var level := LevelFree(m.active, m.limits.maxPriceLevelsPerSide, command);
    match r
    case Err(Instrument(error)) => InstrumentVerdict(m.definition, command, Some(error))
    case Err(DuplicateOrderId) => InstrumentVerdict(m.definition, command, None) && command.orderId in m.seen
    case Err(CapacityExceeded(ActiveOrders)) => fits && |m.active| >= m.limits.maxActiveOrders
    case Err(CapacityExceeded(AcceptedOrderIds)) => fits && |m.active| < m.limits.maxActiveOrders && |m.seen| >= m.limits.maxAcceptedOrderIds
    case Err(CapacityExceeded(BidPriceLevels)) => fits && room && !level && command.side == Buy
    case Err(CapacityExceeded(AskPriceLevels)) => fits && room && !level && command.side == Sell
    case Err(PrioritySequenceExhausted) => fits && room && level && m.nextPrioritySequence == U64_MAX
    case Err(AdmissionRevisionExhausted) => fits && room && level && m.nextPrioritySequence < U64_MAX && m.stateRevision == U64_MAX
    case Err(AggregateQuantityOverflow(_)) => false
    case Ok(accepted) =>
      && fits && room && level && m.nextPrioritySequence < U64_MAX && m.stateRevision < U64_MAX
      && accepted == CallAuctionOrderSnapshot(command.orderId, command.accountId, command.side, command.constraint, command.quantity,
                                              command.priorityClass, m.nextPrioritySequence)
  }

  lemma LevelsAre(m: BookModel, side: Side)
    ensures m.LevelPrices(side) == Occupied(m.active, side)
  {
  }

  /** Admission gives exactly the verdict of the first bound the order misses. */
  lemma AdmissionExactly(m: BookModel, command: CallAuctionOrder, r: Result<CallAuctionOrderSnapshot, CallAuctionAdmissionError>)
    requires m.definition.Valid()
    ensures m.definition.tickSize >= 1 && m.definition.incrementLots >= 1
    ensures Admission(m, command) == r <==> AdmissionVerdict(m, command, r)
  {
    RulesArePositive(m.definition);
    LevelsAre(m, command.side);
    CommandVerdict(m.definition, command, ValidateCommand(m.definition, command));
    CommandVerdict(m.definition, command, None);
    forall error: AdmissionError ensures ValidateCommand(m.definition, command) == Some(error) <==> InstrumentVerdict(m.definition, command, Some(error)) {
      CommandVerdict(m.definition, command, Some(error));
    }
    hide InstrumentDefinition.Valid, ValidateCommand, InstrumentVerdict, BookModel.LevelPrices, Occupied;
    match command.side case Buy => case Sell =>
  }

  // ----- cancellation and amendment

  /** The refusal a named order gives before anything else is looked at. */
  ghost predicate Absent(m: BookModel, id: OrderId) {
    id !in m.active
  }

  ghost predicate Foreign(m: BookModel, account: AccountId, id: OrderId) {
    id in m.active && m.active[id].accountId != account
  }

  ghost predicate Own(m: BookModel, account: AccountId, id: OrderId) {
    id in m.active && m.active[id].accountId == account
  }

  lemma CancellationExactly(m: BookModel, account: AccountId, id: OrderId)
    ensures Cancellation(m, account, id) == Err(UnknownOrder) <==> Absent(m, id)
    ensures Cancellation(m, account, id) == Err(AccountMismatch) <==> Foreign(m, account, id)
    ensures Cancellation(m, account, id) == Err(StateRevisionExhausted) <==> Own(m, account, id) && m.stateRevision == U64_MAX
    ensures Cancellation(m, account, id).Ok? <==> Own(m, account, id) && m.stateRevision < U64_MAX
    ensures Cancellation(m, account, id).Ok? ==> Cancellation(m, account, id).value == m.active[id]
  {
  }

  lemma AmendmentExactly(m: BookModel, account: AccountId, id: OrderId, lots: Quantity)
    requires m.definition.Valid()
    ensures m.definition.incrementLots >= 1
    ensures Amendment(m, account, id, lots) == Err(UnknownTarget) <==> Absent(m, id)
    ensures Amendment(m, account, id, lots) == Err(TargetAccountMismatch) <==> Foreign(m, account, id)
    ensures Amendment(m, account, id, lots) == Err(LeavesRule(QuantityOutsideLimits)) <==> Own(m, account, id) && lots > m.definition.maximumLots
    ensures Amendment(m, account, id, lots) == Err(LeavesRule(QuantityOffGrid)) <==>
              Own(m, account, id) && lots <= m.definition.maximumLots && !OnLotGrid(m.definition, lots)
    ensures Amendment(m, account, id, lots) == Err(QuantityNotReduced) <==>
              Own(m, account, id) && lots <= m.definition.maximumLots && OnLotGrid(m.definition, lots) && lots >= m.active[id].quantity
    ensures Amendment(m, account, id, lots).Ok? <==>
              && Own(m, account, id) && lots <= m.definition.maximumLots && OnLotGrid(m.definition, lots) && lots < m.active[id].quantity
              && m.stateRevision < U64_MAX
    ensures Amendment(m, account, id, lots).Ok? ==> Amendment(m, account, id, lots).value == m.active[id]
  {
    QuantityVerdict(m.definition, lots);
    hide InstrumentDefinition.Valid, InstrumentDefinition.ValidateLeaves;
  }

  // ----- replacement

  /** Why a replacement is refused, or that it is accepted: the target first, then the new order as if the
      target had left; a full book has room because it has. */
  ghost predicate ReplacementVerdict(m: BookModel, account: AccountId, target: OrderId, order: CallAuctionOrder,
                                     r: Result<(CallAuctionOrderSnapshot, CallAuctionOrderSnapshot), CallAuctionReplaceError>)
    requires m.definition.tickSize >= 1 && m.definition.incrementLots >= 1
  {
    var own := Own(m, account, target) && order.accountId == account;
    var fits := own && InstrumentVerdict(m.definition, order, None) && order.orderId !in m.seen;
    var room := |m.seen| < m.limits.maxAcceptedOrderIds;
    var level := LevelFree(m.active - {target}, m.limits.maxPriceLevelsPerSide, order);
    match r
    case Err(Target(UnknownOrder)) => Absent(m, target)
    case Err(Target(AccountMismatch)) => Foreign(m, account, target)
    case Err(Target(StateRevisionExhausted)) => false
    case Err(ReplacementAccountMismatch) => Own(m, account, target) && order.accountId != account
    case Err(Replacement(Instrument(error))) => own && InstrumentVerdict(m.definition, order, Some(error))
    case Err(Replacement(DuplicateOrderId)) => own && InstrumentVerdict(m.definition, order, None) && order.orderId in m.seen
    case Err(Replacement(CapacityExceeded(ActiveOrders))) => false
    case Err(Replacement(CapacityExceeded(AcceptedOrderIds))) => fits && !room
    case Err(Replacement(CapacityExceeded(BidPriceLevels))) => fits && room && !level && order.side == Buy
    case Err(Replacement(CapacityExceeded(AskPriceLevels))) => fits && room && !level && order.side == Sell
    case Err(Replacement(PrioritySequenceExhausted)) => fits && room && level && m.nextPrioritySequence == U64_MAX
    case Err(Replacement(AdmissionRevisionExhausted)) => fits && room && level && m.nextPrioritySequence < U64_MAX && m.stateRevision == U64_MAX
    case Err(Replacement(AggregateQuantityOverflow(_))) => false
    case Ok((left, accepted)) =>
      && fits && room && level && m.nextPrioritySequence < U64_MAX && m.stateRevision < U64_MAX && left == m.active[target]
      && accepted == CallAuctionOrderSnapshot(order.orderId, order.accountId, order.side, order.constraint, order.quantity,
                                              order.priorityClass, m.nextPrioritySequence)
  }

  lemma ReplacementExactly(m: BookModel, account: AccountId, target: OrderId, order: CallAuctionOrder,
                           r: Result<(CallAuctionOrderSnapshot, CallAuctionOrderSnapshot), CallAuctionReplaceError>)
    requires m.definition.Valid()
    ensures m.definition.tickSize >= 1 && m.definition.incrementLots >= 1
    ensures ReplacementOutcome(m, account, target, order) == r <==> ReplacementVerdict(m, account, target, order, r)
  {
    RulesArePositive(m.definition);
    LevelsAre(WithoutTarget(m, target), order.side);
    CommandVerdict(m.definition, order, None);
    forall error: AdmissionError ensures ValidateCommand(m.definition, order) == Some(error) <==> InstrumentVerdict(m.definition, order, Some(error)) {
      CommandVerdict(m.definition, order, Some(error));
    }
    hide InstrumentDefinition.Valid, ValidateCommand, InstrumentVerdict, BookModel.LevelPrices, Occupied;
    match order.side case Buy => case Sell =>
  }
}
