/** The collection book as a plain map of active orders: instrument rules, limits, and what each
    operation means. The book of linked queues and lanes is proved to refine this. */
module AbstractBook {
  import opened Arithmetic
  import opened Domain

  datatype AdmissionError =
    | WrongInstrument
    | WrongVersion
    | PriceOffTickGrid
    | PriceOutsideCollar
    | QuantityOffGrid
    | QuantityOutsideLimits

  /** Immutable instrument rules: identity, tick and collar, lot increment and order size. */
  datatype InstrumentDefinition = InstrumentDefinition(
    instrumentId: Id, version: Id,
    tickSize: i64, minimumPrice: Price, maximumPrice: Price,
    incrementLots: u64, minimumLots: u64, maximumLots: u64)
  {
    ghost predicate Valid() {
      && tickSize >= 1 && minimumPrice <= maximumPrice
      && IsMultiple(minimumPrice, tickSize) && IsMultiple(maximumPrice, tickSize)
      && 1 <= incrementLots && 1 <= minimumLots <= maximumLots
      && IsMultiple(minimumLots, incrementLots) && IsMultiple(maximumLots, incrementLots)
    }

    /** A remainder is zero under truncating and Euclidean division alike. */
    function ValidatePrice(price: Price): Option<AdmissionError>
      requires Valid()
    {
      if price < minimumPrice || price > maximumPrice then Some(PriceOutsideCollar)
      else if !IsMultiple(price, tickSize) then Some(PriceOffTickGrid)
      else None
    }

    function ValidateQuantity(quantity: Quantity): Option<AdmissionError>
      requires Valid()
    {
      if quantity < minimumLots || quantity > maximumLots then Some(QuantityOutsideLimits)
      else if !IsMultiple(quantity, incrementLots) then Some(QuantityOffGrid)
      else None
    }

    /** Leaves keep the maximum and the increment but not the order-entry minimum. */
    function ValidateLeaves(quantity: Quantity): Option<AdmissionError>
      requires Valid()
    {
      if quantity > maximumLots then Some(QuantityOutsideLimits)
      else if !IsMultiple(quantity, incrementLots) then Some(QuantityOffGrid)
      else None
    }
  }

  datatype InstrumentError = InvalidTickSize | InvalidPriceRange | CollarOffTickGrid | InvalidQuantityRule | QuantityBoundaryOffGrid

  /** What the constructor of price rules finds wrong first. */
  function PriceRulesError(tickSize: u64, minimum: Price, maximum: Price): Option<InstrumentError> {
    if tickSize > I64_MAX || tickSize == 0 then Some(InvalidTickSize)
    else if minimum > maximum then Some(InvalidPriceRange)
    else if minimum % tickSize != 0 || maximum % tickSize != 0 then Some(CollarOffTickGrid)
    else None
  }

  /** What the constructor of quantity rules finds wrong first. */
  function QuantityRulesError(increment: u64, minimum: u64, maximum: u64): Option<InstrumentError> {
    if increment == 0 || minimum == 0 || maximum == 0 || minimum > maximum then Some(InvalidQuantityRule)
    else if minimum % increment != 0 || maximum % increment != 0 then Some(QuantityBoundaryOffGrid)
    else None
  }

  /** The valid instruments are those whose rules the constructors accept. */
  lemma InstrumentsAreConstructed(d: InstrumentDefinition)
    ensures d.Valid() <==>
              && d.tickSize >= 0 && PriceRulesError(d.tickSize, d.minimumPrice, d.maximumPrice).None?
              && QuantityRulesError(d.incrementLots, d.minimumLots, d.maximumLots).None?
  {
  }

  datatype CallAuctionBookLimits = CallAuctionBookLimits(
    maxActiveOrders: usize, maxPriceLevelsPerSide: usize, maxAcceptedOrderIds: usize, maxPreparedUncrosses: usize)
  {
    ghost predicate Valid() {
      && 1 <= maxPriceLevelsPerSide <= maxActiveOrders <= maxAcceptedOrderIds
      && 1 <= maxPreparedUncrosses
    }
  }

  datatype CallAuctionBookLimitsError =
    | ZeroActiveOrders
    | ZeroPriceLevels
    | ZeroAcceptedOrderIds
    | ZeroPreparedUncrosses
    | PriceLevelsExceedActiveOrders
    | ActiveOrdersExceedAcceptedOrderIds

  /** What the constructor of book limits finds wrong first. */
  function BookLimitsError(limits: CallAuctionBookLimits): Option<CallAuctionBookLimitsError> {
    if limits.maxActiveOrders == 0 then Some(ZeroActiveOrders)
    else if limits.maxPriceLevelsPerSide == 0 then Some(ZeroPriceLevels)
    else if limits.maxAcceptedOrderIds == 0 then Some(ZeroAcceptedOrderIds)
    else if limits.maxPreparedUncrosses == 0 then Some(ZeroPreparedUncrosses)
    else if limits.maxPriceLevelsPerSide > limits.maxActiveOrders then Some(PriceLevelsExceedActiveOrders)
    else if limits.maxActiveOrders > limits.maxAcceptedOrderIds then Some(ActiveOrdersExceedAcceptedOrderIds)
    else None
  }

  /** The valid limits are those the constructor accepts. */
  lemma BookLimitsAreConstructed(limits: CallAuctionBookLimits)
    ensures limits.Valid() <==> BookLimitsError(limits).None?
  {
  }

  datatype CallAuctionOrder = CallAuctionOrder(
    orderId: OrderId, accountId: AccountId, instrumentId: Id, instrumentVersion: Id,
    side: Side, constraint: AuctionOrderConstraint, quantity: Quantity, priorityClass: u16)

  datatype CallAuctionOrderSnapshot = CallAuctionOrderSnapshot(
    orderId: OrderId, accountId: AccountId, side: Side, constraint: AuctionOrderConstraint,
    quantity: Quantity, priorityClass: u16, prioritySequence: u64)

  datatype CallAuctionCapacity = ActiveOrders | AcceptedOrderIds | BidPriceLevels | AskPriceLevels

  datatype CallAuctionAdmissionError =
    | Instrument(error: AdmissionError)
    | DuplicateOrderId
    | CapacityExceeded(capacity: CallAuctionCapacity)
    | PrioritySequenceExhausted
    | AdmissionRevisionExhausted
    | AggregateQuantityOverflow(side: Side)

  datatype CallAuctionCancelError = UnknownOrder | AccountMismatch | StateRevisionExhausted

  datatype CallAuctionAmendError =
    | UnknownTarget
    | TargetAccountMismatch
    | LeavesRule(error: AdmissionError)
    | QuantityNotReduced
    | AmendRevisionExhausted

  datatype CallAuctionReplaceError =
    | Target(cancel: CallAuctionCancelError)
    | ReplacementAccountMismatch
    | Replacement(admission: CallAuctionAdmissionError)

  datatype MassCancelScope = All | OneSide(side: Side)

  predicate Includes(scope: MassCancelScope, side: Side) {
    scope == All || scope == OneSide(side)
  }

  datatype BookModel = BookModel(
    definition: InstrumentDefinition,
    limits: CallAuctionBookLimits,
    active: map<OrderId, CallAuctionOrderSnapshot>,
    seen: set<OrderId>,
    nextPrioritySequence: u64,
    nextTradeId: u64,
    stateRevision: u64)
  {
    /** Occupied limit prices of one side. */
    ghost function LevelPrices(side: Side): set<Price> {
      set id | id in active && active[id].side == side && active[id].constraint.Limit? :: active[id].constraint.price
    }

    ghost predicate OrderOk(id: OrderId)
      requires id in active && definition.Valid()
    {
      var order := active[id];
      && order.orderId == id && id in seen
      && definition.ValidateLeaves(order.quantity).None?
      && (order.constraint.Limit? ==> definition.ValidatePrice(order.constraint.price).None?)
      && 1 <= order.prioritySequence < nextPrioritySequence
    }

    /** Every structural rule of the book that does not mention its indexes. */
    ghost predicate Valid() {
      && definition.Valid() && limits.Valid()
      && (forall id :: id in active ==> OrderOk(id))
      && (forall a, b :: a in active && b in active && a != b ==> active[a].prioritySequence != active[b].prioritySequence)
      && |active| <= limits.maxActiveOrders && |seen| <= limits.maxAcceptedOrderIds
      && |LevelPrices(Buy)| <= limits.maxPriceLevelsPerSide && |LevelPrices(Sell)| <= limits.maxPriceLevelsPerSide
      && |seen| <= stateRevision && 1 <= nextPrioritySequence && 1 <= nextTradeId
    }
  }

  ghost function EmptyBook(definition: InstrumentDefinition, limits: CallAuctionBookLimits): (m: BookModel)
    requires definition.Valid() && limits.Valid()
    ensures m.Valid()
  {
    var m := BookModel(definition, limits, map[], {}, 1, 1, 0);
    assert m.LevelPrices(Buy) == {} && m.LevelPrices(Sell) == {};
    m
  }

  // ----- admission

  function ValidateCommand(definition: InstrumentDefinition, command: CallAuctionOrder): Option<AdmissionError>
    requires definition.Valid()
  {
    if command.instrumentId != definition.instrumentId then Some(WrongInstrument)
    else if command.instrumentVersion != definition.version then Some(WrongVersion)
    else if definition.ValidateQuantity(command.quantity).Some? then definition.ValidateQuantity(command.quantity)
    else if command.constraint.Limit? then definition.ValidatePrice(command.constraint.price)
    else None
  }

  function LevelCapacity(side: Side): CallAuctionCapacity {
    match side case Buy => BidPriceLevels case Sell => AskPriceLevels
  }

  function AcceptedSnapshot(command: CallAuctionOrder, prioritySequence: u64): CallAuctionOrderSnapshot {
    CallAuctionOrderSnapshot(command.orderId, command.accountId, command.side, command.constraint, command.quantity,
                             command.priorityClass, prioritySequence)
  }

  /** The command itself is unacceptable. */
  ghost function CommandError(m: BookModel, command: CallAuctionOrder): Option<CallAuctionAdmissionError>
    requires m.definition.Valid()
  {
    if ValidateCommand(m.definition, command).Some? then Some(Instrument(ValidateCommand(m.definition, command).value))
    else if command.orderId in m.seen then Some(DuplicateOrderId)
    else None
  }

  /** No identity slot, price level, priority sequence or revision is left for the command. */
  ghost function RoomError(m: BookModel, command: CallAuctionOrder): Option<CallAuctionAdmissionError> {
    var levels := m.LevelPrices(command.side);
    if |m.seen| >= m.limits.maxAcceptedOrderIds then Some(CapacityExceeded(AcceptedOrderIds))
    else if command.constraint.Limit? && command.constraint.price !in levels && |levels| >= m.limits.maxPriceLevelsPerSide then
      Some(CapacityExceeded(LevelCapacity(command.side)))
    else if m.nextPrioritySequence == U64_MAX then Some(PrioritySequenceExhausted)
    else if m.stateRevision == U64_MAX then Some(AdmissionRevisionExhausted)
    else None
  }

  ghost function Admission(m: BookModel, command: CallAuctionOrder): Result<CallAuctionOrderSnapshot, CallAuctionAdmissionError>
    requires m.definition.Valid()
  {
    if CommandError(m, command).Some? then Err(CommandError(m, command).value)
    else if |m.active| >= m.limits.maxActiveOrders then Err(CapacityExceeded(ActiveOrders))
    else if RoomError(m, command).Some? then Err(RoomError(m, command).value)
    else Ok(AcceptedSnapshot(command, m.nextPrioritySequence))
  }

  ghost function Admitted(m: BookModel, accepted: CallAuctionOrderSnapshot): BookModel
    requires m.nextPrioritySequence < U64_MAX && m.stateRevision < U64_MAX
  {
    m.(active := m.active[accepted.orderId := accepted], seen := m.seen + {accepted.orderId},
       nextPrioritySequence := m.nextPrioritySequence + 1, stateRevision := m.stateRevision + 1)
  }

  lemma LevelsAfterInsert(m: BookModel, active: map<OrderId, CallAuctionOrderSnapshot>, order: CallAuctionOrderSnapshot, side: Side)
    requires order.orderId !in m.active && active == m.active[order.orderId := order]
    ensures m.(active := active).LevelPrices(side) ==
              if side == order.side && order.constraint.Limit? then m.LevelPrices(side) + {order.constraint.price} else m.LevelPrices(side)
  {
    var after := m.(active := active).LevelPrices(side);
    forall price | price in after
      ensures price in m.LevelPrices(side) || (side == order.side && order.constraint == Limit(price))
    {
      var id :| id in active && active[id].side == side && active[id].constraint == Limit(price);
      if id != order.orderId { assert id in m.active && m.active[id] == active[id]; }
    }
    forall price | price in m.LevelPrices(side) ensures price in after {
      var id :| id in m.active && m.active[id].side == side && m.active[id].constraint == Limit(price);
      assert id in active && active[id] == m.active[id];
    }
    if side == order.side && order.constraint.Limit? {
      assert order.orderId in active && active[order.orderId] == order;
    }
  }

  lemma LevelsAfterAdmit(m: BookModel, command: CallAuctionOrder, side: Side)
    requires command.orderId !in m.active && |m.LevelPrices(side)| <= m.limits.maxPriceLevelsPerSide
    requires RoomError(m, command).None?
    ensures |Admitted(m, AcceptedSnapshot(command, m.nextPrioritySequence)).LevelPrices(side)| <= m.limits.maxPriceLevelsPerSide
  {
    var accepted := AcceptedSnapshot(command, m.nextPrioritySequence);
    var n := Admitted(m, accepted);
    LevelsAfterInsert(m, n.active, accepted, side);
    assert n.LevelPrices(side) == m.(active := n.active).LevelPrices(side);
    hide BookModel.LevelPrices;
    assert command.constraint.Limit? && command.constraint.price in m.LevelPrices(side) ==>
        m.LevelPrices(side) + {command.constraint.price} == m.LevelPrices(side);
  }

  lemma OrderAfterAdmit(m: BookModel, command: CallAuctionOrder, id: OrderId)
    requires m.Valid() && Admission(m, command).Ok?
    requires id in m.active || id == command.orderId
    ensures Admitted(m, AcceptedSnapshot(command, m.nextPrioritySequence)).OrderOk(id)
    ensures id in m.active ==> m.active[id].prioritySequence < m.nextPrioritySequence
  {
    hide BookModel.LevelPrices, InstrumentDefinition.ValidateLeaves, InstrumentDefinition.ValidatePrice, InstrumentDefinition.Valid;
    assert id in m.active ==> m.OrderOk(id);
    assert command.orderId in m.active ==> m.OrderOk(command.orderId);
    if id == command.orderId {
      QuantityRuleCoversLeaves(m.definition, command.quantity);
    }
  }

  lemma OrdersAfterAdmit(m: BookModel, command: CallAuctionOrder)
    requires m.Valid() && Admission(m, command).Ok?
    ensures m.nextPrioritySequence < U64_MAX && m.stateRevision < U64_MAX
    ensures var n := Admitted(m, AcceptedSnapshot(command, m.nextPrioritySequence));
            && (forall id :: id in n.active ==> n.OrderOk(id))
            && forall a, b :: a in n.active && b in n.active && a != b ==> n.active[a].prioritySequence != n.active[b].prioritySequence
  {
    var n := Admitted(m, AcceptedSnapshot(command, m.nextPrioritySequence));
    AdmittedIsNew(m, command);
    hide BookModel.LevelPrices, RoomError, CommandError, BookModel.OrderOk, InstrumentDefinition.Valid;
    forall id | id in n.active ensures n.OrderOk(id) {
      OrderAfterAdmit(m, command, id);
    }
    forall a, b | a in n.active && b in n.active && a != b
      ensures n.active[a].prioritySequence != n.active[b].prioritySequence
    {
      OrderAfterAdmit(m, command, a);
      OrderAfterAdmit(m, command, b);
    }
  }

  lemma AdmittedIsNew(m: BookModel, command: CallAuctionOrder)
    requires m.Valid() && Admission(m, command).Ok?
    ensures command.orderId !in m.active
  {
    assert command.orderId in m.active ==> m.OrderOk(command.orderId);
  }

  lemma AdmissionFacts(m: BookModel, command: CallAuctionOrder)
    requires m.Valid() && Admission(m, command).Ok?
    ensures command.orderId !in m.active && |m.active| < m.limits.maxActiveOrders
    ensures m.nextPrioritySequence < U64_MAX && m.stateRevision < U64_MAX
    ensures Admission(m, command) == Ok(AcceptedSnapshot(command, m.nextPrioritySequence))
  {
    AdmittedIsNew(m, command);
  }

  lemma AdmittedIs(m: BookModel, accepted: CallAuctionOrderSnapshot)
    requires m.nextPrioritySequence < U64_MAX && m.stateRevision < U64_MAX
    ensures Admitted(m, accepted) == m.(active := m.active[accepted.orderId := accepted], seen := m.seen + {accepted.orderId},
                                        nextPrioritySequence := m.nextPrioritySequence + 1, stateRevision := m.stateRevision + 1)
  {
  }

  lemma RulesHold(m: BookModel)
    requires m.Valid()
    ensures m.definition.Valid() && m.limits.Valid()
  {
  }

  lemma AdmitKeepsValid(m: BookModel, command: CallAuctionOrder)
    requires m.Valid() && Admission(m, command).Ok?
    ensures Admission(m, command) == Ok(AcceptedSnapshot(command, m.nextPrioritySequence))
    ensures Admitted(m, AcceptedSnapshot(command, m.nextPrioritySequence)).Valid()
  {
    AdmittedIsNew(m, command);
    OrdersAfterAdmit(m, command);
    LevelsAfterAdmit(m, command, Buy);
    LevelsAfterAdmit(m, command, Sell);
    hide BookModel.LevelPrices, BookModel.OrderOk, InstrumentDefinition.Valid, CommandError;
  }

  lemma QuantityRuleCoversLeaves(definition: InstrumentDefinition, quantity: Quantity)
    requires definition.Valid() && definition.ValidateQuantity(quantity).None?
    ensures definition.ValidateLeaves(quantity).None?
  {
  }

  lemma OrderFacts(m: BookModel, id: OrderId)
    requires m.Valid() && id in m.active
    ensures m.definition.Valid() && m.active[id].orderId == id && id in m.seen
    ensures m.definition.ValidateLeaves(m.active[id].quantity).None?
    ensures 1 <= m.active[id].prioritySequence < m.nextPrioritySequence
  {
    assert m.OrderOk(id);
  }

  /** Aligned leaves stay acceptable leaves when a smaller aligned quantity is taken. */
  lemma LeavesAfter(definition: InstrumentDefinition, leaves: Quantity, taken: nat)
    requires definition.Valid() && definition.ValidateLeaves(leaves).None?
    requires taken < leaves && IsMultiple(taken, definition.incrementLots)
    ensures definition.ValidateLeaves(leaves - taken).None?
  {
    hide IsMultiple;
    MultiplesCombine(leaves, taken, definition.incrementLots);
  }

  // ----- removal and reduction of active orders

  /** `n` keeps a subset of the orders of `m`, possibly with smaller aligned leaves. */
  ghost predicate Shrinks(m: BookModel, active: map<OrderId, CallAuctionOrderSnapshot>) {
    && active.Keys <= m.active.Keys
    && forall id :: id in active ==> m.active[id].(quantity := active[id].quantity) == active[id]
  }

  lemma ShrinkKeepsValid(m: BookModel, n: BookModel)
    requires m.Valid() && Shrinks(m, n.active)
    requires n.definition == m.definition && n.limits == m.limits && n.seen == m.seen
    requires n.nextPrioritySequence == m.nextPrioritySequence && n.nextTradeId >= 1 && n.stateRevision >= m.stateRevision
    requires forall id :: id in n.active ==> m.definition.ValidateLeaves(n.active[id].quantity).None?
    ensures n.Valid()
  {
    forall id | id in n.active ensures n.OrderOk(id) {
      assert m.OrderOk(id);
    }
    LevelsShrink(m, n, Buy);
    LevelsShrink(m, n, Sell);
    SubsetSize(n.active.Keys, m.active.Keys);
    assert |n.active| == |n.active.Keys| && |m.active| == |m.active.Keys|;
  }

  lemma LevelsShrink(m: BookModel, n: BookModel, side: Side)
    requires Shrinks(m, n.active)
    ensures n.LevelPrices(side) <= m.LevelPrices(side)
    ensures |n.LevelPrices(side)| <= |m.LevelPrices(side)|
  {
    forall price | price in n.LevelPrices(side) ensures price in m.LevelPrices(side) {
      var id :| id in n.active && n.active[id].side == side && n.active[id].constraint == Limit(price);
      assert id in m.active && m.active[id].side == side && m.active[id].constraint == Limit(price);
    }
    SubsetSize(n.LevelPrices(side), m.LevelPrices(side));
  }

  lemma {:induction false} SubsetSize<T>(a: set<T>, b: set<T>)
    requires a <= b
    ensures |a| <= |b|
  {
    assert b == a + (b - a);
    assert |a + (b - a)| == |a| + |b - a|;
  }

  ghost function Cancellation(m: BookModel, accountId: AccountId, orderId: OrderId): Result<CallAuctionOrderSnapshot, CallAuctionCancelError> {
    if orderId !in m.active then Err(UnknownOrder)
    else if m.active[orderId].accountId != accountId then Err(AccountMismatch)
    else if m.stateRevision == U64_MAX then Err(StateRevisionExhausted)
    else Ok(m.active[orderId])
  }

  /** The orders in `ids` leave; one revision covers them all. */
  ghost function WithoutOrders(m: BookModel, ids: set<OrderId>): BookModel
    requires m.stateRevision < U64_MAX
  {
    m.(active := m.active - ids, stateRevision := m.stateRevision + 1)
  }

  lemma WithoutOrdersIs(m: BookModel, ids: set<OrderId>)
    requires m.stateRevision < U64_MAX
    ensures WithoutOrders(m, ids) == m.(active := m.active - ids, stateRevision := m.stateRevision + 1)
  {
  }

  lemma CancellationFacts(m: BookModel, accountId: AccountId, orderId: OrderId)
    ensures Cancellation(m, accountId, orderId).Ok? ==>
              orderId in m.active && m.stateRevision < U64_MAX && m.active[orderId].accountId == accountId
              && Cancellation(m, accountId, orderId).value == m.active[orderId]
  {
  }

  lemma RemoveKeepsValid(m: BookModel, ids: set<OrderId>)
    requires m.Valid() && m.stateRevision < U64_MAX
    ensures WithoutOrders(m, ids).Valid()
  {
    forall id | id in WithoutOrders(m, ids).active ensures m.definition.ValidateLeaves(m.active[id].quantity).None? {
      assert m.OrderOk(id);
    }
    ShrinkKeepsValid(m, WithoutOrders(m, ids));
  }

  lemma ReducedIsValid(m: BookModel, id: OrderId, quantity: Quantity)
    requires m.Valid() && id in m.active && m.definition.Valid() && m.definition.ValidateLeaves(quantity).None?
    ensures m.(active := m.active[id := m.active[id].(quantity := quantity)]).Valid()
  {
    var n := m.(active := m.active[id := m.active[id].(quantity := quantity)]);
    hide InstrumentDefinition.ValidateLeaves;
    forall other | other in n.active ensures m.definition.ValidateLeaves(n.active[other].quantity).None? {
      OrderFacts(m, other);
    }
    ShrinkKeepsValid(m, n);
  }

  ghost function Amendment(m: BookModel, accountId: AccountId, orderId: OrderId, newQuantity: Quantity): Result<CallAuctionOrderSnapshot, CallAuctionAmendError>
    requires m.definition.Valid()
  {
    if orderId !in m.active then Err(UnknownTarget)
    else if m.active[orderId].accountId != accountId then Err(TargetAccountMismatch)
    else if m.definition.ValidateLeaves(newQuantity).Some? then Err(LeavesRule(m.definition.ValidateLeaves(newQuantity).value))
    else if newQuantity >= m.active[orderId].quantity then Err(QuantityNotReduced)
    else if m.stateRevision == U64_MAX then Err(AmendRevisionExhausted)
    else Ok(m.active[orderId])
  }

  ghost function Amended(m: BookModel, orderId: OrderId, newQuantity: Quantity): BookModel
    requires orderId in m.active && m.stateRevision < U64_MAX
  {
    m.(active := m.active[orderId := m.active[orderId].(quantity := newQuantity)], stateRevision := m.stateRevision + 1)
  }

  lemma AmendedIs(m: BookModel, orderId: OrderId, newQuantity: Quantity)
    requires orderId in m.active && m.stateRevision < U64_MAX
    ensures Amended(m, orderId, newQuantity) ==
              m.(active := m.active[orderId := m.active[orderId].(quantity := newQuantity)], stateRevision := m.stateRevision + 1)
  {
  }

  lemma AmendmentFacts(m: BookModel, accountId: AccountId, orderId: OrderId, newQuantity: Quantity)
    requires m.definition.Valid()
    ensures Amendment(m, accountId, orderId, newQuantity).Ok? ==>
              && orderId in m.active && m.stateRevision < U64_MAX && newQuantity < m.active[orderId].quantity
              && m.definition.ValidateLeaves(newQuantity).None? && m.active[orderId].accountId == accountId
              && Amendment(m, accountId, orderId, newQuantity).value == m.active[orderId]
  {
  }

  lemma AmendKeepsValid(m: BookModel, accountId: AccountId, orderId: OrderId, newQuantity: Quantity)
    requires m.Valid() && Amendment(m, accountId, orderId, newQuantity).Ok?
    ensures Amended(m, orderId, newQuantity).Valid()
  {
    OrderFacts(m, orderId);
    hide BookModel.Valid, InstrumentDefinition.ValidateLeaves, InstrumentDefinition.Valid;
    var n := m.(active := m.active[orderId := m.active[orderId].(quantity := newQuantity)]);
    ReducedIsValid(m, orderId, newQuantity);
    RevisionMayRise(n, Amended(m, orderId, newQuantity));
  }

  lemma RevisionMayRise(m: BookModel, n: BookModel)
    requires m.Valid() && n == m.(stateRevision := n.stateRevision) && n.stateRevision >= m.stateRevision
    ensures n.Valid()
  {
    forall id | id in n.active ensures n.OrderOk(id) { assert m.OrderOk(id); }
    assert n.LevelPrices(Buy) == m.LevelPrices(Buy) && n.LevelPrices(Sell) == m.LevelPrices(Sell);
  }

  // ----- replacement

  /** The book just after the target has left, before the revision moves. */
  ghost function WithoutTarget(m: BookModel, target: OrderId): BookModel {
    m.(active := m.active - {target})
  }

  /** The replacement is judged against the book its target has left. */
  ghost function ReplacementOutcome(m: BookModel, accountId: AccountId, targetOrderId: OrderId, replacement: CallAuctionOrder)
    : Result<(CallAuctionOrderSnapshot, CallAuctionOrderSnapshot), CallAuctionReplaceError>
    requires m.definition.Valid()
  {
    var rest := WithoutTarget(m, targetOrderId);
    if targetOrderId !in m.active then Err(Target(UnknownOrder))
    else if m.active[targetOrderId].accountId != accountId then Err(Target(AccountMismatch))
    else if replacement.accountId != accountId then Err(ReplacementAccountMismatch)
    else if CommandError(m, replacement).Some? then Err(Replacement(CommandError(m, replacement).value))
    else if RoomError(rest, replacement).Some? then Err(Replacement(RoomError(rest, replacement).value))
    else Ok((m.active[targetOrderId], AcceptedSnapshot(replacement, m.nextPrioritySequence)))
  }

  ghost predicate OnLevel(order: CallAuctionOrderSnapshot, side: Side, price: Price) {
    order.side == side && order.constraint == Limit(price)
  }

  ghost predicate LevelHolds(active: map<OrderId, CallAuctionOrderSnapshot>, side: Side, price: Price) {
    exists id :: id in active && OnLevel(active[id], side, price)
  }

  lemma LevelMember(m: BookModel, side: Side, price: Price)
    ensures price in m.LevelPrices(side) <==> LevelHolds(m.active, side, price)
  {
    if price in m.LevelPrices(side) {
      var id :| id in m.active && m.active[id].side == side && m.active[id].constraint.Limit? && m.active[id].constraint.price == price;
      assert OnLevel(m.active[id], side, price);
    }
  }

  /** A level survives a departure unless the leaver was alone on it. */
  lemma LevelAfterDeparture(active: map<OrderId, CallAuctionOrderSnapshot>, target: OrderId, side: Side, price: Price)
    requires target in active
    ensures OnLevel(active[target], side, price) ==>
              (LevelHolds(active - {target}, side, price) <==> exists id :: id in active && id != target && OnLevel(active[id], side, price))
    ensures !OnLevel(active[target], side, price) ==> (LevelHolds(active - {target}, side, price) <==> LevelHolds(active, side, price))
  {
    hide OnLevel;
    var rest := active - {target};
    forall id | id in active && id != target && OnLevel(active[id], side, price) ensures LevelHolds(rest, side, price) {
      assert id in rest && rest[id] == active[id];
    }
    forall id | id in rest && OnLevel(rest[id], side, price)
      ensures id in active && id != target && OnLevel(active[id], side, price)
    {
    }
  }

  lemma WithoutTargetIs(m: BookModel, target: OrderId)
    ensures WithoutTarget(m, target) == m.(active := m.active - {target})
  {
  }

  lemma WithoutTargetIsValid(m: BookModel, target: OrderId)
    requires m.Valid()
    ensures WithoutTarget(m, target).Valid()
    ensures target in m.active ==> |WithoutTarget(m, target).active| == |m.active| - 1
  {
    var rest := WithoutTarget(m, target);
    forall id | id in rest.active ensures m.definition.ValidateLeaves(rest.active[id].quantity).None? {
      assert m.OrderOk(id);
    }
    ShrinkKeepsValid(m, rest);
    if target in m.active {
      assert |m.active| == |m.active.Keys| && |rest.active| == |rest.active.Keys| && rest.active.Keys == m.active.Keys - {target};
    }
  }

  /** A replacement is a removal then an admission under one revision, so a book at its order or
      level maximum still admits it. */
  lemma ReplacementFacts(m: BookModel, accountId: AccountId, targetOrderId: OrderId, replacement: CallAuctionOrder)
    requires m.definition.Valid() && ReplacementOutcome(m, accountId, targetOrderId, replacement).Ok?
    ensures targetOrderId in m.active && m.active[targetOrderId].accountId == accountId == replacement.accountId
    ensures ReplacementOutcome(m, accountId, targetOrderId, replacement).value ==
              (m.active[targetOrderId], AcceptedSnapshot(replacement, m.nextPrioritySequence))
  {
  }

  lemma ReplaceIsAdmitAfterRemove(m: BookModel, accountId: AccountId, targetOrderId: OrderId, replacement: CallAuctionOrder)
    requires m.Valid() && targetOrderId in m.active && m.active[targetOrderId].accountId == accountId == replacement.accountId
    ensures ReplacementOutcome(m, accountId, targetOrderId, replacement) ==
              match Admission(WithoutTarget(m, targetOrderId), replacement)
              case Ok(accepted) => Ok((m.active[targetOrderId], accepted))
              case Err(error) => Err(Replacement(error))
  {
    WithoutTargetIsValid(m, targetOrderId);
    hide RoomError, ValidateCommand, BookModel.LevelPrices, BookModel.OrderOk, InstrumentDefinition.Valid;
    assert CommandError(WithoutTarget(m, targetOrderId), replacement) == CommandError(m, replacement);
  }

  lemma MaximumHolds(m: BookModel)
    requires m.Valid()
    ensures |m.active| <= m.limits.maxActiveOrders
  {
  }

  lemma ReplaceKeepsValid(m: BookModel, accountId: AccountId, targetOrderId: OrderId, replacement: CallAuctionOrder)
    requires m.Valid() && ReplacementOutcome(m, accountId, targetOrderId, replacement).Ok?
    ensures var n := Admitted(WithoutTarget(m, targetOrderId), AcceptedSnapshot(replacement, m.nextPrioritySequence));
            n.Valid() && |n.active| == |m.active|
  {
    ReplaceIsAdmitAfterRemove(m, accountId, targetOrderId, replacement);
    WithoutTargetIsValid(m, targetOrderId);
    var rest := WithoutTarget(m, targetOrderId);
    hide BookModel.Valid, Admission;
    AdmitKeepsValid(rest, replacement);
    AdmittedIsNew(rest, replacement);
    var n := Admitted(rest, AcceptedSnapshot(replacement, m.nextPrioritySequence));
    assert n.active.Keys == rest.active.Keys + {replacement.orderId};
    assert |n.active| == |n.active.Keys| && |rest.active| == |rest.active.Keys|;
  }

  // ----- mass cancellation

  ghost function Selected(m: BookModel, accountId: AccountId, scope: MassCancelScope): set<OrderId> {
    set id | id in m.active && m.active[id].accountId == accountId && Includes(scope, m.active[id].side)
  }

  datatype CallAuctionMassCancelResult = CallAuctionMassCancelResult(cancelledOrderCount: u64, cancelledQuantityLots: u128, stateRevision: u64)

  datatype CallAuctionMassCancelError =
    | OutputNotEmpty
    | OutputCapacityExceeded(required: nat, available: nat)
    | MassCancelRevisionExhausted
    | MassCancelInvariantViolation

  /** An empty selection leaves the book as it is; otherwise one revision covers all removals. */
  ghost function MassCancelled(m: BookModel, accountId: AccountId, scope: MassCancelScope): BookModel
    requires Selected(m, accountId, scope) != {} ==> m.stateRevision < U64_MAX
  {
    var ids := Selected(m, accountId, scope);
    if ids == {} then m else WithoutOrders(m, ids)
  }

  lemma MassCancelKeepsValid(m: BookModel, accountId: AccountId, scope: MassCancelScope)
    requires m.Valid() && (Selected(m, accountId, scope) != {} ==> m.stateRevision < U64_MAX)
    ensures MassCancelled(m, accountId, scope).Valid()
    ensures Selected(MassCancelled(m, accountId, scope), accountId, scope) == {}
  {
    if Selected(m, accountId, scope) != {} {
      RemoveKeepsValid(m, Selected(m, accountId, scope));
    }
  }
}
