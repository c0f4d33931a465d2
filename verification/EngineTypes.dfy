/** Commands, events, reports and limits of the sequenced engine. */
module EngineTypes {
  import opened AbstractBook
  import opened Clearing
  import opened Discovery
  import opened Domain
  import opened Uncross

  type TimestampNs = u64

  datatype CallAuctionPhase = Closed | Collecting | Frozen

  datatype CallAuctionPhaseSnapshot = CallAuctionPhaseSnapshot(
    phase: CallAuctionPhase, revision: u64, activeAuctionId: Option<AuctionId>, lastAuctionId: Option<AuctionId>)

  const GENESIS_PHASE := CallAuctionPhaseSnapshot(Closed, 0, None, None)

  datatype CallAuctionAction = SubmitOrder | AmendOrder | ReplaceOrder | PublishIndicative | UncrossAuction

  datatype CallAuctionCommand =
    | PhaseControl(commandId: CommandId, instrumentId: Id, instrumentVersion: Id, auctionId: AuctionId,
                   expectedPhaseRevision: u64, targetPhase: CallAuctionPhase, receivedAt: TimestampNs)
    | Submit(commandId: CommandId, auctionId: AuctionId, expectedPhaseRevision: u64, order: CallAuctionOrder, receivedAt: TimestampNs)
    | Cancel(commandId: CommandId, instrumentId: Id, instrumentVersion: Id, accountId: AccountId, orderId: OrderId, receivedAt: TimestampNs)
    | MassCancel(commandId: CommandId, instrumentId: Id, instrumentVersion: Id, accountId: AccountId, scope: MassCancelScope, receivedAt: TimestampNs)
    | Amend(commandId: CommandId, instrumentId: Id, instrumentVersion: Id, auctionId: AuctionId, expectedPhaseRevision: u64,
            accountId: AccountId, orderId: OrderId, newQuantity: Quantity, receivedAt: TimestampNs)
    | Replace(commandId: CommandId, auctionId: AuctionId, expectedPhaseRevision: u64, accountId: AccountId, targetOrderId: OrderId,
              replacement: CallAuctionOrder, receivedAt: TimestampNs)
    | Indicative(commandId: CommandId, instrumentId: Id, instrumentVersion: Id, auctionId: AuctionId, expectedPhaseRevision: u64,
                 priceBand: AuctionPriceBand, referencePrice: Price, pricePolicy: AuctionPricePolicy, receivedAt: TimestampNs)
    | Uncross(commandId: CommandId, instrumentId: Id, instrumentVersion: Id, auctionId: AuctionId, expectedPhaseRevision: u64,
              priceBand: AuctionPriceBand, referencePrice: Price, pricePolicy: AuctionPricePolicy,
              uncrossPolicy: CallAuctionUncrossPolicy, receivedAt: TimestampNs)
  {
    function RoutedInstrument(): Id {
      match this
      case Submit(_, _, _, order, _) => order.instrumentId
      case Replace(_, _, _, _, _, replacement, _) => replacement.instrumentId
      case _ => instrumentId
    }

    function RoutedVersion(): Id {
      match this
      case Submit(_, _, _, order, _) => order.instrumentVersion
      case Replace(_, _, _, _, _, replacement, _) => replacement.instrumentVersion
      case _ => instrumentVersion
    }
  }

  datatype CallAuctionRejectReason =
    | WrongInstrument
    | WrongInstrumentVersion
    | PhaseRevisionMismatch(observedRevision: u64, currentRevision: u64)
    | InvalidPhaseTransition(fromPhase: CallAuctionPhase, toPhase: CallAuctionPhase)
    | ActionNotAllowed(action: CallAuctionAction, phase: CallAuctionPhase)
    | AuctionIdMismatch(observedId: AuctionId, currentId: Option<AuctionId>)
    | AuctionIdNotNext(expectedId: AuctionId, suppliedId: AuctionId)
    | InstrumentRule(rule: AdmissionError)
    | DuplicateOrder
    | UnknownOrder
    | NotOrderOwner
    | AmendQuantityNotReduced
    | NoExecutableInterest
    | SelfTradeRefused
    | RiskProfileMissing
    | RiskAccountBlocked
    | RiskReduceOnly
    | RiskOrderQuantityLimit
    | RiskOrderNotionalLimit
    | RiskOpenOrderCountLimit
    | RiskOpenQuantityLimit
    | RiskOpenNotionalLimit
    | RiskPositionLimit
    | RiskArithmeticOverflow

  predicate IsExternalRiskRejection(reason: CallAuctionRejectReason) {
    || reason.RiskProfileMissing? || reason.RiskAccountBlocked? || reason.RiskReduceOnly?
    || reason.RiskOrderQuantityLimit? || reason.RiskOrderNotionalLimit? || reason.RiskOpenOrderCountLimit?
    || reason.RiskOpenQuantityLimit? || reason.RiskOpenNotionalLimit? || reason.RiskPositionLimit?
    || reason.RiskArithmeticOverflow?
  }

  datatype CallAuctionIndicativeState = CallAuctionIndicativeState(
    auctionId: AuctionId, phaseRevision: u64, bookRevision: u64, priceBand: AuctionPriceBand, referencePrice: Price,
    pricePolicy: AuctionPricePolicy, clearing: Option<AuctionClearing>)
  {
    predicate IsStructurallyValid() {
      && phaseRevision != 0
      && (clearing.Some? ==> clearing.value.executableQuantity != 0 && priceBand.minimum <= clearing.value.price <= priceBand.maximum)
    }

    predicate IsValidFor(definition: InstrumentDefinition)
      requires definition.Valid()
    {
      && IsStructurallyValid()
      && definition.ValidatePrice(priceBand.minimum).None? && definition.ValidatePrice(priceBand.maximum).None?
      && definition.ValidatePrice(referencePrice).None?
      && (clearing.Some? ==> definition.ValidatePrice(clearing.value.price).None?)
    }
  }

  datatype CallAuctionCancellationReason = UserRequested | ByReplacement | ByMassCancel | UncrossRemainder

  datatype CallAuctionEventKind =
    | CommandRejected(reason: CallAuctionRejectReason)
    | PhaseChanged(auctionId: AuctionId, previous: CallAuctionPhase, current: CallAuctionPhase, revision: u64)
    | OrderAccepted(accepted: CallAuctionOrderSnapshot)
    | OrderCancelled(cancelled: CallAuctionOrderSnapshot, cancellationReason: CallAuctionCancellationReason)
    | MassCancelCompleted(accountId: AccountId, scope: MassCancelScope, cancelledOrderCount: u64, cancelledQuantityLots: u128, massBookRevision: u64)
    | OrderAmended(amended: CallAuctionOrderSnapshot, previousQuantity: Quantity, amendBookRevision: u64)
    | IndicativePublished(state: CallAuctionIndicativeState)
    | TradeExecuted(trade: CallAuctionTrade)
    | RemainderCancelled(cancellation: CallAuctionCancellation)
    | UncrossCompleted(uncrossedAuctionId: AuctionId, clearing: AuctionClearing, policy: CallAuctionUncrossPolicy, tradeCount: u64,
                       cancellationCount: u64, bookRevision: u64, phaseRevision: u64)

  datatype CallAuctionEvent = CallAuctionEvent(sequence: u64, commandId: CommandId, occurredAt: TimestampNs, kind: CallAuctionEventKind)

  datatype CallAuctionCommandOutcome = Accepted | Rejected(reason: CallAuctionRejectReason)

  datatype CallAuctionExecutionReport = CallAuctionExecutionReport(
    commandId: CommandId, commandSequence: u64, outcome: CallAuctionCommandOutcome, events: seq<CallAuctionEvent>, replayed: bool)

  /** One retained command and its immutable report. */
  datatype CallAuctionHistoryEntry = CallAuctionHistoryEntry(command: CallAuctionCommand, report: CallAuctionExecutionReport)

  datatype CallAuctionEngineCapacity = CommandHistory | AdmissionCommandHistory | RetainedEvents | AdmissionEventHistory | ReportEvents

  datatype CallAuctionEngineError =
    | CommandIdCollision(commandId: CommandId)
    | CapacityExhausted(capacity: CallAuctionEngineCapacity)
    | SequenceExhausted
    | PhaseRevisionExhausted
    | AuctionIdExhausted
    | BookAdmission(admission: CallAuctionAdmissionError)
    | BookCancellation(cancel: CallAuctionCancelError)
    | BookAmendment(amend: CallAuctionAmendError)
    | BookMassCancellation(massCancel: CallAuctionMassCancelError)
    | BookReplacement(replace: CallAuctionReplaceError)
    | DiscoveryFailed(discovery: AuctionError)
    | UncrossPreparation(prepare: CallAuctionPrepareError)
    | UncrossCommit(commit: CallAuctionCommitError)
    | ForeignCommand
    | StaleCommand
    | EngineInvariantViolation

  datatype CallAuctionEngineLimits = CallAuctionEngineLimits(
    book: CallAuctionBookLimits, retainedCommands: usize, terminalCommandReserve: usize,
    retainedEvents: usize, terminalEventReserve: usize, reportEvents: usize)
  {
    /** Limits as the validating constructor admits them. */
    ghost predicate Valid() {
      && book.Valid()
      && book.maxActiveOrders + 2 <= terminalCommandReserve < retainedCommands
      && 2 * book.maxActiveOrders + 1 <= reportEvents
      && terminalEventReserve == 2 * book.maxActiveOrders + 2
      && terminalEventReserve + book.maxActiveOrders + 1 <= retainedEvents
    }

    function OrdinaryCommandCapacity(): usize
      requires Valid()
    {
      retainedCommands - terminalCommandReserve
    }

    function OrdinaryEventCapacity(): usize
      requires Valid()
    {
      retainedEvents - terminalEventReserve
    }
  }

  datatype CallAuctionEngineLimitsError =
    | ZeroRetainedCommands
    | ZeroRetainedEvents
    | TerminalReserveExhaustsHistory
    | TerminalReserveBelowRequired(configuredReserve: usize, requiredReserve: usize)
    | ReportEventsBelowRequired(configuredReport: usize, requiredReport: usize)
    | RetainedEventsBelowRequired(configuredEvents: usize, requiredEvents: usize)
    | DerivedBoundOverflow

  function CheckedAddUsize(a: usize, b: usize): Option<usize> {
    if a + b <= U64_MAX then Some(a + b) else None
  }

  /** Every raw policy yields valid limits that keep its numbers, or names a bound it misses. */
  function NewEngineLimits(book: CallAuctionBookLimits, maxRetainedCommands: usize, terminalCommandReserve: usize,
                           maxRetainedEvents: usize, maxReportEvents: usize): (r: Result<CallAuctionEngineLimits, CallAuctionEngineLimitsError>)
    requires book.Valid()
    ensures r.Ok? ==> r.value.Valid() && r.value.book == book && r.value.retainedCommands == maxRetainedCommands
                      && r.value.terminalCommandReserve == terminalCommandReserve && r.value.retainedEvents == maxRetainedEvents
                      && r.value.reportEvents == maxReportEvents
    ensures r.Ok? <==>
              && book.maxActiveOrders + 2 <= terminalCommandReserve < maxRetainedCommands
              && 2 * book.maxActiveOrders + 1 <= maxReportEvents
              && 3 * book.maxActiveOrders + 3 <= maxRetainedEvents
  {
    var requiredTerminal := CheckedAddUsize(book.maxActiveOrders, 2);
    var doubled := CheckedAddUsize(book.maxActiveOrders, book.maxActiveOrders);
    if maxRetainedCommands == 0 then Err(ZeroRetainedCommands)
    else if maxRetainedEvents == 0 then Err(ZeroRetainedEvents)
    else if requiredTerminal.None? then Err(DerivedBoundOverflow)
    else if terminalCommandReserve < requiredTerminal.value then Err(TerminalReserveBelowRequired(terminalCommandReserve, requiredTerminal.value))
    else if terminalCommandReserve >= maxRetainedCommands then Err(TerminalReserveExhaustsHistory)
    else if doubled.None? || CheckedAddUsize(doubled.value, 1).None? then Err(DerivedBoundOverflow)
    else if maxReportEvents < doubled.value + 1 then Err(ReportEventsBelowRequired(maxReportEvents, doubled.value + 1))
    else if CheckedAddUsize(doubled.value, 2).None? then Err(DerivedBoundOverflow)
    else if CheckedAddUsize(doubled.value + 2, book.maxActiveOrders + 1).None? then Err(DerivedBoundOverflow)
    else if maxRetainedEvents < doubled.value + 2 + (book.maxActiveOrders + 1)
    then Err(RetainedEventsBelowRequired(maxRetainedEvents, doubled.value + 2 + (book.maxActiveOrders + 1)))
    else Ok(CallAuctionEngineLimits(book, maxRetainedCommands, terminalCommandReserve, maxRetainedEvents, doubled.value + 2, maxReportEvents))
  }

  /** The valid limits are those the constructor yields from their own numbers. */
  lemma EngineLimitsAreConstructed(l: CallAuctionEngineLimits)
    ensures l.Valid() <==>
              l.book.Valid() && NewEngineLimits(l.book, l.retainedCommands, l.terminalCommandReserve, l.retainedEvents, l.reportEvents) == Ok(l)
  {
  }
}
