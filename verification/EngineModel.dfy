/** What each engine command decides and does, as functions of the engine state: preparation picks
    an action, commitment applies it and appends one report. */
module EngineModel {
  import opened AbstractBook
  import opened Ascending
  import opened BookInterest
  import opened Clearing
  import opened Discovery
  import opened Domain
  import opened EngineTypes
  import opened MassCancellation
  import opened Uncross

  datatype EngineState = EngineState(
    limits: CallAuctionEngineLimits,
    book: BookModel,
    phase: CallAuctionPhaseSnapshot,
    lastIndicative: Option<CallAuctionIndicativeState>,
    nextCommandSequence: u64,
    nextEventSequence: u64,
    history: seq<CallAuctionHistoryEntry>,
    events: seq<CallAuctionEvent>)

  datatype PreparedAction =
    | RejectedAction(reason: CallAuctionRejectReason)
    | PhaseTransition(source: CallAuctionPhaseSnapshot, resulting: CallAuctionPhaseSnapshot)
    | SubmitAction(accepted: CallAuctionOrderSnapshot)
    | CancelAction(cancelled: CallAuctionOrderSnapshot)
    | MassCancelAction(accountId: AccountId, scope: MassCancelScope, preflight: CallAuctionMassCancelResult)
    | AmendAction(previous: CallAuctionOrderSnapshot, newQuantity: Quantity)
    | ReplaceAction(target: CallAuctionOrderSnapshot, replacement: CallAuctionOrderSnapshot)
    | IndicativeAction(state: CallAuctionIndicativeState)
    | UncrossAction(auctionId: AuctionId, phaseRevision: u64, prepared: PreparedCallAuctionUncross)

  type Decision = Result<PreparedAction, CallAuctionEngineError>

  // ----- which action a command prepares

  function RouteRejection(definition: InstrumentDefinition, command: CallAuctionCommand): Option<CallAuctionRejectReason> {
    if command.RoutedInstrument() != definition.instrumentId then Some(CallAuctionRejectReason.WrongInstrument)
    else if command.RoutedVersion() != definition.version then Some(WrongInstrumentVersion)
    else None
  }

  ghost function Route(s: EngineState, command: CallAuctionCommand): Option<CallAuctionRejectReason> {
    RouteRejection(s.book.definition, command)
  }

  function CollectionRejection(phase: CallAuctionPhaseSnapshot, observedRevision: u64, observedId: AuctionId, action: CallAuctionAction)
    : Option<CallAuctionRejectReason>
  {
    if observedRevision != phase.revision then Some(PhaseRevisionMismatch(observedRevision, phase.revision))
    else if phase.phase != Collecting then Some(ActionNotAllowed(action, phase.phase))
    else if phase.activeAuctionId != Some(observedId) then Some(AuctionIdMismatch(observedId, phase.activeAuctionId))
    else None
  }

  /** The cycle identities after a transition, its rejection, or the exhausted cycle counter. */
  function NextCycle(phase: CallAuctionPhaseSnapshot, target: CallAuctionPhase, auctionId: AuctionId)
    : Result<(Option<AuctionId>, Option<AuctionId>), Option<CallAuctionRejectReason>>
  {
    match (phase.phase, target)
    case (Closed, Collecting) =>
      var last := if phase.lastAuctionId.Some? then phase.lastAuctionId.value as int else 0;
      if last == U64_MAX then Err(None)
      else if auctionId != last + 1 then Err(Some(AuctionIdNotNext(last + 1, auctionId)))
      else Ok((Some(auctionId), Some(auctionId)))
    case (Collecting, Frozen) => SameCycle(phase, auctionId, phase.activeAuctionId)
    case (Frozen, Collecting) => SameCycle(phase, auctionId, phase.activeAuctionId)
    case (Collecting, Closed) => SameCycle(phase, auctionId, None)
    case (Frozen, Closed) => SameCycle(phase, auctionId, None)
    case (from, to) => Err(Some(InvalidPhaseTransition(from, to)))
  }

  function SameCycle(phase: CallAuctionPhaseSnapshot, auctionId: AuctionId, activeAfter: Option<AuctionId>)
    : Result<(Option<AuctionId>, Option<AuctionId>), Option<CallAuctionRejectReason>>
  {
    if phase.activeAuctionId != Some(auctionId) then Err(Some(AuctionIdMismatch(auctionId, phase.activeAuctionId)))
    else Ok((activeAfter, phase.lastAuctionId))
  }

  function DecidePhase(phase: CallAuctionPhaseSnapshot, command: CallAuctionCommand): Decision
    requires command.PhaseControl?
  {
    if command.expectedPhaseRevision != phase.revision then Ok(RejectedAction(PhaseRevisionMismatch(command.expectedPhaseRevision, phase.revision)))
    else
      match NextCycle(phase, command.targetPhase, command.auctionId)
      case Err(None) => Err(AuctionIdExhausted)
      case Err(Some(reason)) => Ok(RejectedAction(reason))
      case Ok(cycle) =>
        if phase.revision == U64_MAX then Err(PhaseRevisionExhausted)
        else Ok(PhaseTransition(phase, CallAuctionPhaseSnapshot(command.targetPhase, phase.revision + 1, cycle.0, cycle.1)))
  }

  /** How the engine reads the book's answers: rule violations reject, exhaustion fails. */
  function FromAdmission(r: Result<CallAuctionOrderSnapshot, CallAuctionAdmissionError>): Decision {
    match r
    case Ok(accepted) => Ok(SubmitAction(accepted))
    case Err(Instrument(error)) => Ok(RejectedAction(InstrumentRule(error)))
    case Err(DuplicateOrderId) => Ok(RejectedAction(DuplicateOrder))
    case Err(error) => Err(BookAdmission(error))
  }

  function FromCancellation(r: Result<CallAuctionOrderSnapshot, CallAuctionCancelError>): Decision {
    match r
    case Ok(order) => Ok(CancelAction(order))
    case Err(UnknownOrder) => Ok(RejectedAction(CallAuctionRejectReason.UnknownOrder))
    case Err(AccountMismatch) => Ok(RejectedAction(NotOrderOwner))
    case Err(error) => Err(BookCancellation(error))
  }

  function FromMassCancel(accountId: AccountId, scope: MassCancelScope, r: Result<CallAuctionMassCancelResult, CallAuctionMassCancelError>): Decision {
    match r
    case Ok(preflight) => Ok(MassCancelAction(accountId, scope, preflight))
    case Err(error) => Err(BookMassCancellation(error))
  }

  function FromAmendment(newQuantity: Quantity, r: Result<CallAuctionOrderSnapshot, CallAuctionAmendError>): Decision {
    match r
    case Ok(previous) => Ok(AmendAction(previous, newQuantity))
    case Err(UnknownTarget) => Ok(RejectedAction(CallAuctionRejectReason.UnknownOrder))
    case Err(TargetAccountMismatch) => Ok(RejectedAction(NotOrderOwner))
    case Err(LeavesRule(error)) => Ok(RejectedAction(InstrumentRule(error)))
    case Err(QuantityNotReduced) => Ok(RejectedAction(AmendQuantityNotReduced))
    case Err(error) => Err(BookAmendment(error))
  }

  function FromReplacement(r: Result<(CallAuctionOrderSnapshot, CallAuctionOrderSnapshot), CallAuctionReplaceError>): Decision {
    match r
    case Ok(pair) => Ok(ReplaceAction(pair.0, pair.1))
    case Err(Target(UnknownOrder)) => Ok(RejectedAction(CallAuctionRejectReason.UnknownOrder))
    case Err(Target(AccountMismatch)) => Ok(RejectedAction(NotOrderOwner))
    case Err(ReplacementAccountMismatch) => Ok(RejectedAction(NotOrderOwner))
    case Err(Replacement(Instrument(error))) => Ok(RejectedAction(InstrumentRule(error)))
    case Err(Replacement(DuplicateOrderId)) => Ok(RejectedAction(DuplicateOrder))
    case Err(error) => Err(BookReplacement(error))
  }

  ghost function DecideSubmit(s: EngineState, command: CallAuctionCommand): Decision
    requires command.Submit? && s.book.definition.Valid()
  {
    match CollectionRejection(s.phase, command.expectedPhaseRevision, command.auctionId, SubmitOrder)
    case Some(reason) => Ok(RejectedAction(reason))
    case None => FromAdmission(Admission(s.book, command.order))
  }

  ghost function DecideCancel(s: EngineState, command: CallAuctionCommand): Decision
    requires command.Cancel?
  {
    FromCancellation(Cancellation(s.book, command.accountId, command.orderId))
  }

  ghost function DecideMassCancel(s: EngineState, command: CallAuctionCommand): Decision
    requires command.MassCancel? && s.book.Valid()
  {
    FromMassCancel(command.accountId, command.scope, MassCancelOutcome(s.book, command.accountId, command.scope))
  }

  ghost function DecideAmend(s: EngineState, command: CallAuctionCommand): Decision
    requires command.Amend? && s.book.definition.Valid()
  {
    match CollectionRejection(s.phase, command.expectedPhaseRevision, command.auctionId, AmendOrder)
    case Some(reason) => Ok(RejectedAction(reason))
    case None => FromAmendment(command.newQuantity, Amendment(s.book, command.accountId, command.orderId, command.newQuantity))
  }

  ghost function DecideReplace(s: EngineState, command: CallAuctionCommand): Decision
    requires command.Replace? && s.book.definition.Valid()
  {
    match CollectionRejection(s.phase, command.expectedPhaseRevision, command.auctionId, ReplaceOrder)
    case Some(reason) => Ok(RejectedAction(reason))
    case None => FromReplacement(ReplacementOutcome(s.book, command.accountId, command.targetOrderId, command.replacement))
  }

  /** The band and reference of a published indication must obey the instrument's price rules. */
  function PriceRuleRejection(definition: InstrumentDefinition, band: AuctionPriceBand, reference: Price): Option<CallAuctionRejectReason>
    requires definition.Valid()
  {
    if definition.ValidatePrice(band.minimum).Some? then Some(InstrumentRule(definition.ValidatePrice(band.minimum).value))
    else if definition.ValidatePrice(band.maximum).Some? then Some(InstrumentRule(definition.ValidatePrice(band.maximum).value))
    else if definition.ValidatePrice(reference).Some? then Some(InstrumentRule(definition.ValidatePrice(reference).value))
    else None
  }

  function IndicativeRejection(phase: CallAuctionPhaseSnapshot, definition: InstrumentDefinition, command: CallAuctionCommand): Option<CallAuctionRejectReason>
    requires command.Indicative? && definition.Valid()
  {
    if command.expectedPhaseRevision != phase.revision then Some(PhaseRevisionMismatch(command.expectedPhaseRevision, phase.revision))
    else if phase.phase == Closed then Some(ActionNotAllowed(PublishIndicative, phase.phase))
    else if phase.activeAuctionId != Some(command.auctionId) then Some(AuctionIdMismatch(command.auctionId, phase.activeAuctionId))
    else PriceRuleRejection(definition, command.priceBand, command.referencePrice)
  }

  function UncrossRejection(phase: CallAuctionPhaseSnapshot, command: CallAuctionCommand): Option<CallAuctionRejectReason>
    requires command.Uncross?
  {
    if command.expectedPhaseRevision != phase.revision then Some(PhaseRevisionMismatch(command.expectedPhaseRevision, phase.revision))
    else if phase.phase != Frozen then Some(ActionNotAllowed(CallAuctionAction.UncrossAuction, phase.phase))
    else if phase.activeAuctionId != Some(command.auctionId) then Some(AuctionIdMismatch(command.auctionId, phase.activeAuctionId))
    else None
  }

  /** Which input check discovery over a book makes fail, in order. */
  ghost function BandError(definition: InstrumentDefinition, band: AuctionPriceBand, reference: Price): Option<AuctionError>
    requires definition.Valid()
  {
    var grid := AuctionPriceGrid(definition.tickSize);
    if ValidatePriceBand(grid, band.minimum, band.maximum).Some? then ValidatePriceBand(grid, band.minimum, band.maximum)
    else if !grid.Contains(reference) then Some(ReferencePriceOffGrid)
    else None
  }

  ghost function Discovered(s: EngineState, band: AuctionPriceBand, reference: Price, policy: AuctionPricePolicy): Option<AuctionClearing>
    requires s.book.Valid()
  {
    InterestFits(s.book);
    BookDiscovery(s.book.active, Uncross.Grid(s.book), band, reference, policy)
  }

  ghost function DecideIndicative(s: EngineState, command: CallAuctionCommand): Decision
    requires command.Indicative? && s.book.Valid()
  {
    match IndicativeRejection(s.phase, s.book.definition, command)
    case Some(reason) => Ok(RejectedAction(reason))
    case None =>
      match BandError(s.book.definition, command.priceBand, command.referencePrice)
      case Some(error) => Err(DiscoveryFailed(error))
      case None =>
        Ok(IndicativeAction(CallAuctionIndicativeState(command.auctionId, s.phase.revision, s.book.stateRevision, command.priceBand,
          command.referencePrice, command.pricePolicy, Discovered(s, command.priceBand, command.referencePrice, command.pricePolicy))))
  }

  /** How the book answers a request to prepare at one of its own current clearing states. */
  ghost function BookPreparation(m: BookModel, bookInstanceId: nat, leases: usize, c: AuctionClearing, policy: CallAuctionUncrossPolicy)
    : Result<PreparedCallAuctionUncross, CallAuctionPrepareError>
    requires ClearsAt(m, c)
  {
    if m.stateRevision == U64_MAX then Err(PrepareRevisionExhausted)
    else if leases == 0 then Err(PreparationCapacityExhausted(m.limits.maxPreparedUncrosses))
    else PreparationOutcome(m, bookInstanceId, c, policy)
  }

  /** A frozen book that crosses: prepare at its clearing state, or reject a self trade. */
  ghost function DecideCrossing(s: EngineState, bookInstanceId: nat, leases: usize, command: CallAuctionCommand, c: AuctionClearing): Decision
    requires command.Uncross? && ClearsAt(s.book, c)
  {
    if s.phase.revision == U64_MAX then Err(PhaseRevisionExhausted)
    else
      match BookPreparation(s.book, bookInstanceId, leases, c, command.uncrossPolicy)
      case Ok(prepared) => Ok(UncrossAction(command.auctionId, s.phase.revision + 1, prepared))
      case Err(SelfTradeWouldOccur(_, _, _, _)) => Ok(RejectedAction(SelfTradeRefused))
      case Err(error) => Err(UncrossPreparation(error))
  }

  ghost function DecideUncross(s: EngineState, bookInstanceId: nat, leases: usize, command: CallAuctionCommand): Decision
    requires command.Uncross? && s.book.Valid()
  {
    match UncrossRejection(s.phase, command)
    case Some(reason) => Ok(RejectedAction(reason))
    case None =>
      match BandError(s.book.definition, command.priceBand, command.referencePrice)
      case Some(error) => Err(DiscoveryFailed(error))
      case None =>
        match Discovered(s, command.priceBand, command.referencePrice, command.pricePolicy)
        case None => Ok(RejectedAction(NoExecutableInterest))
        case Some(c) =>
          DiscoveredClears(s, command.priceBand, command.referencePrice, command.pricePolicy);
          DecideCrossing(s, bookInstanceId, leases, command, c)
  }

  lemma DiscoveredClears(s: EngineState, band: AuctionPriceBand, reference: Price, policy: AuctionPricePolicy)
    requires s.book.Valid()
    ensures var best := Discovered(s, band, reference, policy); best.Some? ==> ClearsAt(s.book, best.value) && IsCandidate(best.value.price, Uncross.Grid(s.book), band)
  {
    InterestFits(s.book);
    var best := Discovered(s, band, reference, policy);
    assert IsBookDiscovery(best, s.book.active, Uncross.Grid(s.book), band, reference, policy);
  }

  /** The action a new command prepares; routing comes first for every command. */
  ghost function Decide(s: EngineState, bookInstanceId: nat, leases: usize, command: CallAuctionCommand): Decision
    requires s.book.Valid()
  {
    match Route(s, command)
    case Some(reason) => Ok(RejectedAction(reason))
    case None =>
      match command
      case PhaseControl(_, _, _, _, _, _, _) => DecidePhase(s.phase, command)
      case Submit(_, _, _, _, _) => DecideSubmit(s, command)
      case Cancel(_, _, _, _, _, _) => DecideCancel(s, command)
      case MassCancel(_, _, _, _, _, _) => DecideMassCancel(s, command)
      case Amend(_, _, _, _, _, _, _, _, _) => DecideAmend(s, command)
      case Replace(_, _, _, _, _, _, _) => DecideReplace(s, command)
      case Indicative(_, _, _, _, _, _, _, _, _) => DecideIndicative(s, command)
      case Uncross(_, _, _, _, _, _, _, _, _, _) => DecideUncross(s, bookInstanceId, leases, command)
  }

  // ----- capacity

  function MaximumEvents(action: PreparedAction): nat {
    match action
    case MassCancelAction(_, _, preflight) => preflight.cancelledOrderCount + 1
    case UncrossAction(_, _, prepared) => |prepared.trades| + |prepared.cancellations| + 1
    case ReplaceAction(_, _) => 2
    case _ => 1
  }

  /** Actions that may use the protected tail of the history. */
  predicate IsTerminal(action: PreparedAction) {
    match action
    case MassCancelAction(_, _, preflight) => preflight.cancelledOrderCount != 0
    case CancelAction(_) => true
    case UncrossAction(_, _, _) => true
    case PhaseTransition(_, resulting) => resulting.phase != Collecting
    case _ => false
  }

  /** The capacity checks, in order. */
  ghost function CapacityError(s: EngineState, action: PreparedAction): Option<CallAuctionEngineError>
    requires s.limits.Valid()
  {
    var final := |s.events| + MaximumEvents(action);
    if |s.history| >= s.limits.retainedCommands then Some(CapacityExhausted(CommandHistory))
    else if |s.history| >= s.limits.OrdinaryCommandCapacity() && !IsTerminal(action) then Some(CapacityExhausted(AdmissionCommandHistory))
    else if MaximumEvents(action) > s.limits.reportEvents then Some(CapacityExhausted(ReportEvents))
    else if final > U64_MAX then Some(SequenceExhausted)
    else if final > s.limits.retainedEvents then Some(CapacityExhausted(RetainedEvents))
    else if final > s.limits.OrdinaryEventCapacity() && !IsTerminal(action) then Some(CapacityExhausted(AdmissionEventHistory))
    else if s.nextCommandSequence == U64_MAX || s.nextEventSequence + MaximumEvents(action) > U64_MAX then Some(SequenceExhausted)
    else None
  }

  // ----- retained history

  /** The retained entry of a command identity, if any. */
  ghost function Retained(history: seq<CallAuctionHistoryEntry>, id: CommandId): Option<CallAuctionHistoryEntry> {
    if history == [] then None
    else if history[|history| - 1].command.commandId == id then Some(history[|history| - 1])
    else Retained(history[..|history| - 1], id)
  }

  datatype Preparation = Replay(report: CallAuctionExecutionReport) | Ready(action: PreparedAction)

  /** Preparing: an exact retry replays before any capacity check; otherwise decide, then check room. */
  ghost function Prepare(s: EngineState, bookInstanceId: nat, leases: usize, command: CallAuctionCommand): Result<Preparation, CallAuctionEngineError>
    requires s.book.Valid() && s.limits.Valid()
  {
    match Retained(s.history, command.commandId)
    case Some(entry) =>
      if entry.command != command then Err(CommandIdCollision(command.commandId)) else Ok(Replay(entry.report.(replayed := true)))
    case None =>
      match Decide(s, bookInstanceId, leases, command)
      case Err(error) => Err(error)
      case Ok(action) => if CapacityError(s, action).Some? then Err(CapacityError(s, action).value) else Ok(Ready(action))
  }

  // ----- what an action does

  /** The book facts that make an action applicable; every decided action has them. */
  ghost predicate Applicable(m: BookModel, action: PreparedAction) {
    match action
    case SubmitAction(_) => m.nextPrioritySequence < U64_MAX && m.stateRevision < U64_MAX
    case CancelAction(_) => m.stateRevision < U64_MAX
    case MassCancelAction(account, scope, _) => Selected(m, account, scope) != {} ==> m.stateRevision < U64_MAX
    case AmendAction(previous, newQuantity) => previous.orderId in m.active && m.stateRevision < U64_MAX
    case ReplaceAction(_, _) => m.nextPrioritySequence < U64_MAX && m.stateRevision < U64_MAX
    case UncrossAction(_, _, prepared) => IsPreparation(m, prepared) && TradeIdsFit(m, prepared.plan.clearing, prepared.policy.allocation)
    case _ => true
  }

  ghost function BookAfter(m: BookModel, action: PreparedAction): BookModel
    requires Applicable(m, action)
  {
    hide BookModel.Valid, ClearsAt, TradeIdsFit, PreparationOutcome, Selected;
    match action
    case SubmitAction(accepted) => Admitted(m, accepted)
    case CancelAction(order) => WithoutOrders(m, {order.orderId})
    case MassCancelAction(account, scope, _) => AbstractBook.MassCancelled(m, account, scope)
    case AmendAction(previous, newQuantity) => Amended(m, previous.orderId, newQuantity)
    case ReplaceAction(target, replacement) => Admitted(WithoutTarget(m, target.orderId), replacement)
    case UncrossAction(_, _, prepared) => Uncrossed(m, prepared.plan.clearing, prepared.policy)
    case _ => m
  }

  ghost function PhaseAfter(phase: CallAuctionPhaseSnapshot, action: PreparedAction): CallAuctionPhaseSnapshot {
    match action
    case PhaseTransition(_, resulting) => resulting
    case UncrossAction(_, revision, _) => CallAuctionPhaseSnapshot(Closed, revision, None, phase.lastAuctionId)
    case _ => phase
  }

  /** Any accepted command but a publication invalidates the last indication. */
  ghost function IndicativeAfter(last: Option<CallAuctionIndicativeState>, action: PreparedAction): Option<CallAuctionIndicativeState> {
    match action
    case RejectedAction(_) => last
    case IndicativeAction(state) => Some(state)
    case _ => None
  }

  ghost function CancelKinds(orders: seq<CallAuctionOrderSnapshot>): seq<CallAuctionEventKind> {
    seq(|orders|, i requires 0 <= i < |orders| => OrderCancelled(orders[i], ByMassCancel))
  }

  ghost function TradeKinds(trades: seq<CallAuctionTrade>): seq<CallAuctionEventKind> {
    seq(|trades|, i requires 0 <= i < |trades| => TradeExecuted(trades[i]))
  }

  ghost function RemainderKinds(cancellations: seq<CallAuctionCancellation>): seq<CallAuctionEventKind> {
    seq(|cancellations|, i requires 0 <= i < |cancellations| => RemainderCancelled(cancellations[i]))
  }

  ghost function MassCancelKinds(m: BookModel, account: AccountId, scope: MassCancelScope, preflight: CallAuctionMassCancelResult): seq<CallAuctionEventKind> {
    CancelKinds(AscendingOrders(m.active, Selected(m, account, scope)))
    + [MassCancelCompleted(account, scope, preflight.cancelledOrderCount, preflight.cancelledQuantityLots, preflight.stateRevision)]
  }

  ghost function UncrossKinds(auctionId: AuctionId, phaseRevision: u64, prepared: PreparedCallAuctionUncross): seq<CallAuctionEventKind>
    requires |prepared.trades| <= U64_MAX && |prepared.cancellations| <= U64_MAX
  {
    TradeKinds(prepared.trades) + RemainderKinds(prepared.cancellations)
    + [UncrossCompleted(auctionId, prepared.plan.clearing, prepared.policy, |prepared.trades|, |prepared.cancellations|,
                        prepared.nextStateRevision, phaseRevision)]
  }

  /** The events an action emits, in order. */
  ghost function EventKinds(s: EngineState, command: CallAuctionCommand, action: PreparedAction): seq<CallAuctionEventKind>
    requires Applicable(s.book, action) && MaximumEvents(action) <= U64_MAX
  {
    match action
    case RejectedAction(reason) => [CommandRejected(reason)]
    case PhaseTransition(source, resulting) =>
      (if command.PhaseControl? then [PhaseChanged(command.auctionId, source.phase, resulting.phase, resulting.revision)] else [])
    case SubmitAction(accepted) => [OrderAccepted(accepted)]
    case CancelAction(order) => [OrderCancelled(order, UserRequested)]
    case MassCancelAction(account, scope, preflight) => MassCancelKinds(s.book, account, scope, preflight)
    case AmendAction(previous, newQuantity) => [OrderAmended(previous.(quantity := newQuantity), previous.quantity, BookAfter(s.book, action).stateRevision)]
    case ReplaceAction(target, replacement) => [OrderCancelled(target, ByReplacement), OrderAccepted(replacement)]
    case IndicativeAction(state) => [IndicativePublished(state)]
    case UncrossAction(auctionId, revision, prepared) => UncrossKinds(auctionId, revision, prepared)
  }

  /** Events bound to one command, numbered from `first`. */
  ghost function Stamped(kinds: seq<CallAuctionEventKind>, command: CallAuctionCommand, first: nat): (events: seq<CallAuctionEvent>)
    requires first + |kinds| <= U64_MAX + 1
    ensures |events| == |kinds|
    ensures forall i {:trigger events[i]} :: 0 <= i < |events| ==>
              events[i] == CallAuctionEvent(first + i, command.commandId, command.receivedAt, kinds[i])
  {
    seq(|kinds|, i requires 0 <= i < |kinds| => CallAuctionEvent(first + i, command.commandId, command.receivedAt, kinds[i]))
  }

  function OutcomeOf(action: PreparedAction): CallAuctionCommandOutcome {
    match action case RejectedAction(reason) => Rejected(reason) case _ => Accepted
  }

  /** The gate may turn an accepted submission or replacement into an external risk rejection. */
  ghost function Gated(action: PreparedAction, external: Option<CallAuctionRejectReason>): PreparedAction {
    if external.Some? && !action.RejectedAction? then RejectedAction(external.value) else action
  }

  ghost predicate GateAllows(command: CallAuctionCommand, external: Option<CallAuctionRejectReason>) {
    external.Some? ==> (command.Submit? || command.Replace?) && IsExternalRiskRejection(external.value)
  }

  /** There is room for the report of an action. */
  ghost predicate HasRoom(s: EngineState, action: PreparedAction) {
    && s.nextCommandSequence < U64_MAX && s.nextEventSequence + MaximumEvents(action) <= U64_MAX
  }

  ghost function ReportOf(s: EngineState, command: CallAuctionCommand, action: PreparedAction): CallAuctionExecutionReport
    requires Applicable(s.book, action) && HasRoom(s, action) && |EventKinds(s, command, action)| <= MaximumEvents(action)
  {
    CallAuctionExecutionReport(command.commandId, s.nextCommandSequence, OutcomeOf(action),
                               Stamped(EventKinds(s, command, action), command, s.nextEventSequence), false)
  }

  /** Committing an action: book, phase and indication move, and one report joins the history. */
  ghost function Committed(s: EngineState, command: CallAuctionCommand, action: PreparedAction): EngineState
    requires Applicable(s.book, action) && HasRoom(s, action) && |EventKinds(s, command, action)| <= MaximumEvents(action)
  {
    var report := ReportOf(s, command, action);
    EngineState(s.limits, BookAfter(s.book, action), PhaseAfter(s.phase, action), IndicativeAfter(s.lastIndicative, action),
                s.nextCommandSequence + 1, s.nextEventSequence + |report.events|,
                s.history + [CallAuctionHistoryEntry(command, report)], s.events + report.events)
  }
}
