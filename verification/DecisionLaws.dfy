/** What the engine decides of every command: each rejection, each failure and each action with the
    condition it is given under, in terms of the command, the book and the cycle alone. */
module DecisionLaws {
  import opened AbstractBook
  import opened AdmissionLaws
  import opened BookInterest
  import opened Clearing
  import opened Discovery
  import opened Domain
  import opened EngineModel
  import opened EngineTypes
  import opened MassCancellation
  import opened SetSums
  import opened Uncross

  // ----- routing

  ghost predicate NamesInstrument(d: InstrumentDefinition, command: CallAuctionCommand) {
    match command
    case Submit(_, _, _, order, _) => order.instrumentId == d.instrumentId
    case Replace(_, _, _, _, _, replacement, _) => replacement.instrumentId == d.instrumentId
    case _ => command.instrumentId == d.instrumentId
  }

  ghost predicate NamesVersion(d: InstrumentDefinition, command: CallAuctionCommand) {
    match command
    case Submit(_, _, _, order, _) => order.instrumentVersion == d.version
    case Replace(_, _, _, _, _, replacement, _) => replacement.instrumentVersion == d.version
    case _ => command.instrumentVersion == d.version
  }

  /** A command is routed by the instrument it names, orders by the one they carry; the wrong instrument
      is reported before the wrong version, and either before anything else. */
  lemma RoutingVerdict(s: EngineState, command: CallAuctionCommand)
    ensures Route(s, command) == Some(CallAuctionRejectReason.WrongInstrument) <==> !NamesInstrument(s.book.definition, command)
    ensures Route(s, command) == Some(WrongInstrumentVersion) <==> NamesInstrument(s.book.definition, command) && !NamesVersion(s.book.definition, command)
    ensures Route(s, command) == None <==> NamesInstrument(s.book.definition, command) && NamesVersion(s.book.definition, command)
  {
  }

  // ----- the cycle a command names

  /** The command speaks of the present phase revision and of the active auction, in a phase that allows it. */
  ghost predicate InCycle(phase: CallAuctionPhaseSnapshot, revision: u64, auctionId: AuctionId, allowed: bool) {
    revision == phase.revision && allowed && phase.activeAuctionId == Some(auctionId)
  }

  /** The first thing wrong with the cycle a command names: its revision, the phase, then the auction. */
  ghost predicate CycleRefusal(phase: CallAuctionPhaseSnapshot, revision: u64, auctionId: AuctionId, allowed: bool, action: CallAuctionAction,
                               reason: CallAuctionRejectReason) {
    match reason
    case PhaseRevisionMismatch(observed, current) => observed == revision && current == phase.revision && observed != current
    case ActionNotAllowed(refused, at) => revision == phase.revision && !allowed && refused == action && at == phase.phase
    case AuctionIdMismatch(observed, current) =>
      revision == phase.revision && allowed && observed == auctionId && current == phase.activeAuctionId && current != Some(observed)
    case _ => false
  }

  lemma CollectionVerdict(phase: CallAuctionPhaseSnapshot, revision: u64, auctionId: AuctionId, action: CallAuctionAction)
    ensures var r, collecting := CollectionRejection(phase, revision, auctionId, action), phase.phase.Collecting?;
            && (r.None? <==> InCycle(phase, revision, auctionId, collecting))
            && forall reason :: r == Some(reason) <==> CycleRefusal(phase, revision, auctionId, collecting, action, reason)
  {
  }

  // ----- phase control

  /** The identity the next cycle must carry. */
  ghost function NextAuction(phase: CallAuctionPhaseSnapshot): nat {
    if phase.lastAuctionId.Some? then phase.lastAuctionId.value + 1 else 1
  }

  ghost predicate Opens(phase: CallAuctionPhaseSnapshot, target: CallAuctionPhase) {
    phase.phase.Closed? && target.Collecting?
  }

  /** An open cycle freezes, reopens or closes. */
  ghost predicate Moves(phase: CallAuctionPhaseSnapshot, target: CallAuctionPhase) {
    !phase.phase.Closed? && target != phase.phase
  }

  /** The control names the cycle it may start, or the one it may move. */
  ghost predicate ControlsCycle(phase: CallAuctionPhaseSnapshot, command: CallAuctionCommand)
    requires command.PhaseControl?
  {
    || (Opens(phase, command.targetPhase) && NextAuction(phase) <= U64_MAX && command.auctionId == NextAuction(phase))
    || (Moves(phase, command.targetPhase) && phase.activeAuctionId == Some(command.auctionId))
  }

  ghost predicate PhaseVerdict(phase: CallAuctionPhaseSnapshot, command: CallAuctionCommand, d: Decision)
    requires command.PhaseControl?
  {
    var current, target, auctionId := command.expectedPhaseRevision == phase.revision, command.targetPhase, command.auctionId;
    match d
    case Ok(RejectedAction(PhaseRevisionMismatch(observed, now))) => !current && observed == command.expectedPhaseRevision && now == phase.revision
    case Ok(RejectedAction(InvalidPhaseTransition(from, to))) =>
      current && !Opens(phase, target) && !Moves(phase, target) && from == phase.phase && to == target
    case Ok(RejectedAction(AuctionIdNotNext(expected, supplied))) =>
      current && Opens(phase, target) && expected == NextAuction(phase) && supplied == auctionId && supplied != expected
    case Ok(RejectedAction(AuctionIdMismatch(observed, active))) =>
      current && Moves(phase, target) && observed == auctionId && active == phase.activeAuctionId && active != Some(observed)
    case Err(AuctionIdExhausted) => current && Opens(phase, target) && NextAuction(phase) > U64_MAX
    case Err(PhaseRevisionExhausted) => current && ControlsCycle(phase, command) && phase.revision == U64_MAX
    case Ok(PhaseTransition(source, resulting)) =>
      && current && ControlsCycle(phase, command) && source == phase && resulting.phase == target && resulting.revision == phase.revision + 1
      && resulting.lastAuctionId == (if Opens(phase, target) then Some(auctionId) else phase.lastAuctionId)
      && resulting.activeAuctionId == (if target.Closed? then None else Some(auctionId))
    case _ => false
  }

  lemma PhaseExactly(phase: CallAuctionPhaseSnapshot, command: CallAuctionCommand, d: Decision)
    requires command.PhaseControl?
    ensures DecidePhase(phase, command) == d <==> PhaseVerdict(phase, command, d)
  {
  }

  // ----- orders

  ghost predicate SubmitVerdict(s: EngineState, command: CallAuctionCommand, d: Decision)
    requires command.Submit? && s.book.definition.tickSize >= 1 && s.book.definition.incrementLots >= 1
  {
    var order, collecting := command.order, s.phase.phase.Collecting?;
    var current := InCycle(s.phase, command.expectedPhaseRevision, command.auctionId, collecting);
    match d
    case Ok(RejectedAction(InstrumentRule(error))) => current && InstrumentVerdict(s.book.definition, order, Some(error))
    case Ok(RejectedAction(DuplicateOrder)) => current && InstrumentVerdict(s.book.definition, order, None) && order.orderId in s.book.seen
    case Ok(RejectedAction(reason)) => CycleRefusal(s.phase, command.expectedPhaseRevision, command.auctionId, collecting, SubmitOrder, reason)
    case Ok(SubmitAction(accepted)) => current && AdmissionVerdict(s.book, order, Ok(accepted))
    case Err(BookAdmission(error)) => current && !error.Instrument? && !error.DuplicateOrderId? && AdmissionVerdict(s.book, order, Err(error))
    case _ => false
  }

  lemma SubmitExactly(s: EngineState, command: CallAuctionCommand, d: Decision)
    requires command.Submit? && s.book.definition.Valid()
    ensures s.book.definition.tickSize >= 1 && s.book.definition.incrementLots >= 1
    ensures DecideSubmit(s, command) == d <==> SubmitVerdict(s, command, d)
  {
    RulesArePositive(s.book.definition);
    CollectionVerdict(s.phase, command.expectedPhaseRevision, command.auctionId, SubmitOrder);
    var answer := Admission(s.book, command.order);
    forall r ensures answer == r <==> AdmissionVerdict(s.book, command.order, r) { AdmissionExactly(s.book, command.order, r); }
    hide InstrumentDefinition.Valid, Admission, InstrumentVerdict, CollectionRejection, CycleRefusal, InCycle;
    DuplicatesRead(s.book, command.order);
    hide AdmissionVerdict;
  }

  /** How the two refusals the engine reports itself read. */
  lemma DuplicatesRead(m: BookModel, order: CallAuctionOrder)
    requires m.definition.tickSize >= 1 && m.definition.incrementLots >= 1
    ensures AdmissionVerdict(m, order, Err(DuplicateOrderId)) <==> InstrumentVerdict(m.definition, order, None) && order.orderId in m.seen
    ensures forall error :: AdmissionVerdict(m, order, Err(Instrument(error))) <==> InstrumentVerdict(m.definition, order, Some(error))
  {
    hide InstrumentVerdict;
  }

  /** An absent order is unknown, another account's is not owned. */
  ghost predicate CancelVerdict(m: BookModel, command: CallAuctionCommand, d: Decision)
    requires command.Cancel?
  {
    match d
    case Ok(RejectedAction(UnknownOrder)) => Absent(m, command.orderId)
    case Ok(RejectedAction(NotOrderOwner)) => Foreign(m, command.accountId, command.orderId)
    case Ok(CancelAction(order)) => Own(m, command.accountId, command.orderId) && m.stateRevision < U64_MAX && order == m.active[command.orderId]
    case Err(BookCancellation(StateRevisionExhausted)) => Own(m, command.accountId, command.orderId) && m.stateRevision == U64_MAX
    case _ => false
  }

  lemma CancelExactly(s: EngineState, command: CallAuctionCommand, d: Decision)
    requires command.Cancel?
    ensures DecideCancel(s, command) == d <==> CancelVerdict(s.book, command, d)
  {
    CancellationExactly(s.book, command.accountId, command.orderId);
  }

  /** The account's active orders on the sides in scope. */
  ghost function Chosen(m: BookModel, account: AccountId, scope: MassCancelScope): set<OrderId> {
    set id | id in m.active && m.active[id].accountId == account && (scope.All? || m.active[id].side == scope.side)
  }

  /** A mass cancellation is never rejected; an empty selection leaves the revision alone. */
  ghost predicate MassCancelVerdict(m: BookModel, command: CallAuctionCommand, d: Decision)
    requires command.MassCancel?
  {
    var ids := Chosen(m, command.accountId, command.scope);
    match d
    case Ok(MassCancelAction(account, scope, preflight)) =>
      && account == command.accountId && scope == command.scope && (ids == {} || m.stateRevision < U64_MAX)
      && preflight.cancelledOrderCount == |ids| && preflight.cancelledQuantityLots == Total(Lots(m.active), ids)
      && preflight.stateRevision == m.stateRevision + (if ids == {} then 0 else 1)
    case Err(BookMassCancellation(MassCancelRevisionExhausted)) => ids != {} && m.stateRevision == U64_MAX
    case _ => false
  }

  lemma MassCancelExactly(s: EngineState, command: CallAuctionCommand, d: Decision)
    requires command.MassCancel? && s.book.Valid()
    ensures DecideMassCancel(s, command) == d <==> MassCancelVerdict(s.book, command, d)
  {
    hide *;
    ChosenAreSelected(s.book, command.accountId, command.scope);
    MassCancelOutcomeIs(s.book, command.accountId, command.scope);
    MassCancelRead(s, command, d, Selected(s.book, command.accountId, command.scope));
  }

  lemma ChosenAreSelected(m: BookModel, account: AccountId, scope: MassCancelScope)
    ensures Chosen(m, account, scope) == Selected(m, account, scope)
  {
  }

  lemma MassCancelRead(s: EngineState, command: CallAuctionCommand, d: Decision, ids: set<OrderId>)
    requires command.MassCancel? && s.book.Valid() && ids == Chosen(s.book, command.accountId, command.scope)
    requires |ids| <= U64_MAX && Total(Lots(s.book.active), ids) <= U128_MAX && (ids == {} <==> |ids| == 0)
    requires |ids| == 0 ==> Total(Lots(s.book.active), ids) == 0
    requires MassCancelOutcome(s.book, command.accountId, command.scope) ==
               if |ids| == 0 then Ok(CallAuctionMassCancelResult(0, 0, s.book.stateRevision))
               else if s.book.stateRevision == U64_MAX then Err(MassCancelRevisionExhausted)
               else Ok(CallAuctionMassCancelResult(|ids|, Total(Lots(s.book.active), ids), s.book.stateRevision + 1))
    ensures DecideMassCancel(s, command) == d <==> MassCancelVerdict(s.book, command, d)
  {
    hide BookModel.Valid, MassCancelOutcome, Chosen, Total, Lots;
  }

  ghost predicate AmendVerdict(s: EngineState, command: CallAuctionCommand, d: Decision)
    requires command.Amend? && s.book.definition.incrementLots >= 1
  {
    var m, lots, collecting := s.book, command.newQuantity, s.phase.phase.Collecting?;
    var current := InCycle(s.phase, command.expectedPhaseRevision, command.auctionId, collecting);
    var own := current && Own(m, command.accountId, command.orderId);
    var leaves := own && lots <= m.definition.maximumLots && OnLotGrid(m.definition, lots);
    match d
    case Ok(RejectedAction(UnknownOrder)) => current && Absent(m, command.orderId)
    case Ok(RejectedAction(NotOrderOwner)) => current && Foreign(m, command.accountId, command.orderId)
    case Ok(RejectedAction(InstrumentRule(QuantityOutsideLimits))) => own && lots > m.definition.maximumLots
    case Ok(RejectedAction(InstrumentRule(QuantityOffGrid))) => own && lots <= m.definition.maximumLots && !OnLotGrid(m.definition, lots)
    case Ok(RejectedAction(AmendQuantityNotReduced)) => leaves && lots >= m.active[command.orderId].quantity
    case Ok(RejectedAction(reason)) => CycleRefusal(s.phase, command.expectedPhaseRevision, command.auctionId, collecting, AmendOrder, reason)
    case Ok(AmendAction(previous, newQuantity)) =>
      && leaves && lots < m.active[command.orderId].quantity && m.stateRevision < U64_MAX
      && previous == m.active[command.orderId] && newQuantity == lots
    case Err(BookAmendment(AmendRevisionExhausted)) =>
      leaves && lots < m.active[command.orderId].quantity && m.stateRevision == U64_MAX
    case _ => false
  }

  lemma AmendExactly(s: EngineState, command: CallAuctionCommand, d: Decision)
    requires command.Amend? && s.book.definition.Valid()
    ensures s.book.definition.incrementLots >= 1
    ensures DecideAmend(s, command) == d <==> AmendVerdict(s, command, d)
  {
    CollectionVerdict(s.phase, command.expectedPhaseRevision, command.auctionId, AmendOrder);
    QuantityVerdict(s.book.definition, command.newQuantity);
    hide InstrumentDefinition.Valid, InstrumentDefinition.ValidateLeaves, CollectionRejection, CycleRefusal, InCycle, OnLotGrid;
  }

  ghost predicate ReplaceVerdict(s: EngineState, command: CallAuctionCommand, d: Decision)
    requires command.Replace? && s.book.definition.tickSize >= 1 && s.book.definition.incrementLots >= 1
  {
    var m, order, collecting := s.book, command.replacement, s.phase.phase.Collecting?;
    var current := InCycle(s.phase, command.expectedPhaseRevision, command.auctionId, collecting);
    var owned := current && Own(m, command.accountId, command.targetOrderId);
    match d
    case Ok(RejectedAction(UnknownOrder)) => current && Absent(m, command.targetOrderId)
    case Ok(RejectedAction(NotOrderOwner)) =>
      (current && Foreign(m, command.accountId, command.targetOrderId)) || (owned && order.accountId != command.accountId)
    case Ok(RejectedAction(InstrumentRule(error))) =>
      owned && order.accountId == command.accountId && InstrumentVerdict(m.definition, order, Some(error))
    case Ok(RejectedAction(DuplicateOrder)) =>
      owned && order.accountId == command.accountId && InstrumentVerdict(m.definition, order, None) && order.orderId in m.seen
    case Ok(RejectedAction(reason)) => CycleRefusal(s.phase, command.expectedPhaseRevision, command.auctionId, collecting, ReplaceOrder, reason)
    case Ok(ReplaceAction(left, accepted)) =>
      current && ReplacementVerdict(m, command.accountId, command.targetOrderId, order, Ok((left, accepted)))
    case Err(BookReplacement(Replacement(error))) =>
      && current && !error.Instrument? && !error.DuplicateOrderId?
      && ReplacementVerdict(m, command.accountId, command.targetOrderId, order, Err(Replacement(error)))
    case _ => false
  }

  lemma ReplaceExactly(s: EngineState, command: CallAuctionCommand, d: Decision)
    requires command.Replace? && s.book.definition.Valid()
    ensures s.book.definition.tickSize >= 1 && s.book.definition.incrementLots >= 1
    ensures DecideReplace(s, command) == d <==> ReplaceVerdict(s, command, d)
  {
    RulesArePositive(s.book.definition);
    CollectionVerdict(s.phase, command.expectedPhaseRevision, command.auctionId, ReplaceOrder);
    var m, account, target, order := s.book, command.accountId, command.targetOrderId, command.replacement;
    var answer := ReplacementOutcome(m, account, target, order);
    forall r ensures answer == r <==> ReplacementVerdict(m, account, target, order, r) { ReplacementExactly(m, account, target, order, r); }
    ReplacementsRead(m, account, target, order);
    hide InstrumentDefinition.Valid, ReplacementOutcome, InstrumentVerdict, CollectionRejection, CycleRefusal, InCycle, ReplacementVerdict;
  }

  /** How the refusals the engine reports itself read. */
  lemma ReplacementsRead(m: BookModel, account: AccountId, target: OrderId, order: CallAuctionOrder)
    requires m.definition.tickSize >= 1 && m.definition.incrementLots >= 1
    ensures ReplacementVerdict(m, account, target, order, Err(Target(CallAuctionCancelError.UnknownOrder))) <==> Absent(m, target)
    ensures ReplacementVerdict(m, account, target, order, Err(Target(AccountMismatch))) <==> Foreign(m, account, target)
    ensures !ReplacementVerdict(m, account, target, order, Err(Target(StateRevisionExhausted)))
    ensures ReplacementVerdict(m, account, target, order, Err(ReplacementAccountMismatch)) <==> Own(m, account, target) && order.accountId != account
    ensures ReplacementVerdict(m, account, target, order, Err(Replacement(DuplicateOrderId))) <==>
              Own(m, account, target) && order.accountId == account && InstrumentVerdict(m.definition, order, None) && order.orderId in m.seen
    ensures forall error :: ReplacementVerdict(m, account, target, order, Err(Replacement(Instrument(error)))) <==>
                              Own(m, account, target) && order.accountId == account && InstrumentVerdict(m.definition, order, Some(error))
  {
    hide InstrumentVerdict;
  }

  // ----- publications

  ghost predicate Ruled(d: InstrumentDefinition, price: Price)
    requires d.tickSize >= 1
  {
    WithinCollar(d, price) && OnTickGrid(d, price)
  }

  /** The price misses the collar, or else the tick grid. */
  ghost predicate Unruled(d: InstrumentDefinition, price: Price, error: AdmissionError)
    requires d.tickSize >= 1
  {
    || (error.PriceOutsideCollar? && !WithinCollar(d, price))
    || (error.PriceOffTickGrid? && WithinCollar(d, price) && !OnTickGrid(d, price))
  }

  /** What the price rules say of a publication: lower bound, upper bound, then reference. */
  lemma PublicationPrices(d: InstrumentDefinition, band: AuctionPriceBand, reference: Price)
    requires d.Valid()
    ensures d.tickSize >= 1
    ensures PriceRuleRejection(d, band, reference).None? <==> Ruled(d, band.minimum) && Ruled(d, band.maximum) && Ruled(d, reference)
    ensures forall reason :: PriceRuleRejection(d, band, reference) == Some(reason) <==> PriceRefusal(d, band, reference, reason)
  {
    PriceVerdict(d, band.minimum);
    PriceVerdict(d, band.maximum);
    PriceVerdict(d, reference);
    hide InstrumentDefinition.Valid, InstrumentDefinition.ValidatePrice, WithinCollar, OnTickGrid;
  }

  ghost predicate PriceRefusal(d: InstrumentDefinition, band: AuctionPriceBand, reference: Price, reason: CallAuctionRejectReason)
    requires d.tickSize >= 1
  {
    && reason.InstrumentRule?
    && (|| Unruled(d, band.minimum, reason.rule)
        || (Ruled(d, band.minimum) && Unruled(d, band.maximum, reason.rule))
        || (Ruled(d, band.minimum) && Ruled(d, band.maximum) && Unruled(d, reference, reason.rule)))
  }

  ghost predicate BandFits(d: InstrumentDefinition, band: AuctionPriceBand, reference: Price)
    requires d.tickSize >= 1
  {
    band.minimum <= band.maximum && OnTickGrid(d, band.minimum) && OnTickGrid(d, band.maximum) && OnTickGrid(d, reference)
  }

  /** The first thing discovery finds wrong with its band and reference. */
  ghost predicate BandFailure(d: InstrumentDefinition, band: AuctionPriceBand, reference: Price, error: AuctionError)
    requires d.tickSize >= 1
  {
    match error
    case PriceBandInverted => band.minimum > band.maximum
    case PriceBandMinimumOffGrid => band.minimum <= band.maximum && !OnTickGrid(d, band.minimum)
    case PriceBandMaximumOffGrid => band.minimum <= band.maximum && OnTickGrid(d, band.minimum) && !OnTickGrid(d, band.maximum)
    case ReferencePriceOffGrid =>
      band.minimum <= band.maximum && OnTickGrid(d, band.minimum) && OnTickGrid(d, band.maximum) && !OnTickGrid(d, reference)
    case _ => false
  }

  lemma BandVerdict(d: InstrumentDefinition, band: AuctionPriceBand, reference: Price)
    requires d.Valid()
    ensures d.tickSize >= 1
    ensures BandError(d, band, reference).None? <==> BandFits(d, band, reference)
    ensures forall error :: BandError(d, band, reference) == Some(error) <==> BandFailure(d, band, reference, error)
  {
  }

  /** Discovery over the book gives its best state in interest alone. */
  lemma DiscoveredIs(s: EngineState, band: AuctionPriceBand, reference: Price, policy: AuctionPricePolicy)
    requires s.book.Valid() && s.book.definition.Valid()
    ensures Uncross.Grid(s.book).Valid()
    ensures forall best :: Discovered(s, band, reference, policy) == best <==> IsBestOfBook(best, s.book.active, Uncross.Grid(s.book), band, reference, policy)
  {
    hide BookModel.Valid, Fits, IsBestOfBook;
    InterestFits(s.book);
    forall best ensures Discovered(s, band, reference, policy) == best <==> IsBestOfBook(best, s.book.active, Uncross.Grid(s.book), band, reference, policy) {
      BookDiscoveryMeans(best, s.book.active, Uncross.Grid(s.book), band, reference, policy);
    }
  }

  /** A published indication is structurally valid when its phase had begun and its clearing executes inside
      its band; it is valid for an instrument when moreover every price it names obeys the price rules. */
  lemma IndicationVerdict(state: CallAuctionIndicativeState, d: InstrumentDefinition)
    requires d.Valid()
    ensures d.tickSize >= 1
    ensures state.IsStructurallyValid() <==>
              && state.phaseRevision >= 1
              && (state.clearing.Some? ==> state.clearing.value.executableQuantity >= 1
                                           && state.priceBand.minimum <= state.clearing.value.price <= state.priceBand.maximum)
    ensures state.IsValidFor(d) <==>
              && state.IsStructurallyValid() && Ruled(d, state.priceBand.minimum) && Ruled(d, state.priceBand.maximum)
              && Ruled(d, state.referencePrice) && (state.clearing.Some? ==> Ruled(d, state.clearing.value.price))
  {
    PriceVerdict(d, state.priceBand.minimum);
    PriceVerdict(d, state.priceBand.maximum);
    PriceVerdict(d, state.referencePrice);
    if state.clearing.Some? { PriceVerdict(d, state.clearing.value.price); }
    hide InstrumentDefinition.Valid, InstrumentDefinition.ValidatePrice, WithinCollar, OnTickGrid;
  }

  ghost predicate IndicativeVerdict(s: EngineState, command: CallAuctionCommand, d: Decision)
    requires command.Indicative? && s.book.definition.tickSize >= 1 && Uncross.Grid(s.book).Valid()
  {
    var rules, band, reference, open := s.book.definition, command.priceBand, command.referencePrice, !s.phase.phase.Closed?;
    var current := InCycle(s.phase, command.expectedPhaseRevision, command.auctionId, open);
    var ruled := current && Ruled(rules, band.minimum) && Ruled(rules, band.maximum) && Ruled(rules, reference);
    match d
    case Ok(RejectedAction(InstrumentRule(error))) => current && PriceRefusal(rules, band, reference, InstrumentRule(error))
    case Ok(RejectedAction(reason)) => CycleRefusal(s.phase, command.expectedPhaseRevision, command.auctionId, open, PublishIndicative, reason)
    case Err(DiscoveryFailed(error)) => ruled && BandFailure(rules, band, reference, error)
    case Ok(IndicativeAction(state)) =>
      && ruled && BandFits(rules, band, reference)
      && state.auctionId == command.auctionId && state.phaseRevision == s.phase.revision && state.bookRevision == s.book.stateRevision
      && state.priceBand == band && state.referencePrice == reference && state.pricePolicy == command.pricePolicy
      && IsBestOfBook(state.clearing, s.book.active, Uncross.Grid(s.book), band, reference, command.pricePolicy)
    case _ => false
  }

  lemma OpenVerdict(phase: CallAuctionPhaseSnapshot, d: InstrumentDefinition, command: CallAuctionCommand)
    requires command.Indicative? && d.Valid()
    ensures d.tickSize >= 1
    ensures var r, open, band := IndicativeRejection(phase, d, command), !phase.phase.Closed?, command.priceBand;
            var current := InCycle(phase, command.expectedPhaseRevision, command.auctionId, open);
            && (r.None? <==> current && Ruled(d, band.minimum) && Ruled(d, band.maximum) && Ruled(d, command.referencePrice))
            && forall reason :: r == Some(reason) <==>
                 || CycleRefusal(phase, command.expectedPhaseRevision, command.auctionId, open, PublishIndicative, reason)
                 || (current && PriceRefusal(d, band, command.referencePrice, reason))
  {
    PublicationPrices(d, command.priceBand, command.referencePrice);
    hide InstrumentDefinition.Valid, PriceRuleRejection, PriceRefusal, Ruled;
  }

  lemma RefusalsDiffer(s: EngineState, command: CallAuctionCommand)
    requires command.Indicative? && s.book.definition.tickSize >= 1
    ensures forall reason :: CycleRefusal(s.phase, command.expectedPhaseRevision, command.auctionId, !s.phase.phase.Closed?, PublishIndicative, reason) ==>
                               !reason.InstrumentRule?
    ensures forall reason :: PriceRefusal(s.book.definition, command.priceBand, command.referencePrice, reason) ==> reason.InstrumentRule?
  {
  }

  lemma IndicativeExactly(s: EngineState, command: CallAuctionCommand, d: Decision)
    requires command.Indicative? && s.book.Valid() && s.book.definition.Valid()
    ensures s.book.definition.tickSize >= 1 && Uncross.Grid(s.book).Valid()
    ensures DecideIndicative(s, command) == d <==> IndicativeVerdict(s, command, d)
  {
    hide BookModel.Valid, IndicativeRejection, InCycle, CycleRefusal, BandError, BandFits, BandFailure, PriceRefusal, Ruled, Discovered, IsBestOfBook;
    OpenVerdict(s.phase, s.book.definition, command);
    RefusalsDiffer(s, command);
    BandVerdict(s.book.definition, command.priceBand, command.referencePrice);
    DiscoveredIs(s, command.priceBand, command.referencePrice, command.pricePolicy);
    hide InstrumentDefinition.Valid;
    var rejection := IndicativeRejection(s.phase, s.book.definition, command);
    match d {
      case Ok(RejectedAction(reason)) => assert DecideIndicative(s, command) == d <==> rejection == Some(reason);
      case Ok(IndicativeAction(state)) =>
        assert Discovered(s, command.priceBand, command.referencePrice, command.pricePolicy) == state.clearing <==>
               IsBestOfBook(state.clearing, s.book.active, Uncross.Grid(s.book), command.priceBand, command.referencePrice, command.pricePolicy);
      case _ =>
    }
  }

  // ----- the uncross

  /** A frozen book that crosses at a state: the first thing that stops it, or its one preparation. */
  ghost predicate CrossingVerdict(s: EngineState, bookInstanceId: nat, leases: usize, command: CallAuctionCommand, c: AuctionClearing, d: Decision)
    requires command.Uncross? && ClearsAt(s.book, c)
  {
    var m, policy := s.book, command.uncrossPolicy;
    var ready := s.phase.revision < U64_MAX && m.stateRevision < U64_MAX && leases > 0;
    match d
    case Err(PhaseRevisionExhausted) => s.phase.revision == U64_MAX
    case Err(UncrossPreparation(PrepareRevisionExhausted)) => s.phase.revision < U64_MAX && m.stateRevision == U64_MAX
    case Err(UncrossPreparation(PreparationCapacityExhausted(maximum))) =>
      s.phase.revision < U64_MAX && m.stateRevision < U64_MAX && leases == 0 && maximum == m.limits.maxPreparedUncrosses
    case Err(UncrossPreparation(TradeIdentifierExhausted)) => ready && !TradeIdsFit(m, c, policy.allocation)
    case Ok(RejectedAction(SelfTradeRefused)) =>
      ready && TradeIdsFit(m, c, policy.allocation) && policy.selfTrade == Abort && SelfPairOf(m, c, policy.allocation).Some?
    case Ok(UncrossAction(auctionId, revision, prepared)) =>
      && ready && TradeIdsFit(m, c, policy.allocation) && !(policy.selfTrade == Abort && SelfPairOf(m, c, policy.allocation).Some?)
      && auctionId == command.auctionId && revision == s.phase.revision + 1
      && PreparationOutcome(m, bookInstanceId, c, policy) == Ok(prepared)
    case _ => false
  }

  lemma CrossingExactly(s: EngineState, bookInstanceId: nat, leases: usize, command: CallAuctionCommand, c: AuctionClearing, d: Decision)
    requires command.Uncross? && ClearsAt(s.book, c)
    ensures DecideCrossing(s, bookInstanceId, leases, command, c) == d <==> CrossingVerdict(s, bookInstanceId, leases, command, c, d)
  {
    hide ClearsAt, TradeIdsFit, SelfPairOf, PairsOf, SideFills, SideRemainders, PreparedTrades;
  }

  /** Without a state where both sides have interest there is nothing to execute; otherwise the best one is crossed. */
  ghost predicate UncrossVerdict(s: EngineState, bookInstanceId: nat, leases: usize, command: CallAuctionCommand, d: Decision)
    requires command.Uncross? && s.book.definition.tickSize >= 1 && Uncross.Grid(s.book).Valid()
  {
    var rules, band, reference, policy, frozen := s.book.definition, command.priceBand, command.referencePrice, command.pricePolicy, s.phase.phase.Frozen?;
    var current := InCycle(s.phase, command.expectedPhaseRevision, command.auctionId, frozen);
    || (d.Ok? && d.value.RejectedAction?
        && CycleRefusal(s.phase, command.expectedPhaseRevision, command.auctionId, frozen, CallAuctionAction.UncrossAuction, d.value.reason))
    || (current && d.Err? && d.error.DiscoveryFailed? && BandFailure(rules, band, reference, d.error.discovery))
    || (current && BandFits(rules, band, reference) && d == Ok(RejectedAction(NoExecutableInterest))
        && IsBestOfBook(None, s.book.active, Uncross.Grid(s.book), band, reference, policy))
    || (current && BandFits(rules, band, reference)
        && exists c :: && IsBestOfBook(Some(c), s.book.active, Uncross.Grid(s.book), band, reference, policy)
                       && ClearsAt(s.book, c) && CrossingVerdict(s, bookInstanceId, leases, command, c, d))
  }

  lemma FrozenVerdict(phase: CallAuctionPhaseSnapshot, command: CallAuctionCommand)
    requires command.Uncross?
    ensures var r, frozen := UncrossRejection(phase, command), phase.phase.Frozen?;
            && (r.None? <==> InCycle(phase, command.expectedPhaseRevision, command.auctionId, frozen))
            && forall reason :: r == Some(reason) <==>
                 CycleRefusal(phase, command.expectedPhaseRevision, command.auctionId, frozen, CallAuctionAction.UncrossAuction, reason)
  {
  }

  lemma UncrossExactly(s: EngineState, bookInstanceId: nat, leases: usize, command: CallAuctionCommand, d: Decision)
    requires command.Uncross? && s.book.Valid() && s.book.definition.Valid()
    ensures s.book.definition.tickSize >= 1 && Uncross.Grid(s.book).Valid()
    ensures DecideUncross(s, bookInstanceId, leases, command) == d <==> UncrossVerdict(s, bookInstanceId, leases, command, d)
  {
    hide BookModel.Valid, UncrossRejection, CycleRefusal, InCycle, BandError, BandFits, BandFailure, Discovered, IsBestOfBook, ClearsAt, DecideCrossing,
      CrossingVerdict;
    FrozenVerdict(s.phase, command);
    BandVerdict(s.book.definition, command.priceBand, command.referencePrice);
    DiscoveredIs(s, command.priceBand, command.referencePrice, command.pricePolicy);
    DiscoveredClears(s, command.priceBand, command.referencePrice, command.pricePolicy);
    hide InstrumentDefinition.Valid;
    var best := Discovered(s, command.priceBand, command.referencePrice, command.pricePolicy);
    if best.Some? {
      CrossingExactly(s, bookInstanceId, leases, command, best.value, d);
    }
  }

  // ----- the whole decision

  /** The verdict on any command: routing first, then the rules of its kind. */
  ghost predicate DecisionVerdict(s: EngineState, bookInstanceId: nat, leases: usize, command: CallAuctionCommand, d: Decision)
    requires s.book.definition.tickSize >= 1 && s.book.definition.incrementLots >= 1 && Uncross.Grid(s.book).Valid()
  {
    if !NamesInstrument(s.book.definition, command) then d == Ok(RejectedAction(CallAuctionRejectReason.WrongInstrument))
    else if !NamesVersion(s.book.definition, command) then d == Ok(RejectedAction(WrongInstrumentVersion))
    else
      match command
      case PhaseControl(_, _, _, _, _, _, _) => PhaseVerdict(s.phase, command, d)
      case Submit(_, _, _, _, _) => SubmitVerdict(s, command, d)
      case Cancel(_, _, _, _, _, _) => CancelVerdict(s.book, command, d)
      case MassCancel(_, _, _, _, _, _) => MassCancelVerdict(s.book, command, d)
      case Amend(_, _, _, _, _, _, _, _, _) => AmendVerdict(s, command, d)
      case Replace(_, _, _, _, _, _, _) => ReplaceVerdict(s, command, d)
      case Indicative(_, _, _, _, _, _, _, _, _) => IndicativeVerdict(s, command, d)
      case Uncross(_, _, _, _, _, _, _, _, _, _) => UncrossVerdict(s, bookInstanceId, leases, command, d)
  }

  /** The engine decides a command in one way: the way its verdict says. */
  lemma DecisionExactly(s: EngineState, bookInstanceId: nat, leases: usize, command: CallAuctionCommand, d: Decision)
    requires s.book.Valid() && s.book.definition.Valid()
    ensures s.book.definition.tickSize >= 1 && s.book.definition.incrementLots >= 1 && Uncross.Grid(s.book).Valid()
    ensures Decide(s, bookInstanceId, leases, command) == d <==> DecisionVerdict(s, bookInstanceId, leases, command, d)
  {
    RulesArePositive(s.book.definition);
    hide BookModel.Valid, InstrumentDefinition.Valid, NamesInstrument, NamesVersion, Route, DecidePhase, DecideSubmit, DecideCancel, DecideMassCancel,
      DecideAmend, DecideReplace, DecideIndicative, DecideUncross, PhaseVerdict, SubmitVerdict, CancelVerdict, MassCancelVerdict, AmendVerdict,
      ReplaceVerdict, IndicativeVerdict, UncrossVerdict;
    RoutingVerdict(s, command);
    match command {
      case PhaseControl(_, _, _, _, _, _, _) => PhaseExactly(s.phase, command, d);
      case Submit(_, _, _, _, _) => SubmitExactly(s, command, d);
      case Cancel(_, _, _, _, _, _) => CancelExactly(s, command, d);
      case MassCancel(_, _, _, _, _, _) => MassCancelExactly(s, command, d);
      case Amend(_, _, _, _, _, _, _, _, _) => AmendExactly(s, command, d);
      case Replace(_, _, _, _, _, _, _) => ReplaceExactly(s, command, d);
      case Indicative(_, _, _, _, _, _, _, _, _) => IndicativeExactly(s, command, d);
      case Uncross(_, _, _, _, _, _, _, _, _, _) => UncrossExactly(s, bookInstanceId, leases, command, d);
    }
  }

  // ----- the gate

  /** The reasons the risk gate may give. */
  ghost predicate IsRiskReason(reason: CallAuctionRejectReason) {
    reason in {RiskProfileMissing, RiskAccountBlocked, RiskReduceOnly, RiskOrderQuantityLimit, RiskOrderNotionalLimit, RiskOpenOrderCountLimit,
               RiskOpenQuantityLimit, RiskOpenNotionalLimit, RiskPositionLimit, RiskArithmeticOverflow}
  }

  /** The gate is heard on exactly the commands that add interest, with exactly its ten reasons, and
      what it refuses is rejected for its reason unless the engine had rejected it already. */
  lemma GateMeans(command: CallAuctionCommand, action: PreparedAction, external: Option<CallAuctionRejectReason>)
    ensures GateAllows(command, external) <==> external.None? || ((command.Submit? || command.Replace?) && IsRiskReason(external.value))
    ensures external.Some? && !action.RejectedAction? ==> Gated(action, external) == RejectedAction(external.value)
    ensures external.None? || action.RejectedAction? ==> Gated(action, external) == action
  {
  }
}
