/** What a committed action says about its command, its book and its phase: the facts the history
    audits rely on. */
module DecidedActions {
  import opened AbstractBook
  import opened Domain
  import opened EngineLaws
  import opened EngineModel
  import opened EngineRuns
  import opened EngineTypes
  import opened MassCancellation
  import opened Uncross
  import opened UncrossSteps

  /** A prepared uncross carries the trades and cancellations of its clearing state. */
  ghost predicate UncrossFits(m: BookModel, policy: CallAuctionUncrossPolicy, prepared: PreparedCallAuctionUncross) {
    var c := prepared.plan.clearing;
    && ClearsAt(m, c) && m.stateRevision < U64_MAX && TradeIdsFit(m, c, policy.allocation) && prepared.policy == policy
    && prepared.trades == PreparedTrades(m, c, policy.allocation) && prepared.cancellations == Cancellations(m, c, policy)
    && prepared.nextStateRevision == m.stateRevision + 1
  }

  /** The action is the one its own command asks for, decided on this state. */
  ghost predicate ActionFits(s: EngineState, command: CallAuctionCommand, action: PreparedAction)
    requires s.book.Valid() && s.book.definition.Valid()
  {
    hide BookModel.Valid, InstrumentDefinition.Valid, ClearsAt;
    match action
    case RejectedAction(reason) => true
    case PhaseTransition(source, resulting) => command.PhaseControl? && DecidePhase(s.phase, command) == Ok(action)
    case SubmitAction(accepted) => command.Submit? && Admission(s.book, command.order) == Ok(accepted)
    case CancelAction(order) => command.Cancel? && Cancellation(s.book, command.accountId, command.orderId) == Ok(order)
    case MassCancelAction(account, scope, preflight) =>
      command.MassCancel? && account == command.accountId && scope == command.scope && MassCancelOutcome(s.book, account, scope) == Ok(preflight)
    case AmendAction(previous, newQuantity) =>
      command.Amend? && newQuantity == command.newQuantity && Amendment(s.book, command.accountId, command.orderId, newQuantity) == Ok(previous)
    case ReplaceAction(target, replacement) =>
      command.Replace? && ReplacementOutcome(s.book, command.accountId, command.targetOrderId, command.replacement) == Ok((target, replacement))
    case IndicativeAction(state) =>
      && command.Indicative? && s.phase.revision == command.expectedPhaseRevision
      && state == CallAuctionIndicativeState(command.auctionId, s.phase.revision, s.book.stateRevision, command.priceBand, command.referencePrice,
                                             command.pricePolicy, Discovered(s, command.priceBand, command.referencePrice, command.pricePolicy))
    case UncrossAction(auctionId, revision, prepared) =>
      && command.Uncross? && auctionId == command.auctionId && s.phase.revision == command.expectedPhaseRevision
      && s.phase.revision < U64_MAX && revision == s.phase.revision + 1 && UncrossFits(s.book, command.uncrossPolicy, prepared)
  }

  lemma EntriesFit(s: EngineState, command: CallAuctionCommand, action: PreparedAction)
    requires s.book.Valid() && s.book.definition.Valid()
    requires || (command.Submit? && DecideSubmit(s, command) == Ok(action))
             || (command.Amend? && DecideAmend(s, command) == Ok(action))
             || (command.Replace? && DecideReplace(s, command) == Ok(action))
             || (command.PhaseControl? && DecidePhase(s.phase, command) == Ok(action))
             || (command.Cancel? && DecideCancel(s, command) == Ok(action))
    ensures ActionFits(s, command, action)
  {
    hide BookModel.Valid, InstrumentDefinition.Valid, Admission, Amendment, ReplacementOutcome, CollectionRejection, Cancellation, UncrossFits, Discovered,
      MassCancelOutcome, NextCycle;
  }

  lemma MassCancelFits(s: EngineState, command: CallAuctionCommand, action: PreparedAction)
    requires s.book.Valid() && s.book.definition.Valid() && command.MassCancel? && DecideMassCancel(s, command) == Ok(action)
    ensures ActionFits(s, command, action)
  {
    hide BookModel.Valid, InstrumentDefinition.Valid, MassCancelOutcome, Cancellation, Admission, Amendment, ReplacementOutcome, UncrossFits, Discovered;
  }

  lemma IndicativeFits(s: EngineState, command: CallAuctionCommand, action: PreparedAction)
    requires WellFormedEngine(s) && s.book.Valid() && s.book.definition.Valid() && command.Indicative? && DecideIndicative(s, command) == Ok(action)
    ensures ActionFits(s, command, action)
  {
    hide BookModel.Valid, InstrumentDefinition.Valid, MassCancelOutcome, Cancellation, Admission, Amendment, ReplacementOutcome, UncrossFits, Discovered,
      IndicationOk, DecideIndicative, IndicativeRejection, PriceRuleRejection;
    IndicativeDecision(s, command, action);
    if IndicativeRejection(s.phase, s.book.definition, command).None? {
      IndicationAllowed(s.phase, s.book.definition, command);
    }
  }

  lemma UncrossFitsDecision(s: EngineState, bookInstanceId: nat, leases: usize, command: CallAuctionCommand, action: PreparedAction)
    requires WellFormedEngine(s) && s.book.Valid() && s.book.definition.Valid()
    requires command.Uncross? && DecideUncross(s, bookInstanceId, leases, command) == Ok(action)
    ensures ActionFits(s, command, action)
  {
    hide *;
    UncrossDecision(s, bookInstanceId, leases, command, action);
    if action.RejectedAction? {
      RejectionFits(s, command, action.reason);
    } else {
      var c := Discovered(s, command.priceBand, command.referencePrice, command.pricePolicy).value;
      OutcomeShape(s.book, bookInstanceId, c, command.uncrossPolicy, action.prepared);
      FrozenForUncross(s.phase, command);
      UncrossActionFits(s, command, action);
    }
  }

  lemma UncrossActionFits(s: EngineState, command: CallAuctionCommand, action: PreparedAction)
    requires s.book.Valid() && s.book.definition.Valid() && command.Uncross? && action.UncrossAction?
    requires action.auctionId == command.auctionId && s.phase.revision == command.expectedPhaseRevision
    requires s.phase.revision < U64_MAX && action.phaseRevision == s.phase.revision + 1
    requires var m, c, policy, t := s.book, action.prepared.plan.clearing, command.uncrossPolicy, action.prepared;
             && ClearsAt(m, c) && m.stateRevision < U64_MAX && TradeIdsFit(m, c, policy.allocation) && t.policy == policy
             && t.trades == PreparedTrades(m, c, policy.allocation) && t.cancellations == SideRemainders(m, Buy, c, policy) + SideRemainders(m, Sell, c, policy)
             && t.nextStateRevision == m.stateRevision + 1
    ensures ActionFits(s, command, action)
  {
    hide BookModel.Valid, InstrumentDefinition.Valid, ClearsAt, TradeIdsFit, SideRemainders, PreparedTrades;
  }

  lemma RejectionFits(s: EngineState, command: CallAuctionCommand, reason: CallAuctionRejectReason)
    requires s.book.Valid() && s.book.definition.Valid()
    ensures ActionFits(s, command, RejectedAction(reason))
  {
    hide BookModel.Valid, InstrumentDefinition.Valid;
  }

  lemma DecisionFits(s: EngineState, bookInstanceId: nat, leases: usize, command: CallAuctionCommand, action: PreparedAction)
    requires WellFormedEngine(s) && s.book.Valid() && s.book.definition.Valid() && Decide(s, bookInstanceId, leases, command) == Ok(action)
    ensures ActionFits(s, command, action)
  {
    hide WellFormedEngine, ActionFits, BookModel.Valid, InstrumentDefinition.Valid, DecidePhase, DecideSubmit, DecideCancel, DecideMassCancel, DecideAmend,
      DecideReplace, DecideIndicative, DecideUncross;
    match Route(s, command) {
      case Some(reason) => RejectionFits(s, command, reason);
      case None =>
        match command {
          case MassCancel(_, _, _, _, _, _) => MassCancelFits(s, command, action);
          case Indicative(_, _, _, _, _, _, _, _, _) => IndicativeFits(s, command, action);
          case Uncross(_, _, _, _, _, _, _, _, _, _) => UncrossFitsDecision(s, bookInstanceId, leases, command, action);
          case _ => EntriesFit(s, command, action);
        }
    }
  }

  /** Every committed action fits its command. */
  lemma StepFits(s: EngineState, input: Input)
    requires WellFormedEngine(s) && StepAction(s, input).Some?
    ensures s.book.Valid() && s.book.definition.Valid() && ActionFits(s, input.command, StepAction(s, input).value)
  {
    hide *;
    EngineFacts(s);
    StepIs(s, input);
    var action := StepAction(s, input).value;
    var decided :| Decide(s, input.bookInstanceId, input.leases, input.command) == Ok(decided) && CapacityError(s, decided).None?
                   && action == Gated(decided, input.external) && GateAllows(input.command, input.external);
    DecisionFits(s, input.bookInstanceId, input.leases, input.command, decided);
    GatedIs(decided, input.external);
    if action != decided {
      RejectionFits(s, input.command, action.reason);
    }
  }

  lemma GatedIs(action: PreparedAction, external: Option<CallAuctionRejectReason>)
    ensures Gated(action, external) == action || (external.Some? && !action.RejectedAction? && Gated(action, external) == RejectedAction(external.value))
  {
  }
}
