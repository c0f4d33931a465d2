/** The independent controller audit: phases, routing and cycle identities replayed from commands
    and reports alone, and its agreement with the engine on every run. */
module PhaseAudit {
  import opened AbstractBook
  import opened Clearing
  import opened DecidedActions
  import opened Domain
  import opened EngineLaws
  import opened EngineModel
  import opened EngineRuns
  import opened EngineTypes
  import opened Uncross

  datatype CallAuctionControllerPreflight = Allowed | Refused(refusal: CallAuctionRejectReason) | OperationalFailure

  /** The controller state an audit has replayed so far. */
  datatype Audit = Audit(phase: CallAuctionPhaseSnapshot, lastIndicative: Option<CallAuctionIndicativeState>)

  const GENESIS_AUDIT := Audit(GENESIS_PHASE, None)

  // ----- what the controller says of a command

  function PreflightCycle(phase: CallAuctionPhaseSnapshot, observedRevision: u64, allowed: bool, action: CallAuctionAction, observedId: AuctionId)
    : CallAuctionControllerPreflight
  {
    if observedRevision != phase.revision then Refused(PhaseRevisionMismatch(observedRevision, phase.revision))
    else if !allowed then Refused(ActionNotAllowed(action, phase.phase))
    else if phase.activeAuctionId != Some(observedId) then Refused(AuctionIdMismatch(observedId, phase.activeAuctionId))
    else Allowed
  }

  function PreflightPrices(definition: InstrumentDefinition, prices: seq<Price>): CallAuctionControllerPreflight
    requires definition.Valid()
  {
    if prices == [] then Allowed
    else if definition.ValidatePrice(prices[0]).Some? then Refused(InstrumentRule(definition.ValidatePrice(prices[0]).value))
    else PreflightPrices(definition, prices[1..])
  }

  function PreflightControl(phase: CallAuctionPhaseSnapshot, observedRevision: u64, target: CallAuctionPhase, auctionId: AuctionId)
    : CallAuctionControllerPreflight
  {
    if observedRevision != phase.revision then Refused(PhaseRevisionMismatch(observedRevision, phase.revision))
    else if phase.phase == Closed && target == Collecting then
      var last := if phase.lastAuctionId.None? then 0 else phase.lastAuctionId.value as int;
      if last == U64_MAX then OperationalFailure
      else if auctionId != last + 1 then Refused(AuctionIdNotNext(last + 1, auctionId))
      else if phase.revision == U64_MAX then OperationalFailure
      else Allowed
    else if phase.phase == Closed || phase.phase == target then Refused(InvalidPhaseTransition(phase.phase, target))
    else if phase.activeAuctionId != Some(auctionId) then Refused(AuctionIdMismatch(auctionId, phase.activeAuctionId))
    else if phase.revision == U64_MAX then OperationalFailure
    else Allowed
  }

  function Preflight(phase: CallAuctionPhaseSnapshot, command: CallAuctionCommand, definition: InstrumentDefinition): CallAuctionControllerPreflight
    requires definition.Valid()
  {
    if command.RoutedInstrument() != definition.instrumentId then Refused(CallAuctionRejectReason.WrongInstrument)
    else if command.RoutedVersion() != definition.version then Refused(WrongInstrumentVersion)
    else
      match command
      case PhaseControl(_, _, _, auctionId, revision, target, _) => PreflightControl(phase, revision, target, auctionId)
      case Submit(_, auctionId, revision, _, _) => PreflightCycle(phase, revision, phase.phase == Collecting, SubmitOrder, auctionId)
      case Amend(_, _, _, auctionId, revision, _, _, _, _) => PreflightCycle(phase, revision, phase.phase == Collecting, AmendOrder, auctionId)
      case Replace(_, auctionId, revision, _, _, _, _) => PreflightCycle(phase, revision, phase.phase == Collecting, ReplaceOrder, auctionId)
      case Indicative(_, _, _, auctionId, revision, band, reference, _, _) =>
        var cycle := PreflightCycle(phase, revision, phase.phase != Closed, PublishIndicative, auctionId);
        if cycle.Allowed? then PreflightPrices(definition, [band.minimum, band.maximum, reference]) else cycle
      case Uncross(_, _, _, auctionId, revision, _, _, _, _, _) => PreflightCycle(phase, revision, phase.phase == Frozen, CallAuctionAction.UncrossAuction, auctionId)
      case Cancel(_, _, _, _, _, _) => Allowed
      case MassCancel(_, _, _, _, _, _) => Allowed
  }

  /** Rejections the book, the clearing or the risk gate may give an applicable command. */
  ghost predicate BookMayReject(command: CallAuctionCommand, reason: CallAuctionRejectReason) {
    match command
    case Submit(_, _, _, _, _) => reason.InstrumentRule? || reason.DuplicateOrder? || IsExternalRiskRejection(reason)
    case Cancel(_, _, _, _, _, _) => reason.UnknownOrder? || reason.NotOrderOwner?
    case Amend(_, _, _, _, _, _, _, _, _) => reason.InstrumentRule? || reason.UnknownOrder? || reason.NotOrderOwner? || reason.AmendQuantityNotReduced?
    case Replace(_, _, _, _, _, _, _) =>
      reason.InstrumentRule? || reason.DuplicateOrder? || reason.UnknownOrder? || reason.NotOrderOwner? || IsExternalRiskRejection(reason)
    case Uncross(_, _, _, _, _, _, _, _, policy, _) => reason.NoExecutableInterest? || (reason.SelfTradeRefused? && policy.selfTrade == Abort)
    case _ => false
  }

  // ----- what an accepted report does to the audit

  ghost function Applied(audit: Audit, command: CallAuctionCommand, events: seq<CallAuctionEvent>): Option<Audit> {
    var phase := audit.phase;
    match command
    case PhaseControl(_, _, _, auctionId, _, target, _) =>
      if phase.revision < U64_MAX && |events| == 1
         && events[0].kind == PhaseChanged(auctionId, phase.phase, target, phase.revision + 1)
      then
        var active := if phase.phase == Closed then Some(auctionId) else if target == Closed then None else phase.activeAuctionId;
        var last := if phase.phase == Closed then Some(auctionId) else phase.lastAuctionId;
        Some(Audit(CallAuctionPhaseSnapshot(target, phase.revision + 1, active, last), None))
      else None
    case Uncross(_, _, _, auctionId, _, _, _, _, _, _) =>
      if phase.revision < U64_MAX && events != [] && events[|events| - 1].kind.UncrossCompleted?
         && events[|events| - 1].kind.uncrossedAuctionId == auctionId && events[|events| - 1].kind.phaseRevision == phase.revision + 1
      then Some(Audit(CallAuctionPhaseSnapshot(Closed, phase.revision + 1, None, phase.lastAuctionId), None))
      else None
    case Indicative(_, _, _, _, _, _, _, _, _) =>
      if |events| == 1 && events[0].kind.IndicativePublished? && events[0].kind.state.IsStructurallyValid()
      then Some(Audit(phase, Some(events[0].kind.state)))
      else None
    case _ => Some(Audit(phase, None))
  }

  /** One retained report replayed: the audit it leads to, or none if it contradicts the controller. */
  ghost function Observed(audit: Audit, entry: CallAuctionHistoryEntry, definition: InstrumentDefinition): Option<Audit>
    requires definition.Valid()
  {
    match (entry.report.outcome, Preflight(audit.phase, entry.command, definition))
    case (Rejected(reason), Refused(expected)) => if reason == expected then Some(audit) else None
    case (Rejected(reason), Allowed) => if BookMayReject(entry.command, reason) then Some(audit) else None
    case (Accepted, Allowed) => Applied(audit, entry.command, entry.report.events)
    case _ => None
  }

  ghost function Audited(history: seq<CallAuctionHistoryEntry>, definition: InstrumentDefinition): Option<Audit>
    requires definition.Valid()
  {
    if history == [] then Some(GENESIS_AUDIT) else
    match Audited(history[..|history| - 1], definition)
    case None => None
    case Some(audit) => Observed(audit, history[|history| - 1], definition)
  }

  // ----- the audit as it runs

  class CallAuctionPhaseAudit {
    var phase: CallAuctionPhase
    var revision: u64
    var activeAuctionId: Option<AuctionId>
    var lastAuctionId: Option<AuctionId>
    var lastIndicative: Option<CallAuctionIndicativeState>

    function State(): Audit
      reads this
    {
      Audit(CallAuctionPhaseSnapshot(phase, revision, activeAuctionId, lastAuctionId), lastIndicative)
    }

    constructor ()
      ensures State() == GENESIS_AUDIT
    {
      phase, revision, activeAuctionId, lastAuctionId, lastIndicative := Closed, 0, None, None, None;
    }

    /** Any accepted command but a publication forgets the indication; phases move with the report. */
    method ApplyAccepted(command: CallAuctionCommand, events: seq<CallAuctionEvent>) returns (ok: bool)
      modifies this
      ensures ok <==> Applied(old(State()), command, events).Some?
      ensures ok ==> Some(State()) == Applied(old(State()), command, events)
    {
      if !command.Indicative? {
        lastIndicative := None;
      }
      match command {
        case PhaseControl(_, _, _, auctionId, _, target, _) =>
          if revision == U64_MAX || |events| != 1 || events[0].kind != PhaseChanged(auctionId, phase, target, revision + 1) {
            return false;
          }
          if phase == Closed {
            activeAuctionId, lastAuctionId := Some(auctionId), Some(auctionId);
          } else if target == Closed {
            activeAuctionId := None;
          }
          phase, revision := target, revision + 1;
          ok := true;
        case Uncross(_, _, _, auctionId, _, _, _, _, _, _) =>
          if events == [] || !events[|events| - 1].kind.UncrossCompleted? || revision == U64_MAX {
            return false;
          }
          var last := events[|events| - 1].kind;
          if last.uncrossedAuctionId != auctionId || last.phaseRevision != revision + 1 {
            return false;
          }
          phase, revision, activeAuctionId := Closed, revision + 1, None;
          ok := true;
        case Indicative(_, _, _, _, _, _, _, _, _) =>
          if |events| != 1 || !events[0].kind.IndicativePublished? || !events[0].kind.state.IsStructurallyValid() {
            return false;
          }
          lastIndicative := Some(events[0].kind.state);
          ok := true;
        case _ =>
          ok := true;
      }
    }

    /** Replays one report; on success the state is the replayed one. */
    method Observe(entry: CallAuctionHistoryEntry, definition: InstrumentDefinition) returns (ok: bool)
      requires definition.Valid()
      modifies this
      ensures ok <==> Observed(old(State()), entry, definition).Some?
      ensures ok ==> Some(State()) == Observed(old(State()), entry, definition)
    {
      hide Applied, Preflight;
      var preflight := Preflight(State().phase, entry.command, definition);
      match entry.report.outcome {
        case Rejected(reason) =>
          match preflight {
            case Refused(expected) => ok := reason == expected;
            case OperationalFailure => ok := false;
            case Allowed =>
              match entry.command {
                case Submit(_, _, _, _, _) => ok := reason.InstrumentRule? || reason.DuplicateOrder? || IsExternalRiskRejection(reason);
                case Cancel(_, _, _, _, _, _) => ok := reason.UnknownOrder? || reason.NotOrderOwner?;
                case Amend(_, _, _, _, _, _, _, _, _) =>
                  ok := reason.InstrumentRule? || reason.UnknownOrder? || reason.NotOrderOwner? || reason.AmendQuantityNotReduced?;
                case Replace(_, _, _, _, _, _, _) =>
                  ok := reason.InstrumentRule? || reason.DuplicateOrder? || reason.UnknownOrder? || reason.NotOrderOwner?
                        || IsExternalRiskRejection(reason);
                case Uncross(_, _, _, _, _, _, _, _, policy, _) =>
                  ok := reason.NoExecutableInterest? || (reason.SelfTradeRefused? && policy.selfTrade == Abort);
                case _ => ok := false;
              }
          }
        case Accepted =>
          if preflight != Allowed {
            return false;
          }
          ok := ApplyAccepted(entry.command, entry.report.events);
      }
    }
  }

  // ----- agreement with the engine

  lemma PreflightPricesAre(definition: InstrumentDefinition, band: AuctionPriceBand, reference: Price)
    requires definition.Valid()
    ensures PreflightPrices(definition, [band.minimum, band.maximum, reference]) ==
              match PriceRuleRejection(definition, band, reference) case None => Allowed case Some(reason) => Refused(reason)
  {
    hide InstrumentDefinition.Valid, InstrumentDefinition.ValidatePrice;
    assert [band.minimum, band.maximum, reference][1..] == [band.maximum, reference];
    assert [band.maximum, reference][1..] == [reference];
    assert [reference][1..] == [];
    assert PreflightPrices(definition, [reference]) == if definition.ValidatePrice(reference).Some? then Refused(InstrumentRule(definition.ValidatePrice(reference).value)) else Allowed;
  }

  /** The controller's verdict is the engine's own routing, phase and cycle decision. */
  lemma ControlAgrees(s: EngineState, command: CallAuctionCommand)
    requires s.book.definition.Valid() && command.PhaseControl? && PhaseOk(s.phase)
    ensures match PreflightControl(s.phase, command.expectedPhaseRevision, command.targetPhase, command.auctionId)
            case Allowed => DecidePhase(s.phase, command).Ok? && DecidePhase(s.phase, command).value.PhaseTransition?
            case Refused(reason) => DecidePhase(s.phase, command) == Ok(RejectedAction(reason))
            case OperationalFailure => DecidePhase(s.phase, command).Err?
  {
  }

  lemma EntriesAgree(s: EngineState, command: CallAuctionCommand)
    requires s.book.definition.Valid() && (command.Submit? || command.Amend? || command.Replace?)
    requires Route(s, command).None?
    ensures var decision := if command.Submit? then DecideSubmit(s, command) else if command.Amend? then DecideAmend(s, command) else DecideReplace(s, command);
            match Preflight(s.phase, command, s.book.definition)
            case Allowed => decision.Ok? && decision.value.RejectedAction? ==> BookMayReject(command, decision.value.reason)
            case Refused(reason) => decision == Ok(RejectedAction(reason))
            case OperationalFailure => false
  {
    hide InstrumentDefinition.Valid, Admission, Amendment, ReplacementOutcome;
  }

  lemma IndicativeAgrees(s: EngineState, command: CallAuctionCommand)
    requires s.book.Valid() && s.book.definition.Valid() && command.Indicative? && Route(s, command).None?
    ensures match Preflight(s.phase, command, s.book.definition)
            case Allowed => DecideIndicative(s, command).Ok? ==> DecideIndicative(s, command).value.IndicativeAction?
            case Refused(reason) => DecideIndicative(s, command) == Ok(RejectedAction(reason))
            case OperationalFailure => false
  {
    hide BookModel.Valid, InstrumentDefinition.Valid, PriceRuleRejection, PreflightPrices, BandError, Discovered;
    PreflightPricesAre(s.book.definition, command.priceBand, command.referencePrice);
  }

  lemma UncrossAgrees(s: EngineState, bookInstanceId: nat, leases: usize, command: CallAuctionCommand)
    requires s.book.Valid() && s.book.definition.Valid() && command.Uncross? && Route(s, command).None?
    ensures var decision := DecideUncross(s, bookInstanceId, leases, command);
            match Preflight(s.phase, command, s.book.definition)
            case Allowed => decision.Ok? && decision.value.RejectedAction? ==> BookMayReject(command, decision.value.reason)
            case Refused(reason) => decision == Ok(RejectedAction(reason))
            case OperationalFailure => false
  {
    hide BookModel.Valid, InstrumentDefinition.Valid, BandError, Discovered, DecideCrossing;
    DiscoveredClears(s, command.priceBand, command.referencePrice, command.pricePolicy);
    var best, decision := Discovered(s, command.priceBand, command.referencePrice, command.pricePolicy), DecideUncross(s, bookInstanceId, leases, command);
    if best.Some? && decision.Ok? && DecideCrossing(s, bookInstanceId, leases, command, best.value) == decision {
      CrossingDecision(s, bookInstanceId, leases, command, best.value, decision.value);
    }
  }

  lemma CancelsAgree(s: EngineState, command: CallAuctionCommand)
    requires s.book.Valid()
    ensures command.Cancel? && DecideCancel(s, command).Ok? && DecideCancel(s, command).value.RejectedAction? ==>
              BookMayReject(command, DecideCancel(s, command).value.reason)
    ensures command.MassCancel? && DecideMassCancel(s, command).Ok? ==> !DecideMassCancel(s, command).value.RejectedAction?
  {
    hide BookModel.Valid, Cancellation, MassCancellation.MassCancelOutcome;
  }

  /** The audit's verdict on a command before it is decided: a controller rejection is exactly the
      engine's own decision, an operational failure is an engine failure, and only the book may
      still reject an applicable command. */
  lemma PreflightAgrees(s: EngineState, bookInstanceId: nat, leases: usize, command: CallAuctionCommand)
    requires WellFormedEngine(s) && s.book.Valid() && s.book.definition.Valid()
    ensures var decision := Decide(s, bookInstanceId, leases, command);
            match Preflight(s.phase, command, s.book.definition)
            case Allowed => decision.Ok? && decision.value.RejectedAction? ==> BookMayReject(command, decision.value.reason)
            case Refused(reason) => decision == Ok(RejectedAction(reason))
            case OperationalFailure => decision.Err?
  {
    EngineFacts(s);
    hide WellFormedEngine, BookModel.Valid, InstrumentDefinition.Valid, DecidePhase, DecideSubmit, DecideCancel, DecideMassCancel, DecideAmend,
      DecideReplace, DecideIndicative, DecideUncross, PreflightControl, PreflightCycle, PreflightPrices, PhaseOk, IndicationOk;
    match Route(s, command) {
      case Some(reason) =>
      case None =>
        match command {
          case PhaseControl(_, _, _, _, _, _, _) => ControlAgrees(s, command);
          case Cancel(_, _, _, _, _, _) => CancelsAgree(s, command);
          case MassCancel(_, _, _, _, _, _) => CancelsAgree(s, command);
          case Indicative(_, _, _, _, _, _, _, _, _) => IndicativeAgrees(s, command);
          case Uncross(_, _, _, _, _, _, _, _, _, _) => UncrossAgrees(s, bookInstanceId, leases, command);
          case _ => EntriesAgree(s, command);
        }
    }
  }

  ghost function AuditOf(s: EngineState): Audit {
    Audit(s.phase, s.lastIndicative)
  }

  lemma AppliedPhase(s: EngineState, command: CallAuctionCommand, action: PreparedAction, events: seq<CallAuctionEvent>)
    requires command.PhaseControl? && action.PhaseTransition? && DecidePhase(s.phase, command) == Ok(action)
    requires |events| == 1 && events[0].kind == PhaseChanged(command.auctionId, action.source.phase, action.resulting.phase, action.resulting.revision)
    ensures Applied(AuditOf(s), command, events) == Some(Audit(PhaseAfter(s.phase, action), IndicativeAfter(s.lastIndicative, action)))
  {
  }

  lemma AppliedUncross(s: EngineState, command: CallAuctionCommand, action: PreparedAction, events: seq<CallAuctionEvent>)
    requires command.Uncross? && action.UncrossAction? && action.auctionId == command.auctionId
    requires s.phase.revision < U64_MAX && action.phaseRevision == s.phase.revision + 1
    requires events != [] && events[|events| - 1].kind.UncrossCompleted?
    requires events[|events| - 1].kind.uncrossedAuctionId == action.auctionId && events[|events| - 1].kind.phaseRevision == action.phaseRevision
    ensures Applied(AuditOf(s), command, events) == Some(Audit(PhaseAfter(s.phase, action), IndicativeAfter(s.lastIndicative, action)))
  {
  }

  lemma AppliedIndicative(s: EngineState, command: CallAuctionCommand, action: PreparedAction, events: seq<CallAuctionEvent>)
    requires command.Indicative? && action.IndicativeAction? && action.state.IsStructurallyValid()
    requires |events| == 1 && events[0].kind == IndicativePublished(action.state)
    ensures Applied(AuditOf(s), command, events) == Some(Audit(PhaseAfter(s.phase, action), IndicativeAfter(s.lastIndicative, action)))
  {
    hide CallAuctionIndicativeState.IsStructurallyValid;
  }

  lemma AppliedOther(s: EngineState, command: CallAuctionCommand, action: PreparedAction, events: seq<CallAuctionEvent>)
    requires !command.PhaseControl? && !command.Uncross? && !command.Indicative?
    requires !action.PhaseTransition? && !action.UncrossAction? && !action.IndicativeAction? && !action.RejectedAction?
    ensures Applied(AuditOf(s), command, events) == Some(Audit(PhaseAfter(s.phase, action), IndicativeAfter(s.lastIndicative, action)))
  {
  }

  /** The last event of an uncross is its completion. */
  lemma UncrossCloses(s: EngineState, command: CallAuctionCommand, action: PreparedAction, first: nat)
    requires Applicable(s.book, action) && MaximumEvents(action) <= U64_MAX && action.UncrossAction?
    requires first + |EventKinds(s, command, action)| <= U64_MAX + 1
    ensures var events, prepared := Stamped(EventKinds(s, command, action), command, first), action.prepared;
            && events != []
            && events[|events| - 1].kind == UncrossCompleted(action.auctionId, prepared.plan.clearing, prepared.policy, |prepared.trades|,
                                                             |prepared.cancellations|, prepared.nextStateRevision, action.phaseRevision)
  {
    hide Applicable;
  }

  /** An accepted action's report moves the audit as it moves the engine. */
  lemma AcceptedIsApplied(s: EngineState, command: CallAuctionCommand, action: PreparedAction)
    requires WellFormedEngine(s) && s.book.Valid() && s.book.definition.Valid() && ActionFits(s, command, action) && Committable(s, command, action) && !action.RejectedAction?
    ensures Applicable(s.book, action) && HasRoom(s, action) && |EventKinds(s, command, action)| <= MaximumEvents(action)
    ensures Applied(AuditOf(s), command, ReportOf(s, command, action).events) ==
              Some(Audit(PhaseAfter(s.phase, action), IndicativeAfter(s.lastIndicative, action)))
  {
    EngineFacts(s);
    CommittableFacts(s, command, action);
    CommittedIs(s, command, action);
    hide WellFormedEngine, BookModel.Valid, InstrumentDefinition.Valid, DecidePhase, Applied, Applicable, PhaseAfter, IndicativeAfter, SoundAction, UncrossFits,
      UncrossKinds, MassCancelKinds, AuditOf, Committed, MassCancellation.MassCancelOutcome, Discovered, IndicationOk, PhaseOk, BookAfter;
    var events := ReportOf(s, command, action).events;
    match action {
      case PhaseTransition(_, _) => AppliedPhase(s, command, action, events);
      case UncrossAction(_, _, _) =>
        UncrossCloses(s, command, action, s.nextEventSequence);
        AppliedUncross(s, command, action, events);
      case IndicativeAction(_) =>
        CommittedIndication(s, command, action);
        AppliedIndicative(s, command, action, events);
      case _ => AppliedOther(s, command, action, events);
    }
  }

  lemma CommittedIndication(s: EngineState, command: CallAuctionCommand, action: PreparedAction)
    requires Committable(s, command, action) && action.IndicativeAction?
    ensures s.book.definition.Valid() && action.state.IsValidFor(s.book.definition)
  {
    hide InstrumentDefinition.Valid, BookModel.Valid, Applicable, EventKinds, BookAfter;
  }

  /** The audit accepts the report of every step, and follows the engine. */
  lemma StepIsObserved(s: EngineState, input: Input)
    requires WellFormedEngine(s) && StepAction(s, input).Some?
    ensures s.book.definition.Valid()
    ensures var n := Step(s, input).0;
            && n.history != [] && n.history == s.history + [n.history[|n.history| - 1]]
            && Observed(AuditOf(s), n.history[|n.history| - 1], s.book.definition) == Some(AuditOf(n))
            && n.book.definition == s.book.definition
  {
    hide *;
    EngineFacts(s);
    StepIs(s, input);
    StepFits(s, input);
    var action := StepAction(s, input).value;
    CommittedIs(s, input.command, action);
    CommittableFacts(s, input.command, action);
    var decided :| Decide(s, input.bookInstanceId, input.leases, input.command) == Ok(decided) && CapacityError(s, decided).None?
                   && action == Gated(decided, input.external) && GateAllows(input.command, input.external);
    PreflightAgrees(s, input.bookInstanceId, input.leases, input.command);
    GatedIs(decided, input.external);
    GateReason(input.command, input.external);
    var report := ReportOf(s, input.command, action);
    if action.RejectedAction? {
      RejectionIsObserved(s, CallAuctionHistoryEntry(input.command, report), decided, action.reason);
      RejectedLeaves(s, action);
    } else {
      AcceptedIsApplied(s, input.command, action);
      AcceptanceIsObserved(s, CallAuctionHistoryEntry(input.command, report), action);
      AuditIs(Step(s, input).0);
    }
    assert Step(s, input).0.history[|s.history|] == CallAuctionHistoryEntry(input.command, report);
  }

  lemma GateReason(command: CallAuctionCommand, external: Option<CallAuctionRejectReason>)
    requires GateAllows(command, external)
    ensures external.Some? ==> BookMayReject(command, external.value)
  {
  }

  lemma AuditIs(s: EngineState)
    ensures AuditOf(s) == Audit(s.phase, s.lastIndicative)
  {
  }

  lemma RejectedLeaves(s: EngineState, action: PreparedAction)
    requires action.RejectedAction?
    ensures forall n: EngineState {:trigger AuditOf(n)} ::
              n.phase == PhaseAfter(s.phase, action) && n.lastIndicative == IndicativeAfter(s.lastIndicative, action) ==> AuditOf(n) == AuditOf(s)
  {
  }

  lemma RejectionIsObserved(s: EngineState, entry: CallAuctionHistoryEntry, decided: PreparedAction, reason: CallAuctionRejectReason)
    requires s.book.definition.Valid() && entry.report.outcome == OutcomeOf(RejectedAction(reason))
    requires match Preflight(s.phase, entry.command, s.book.definition)
             case Allowed => decided.RejectedAction? ==> BookMayReject(entry.command, decided.reason)
             case Refused(refusal) => decided == RejectedAction(refusal)
             case OperationalFailure => false
    requires decided == RejectedAction(reason) || (!decided.RejectedAction? && BookMayReject(entry.command, reason))
    ensures Observed(AuditOf(s), entry, s.book.definition) == Some(AuditOf(s))
  {
    hide InstrumentDefinition.Valid, Preflight, BookMayReject;
  }

  lemma AcceptanceIsObserved(s: EngineState, entry: CallAuctionHistoryEntry, action: PreparedAction)
    requires s.book.definition.Valid() && entry.report.outcome == OutcomeOf(action) && !action.RejectedAction?
    requires match Preflight(s.phase, entry.command, s.book.definition)
             case Allowed => true
             case Refused(refusal) => action == RejectedAction(refusal)
             case OperationalFailure => false
    ensures Observed(AuditOf(s), entry, s.book.definition) == Applied(AuditOf(s), entry.command, entry.report.events)
  {
    hide InstrumentDefinition.Valid, Preflight, Applied;
  }

  lemma AuditedAppend(history: seq<CallAuctionHistoryEntry>, entry: CallAuctionHistoryEntry, definition: InstrumentDefinition, audit: Audit)
    requires definition.Valid() && Audited(history, definition) == Some(audit)
    ensures Audited(history + [entry], definition) == Observed(audit, entry, definition)
  {
    hide InstrumentDefinition.Valid, Observed;
    assert (history + [entry])[..|history + [entry]| - 1] == history;
  }

  /** On every run the audit accepts the whole history and ends in the engine's own phase,
      revision, cycle identities and last indication. */
  lemma {:induction false} EveryRunPassesTheAudit(definition: InstrumentDefinition, limits: CallAuctionEngineLimits, inputs: seq<Input>)
    requires definition.Valid() && limits.Valid()
    ensures var s := Run(Genesis(definition, limits), inputs);
            s.book.definition == definition && Audited(s.history, definition) == Some(Audit(s.phase, s.lastIndicative))
  {
    var genesis := Genesis(definition, limits);
    if inputs == [] {
      hide InstrumentDefinition.Valid, CallAuctionEngineLimits.Valid, Step, WellFormedEngine;
    } else {
      var last := |inputs| - 1;
      EveryRunPassesTheAudit(definition, limits, inputs[..last]);
      hide *;
      var s := Run(genesis, inputs[..last]);
      RunStep(genesis, inputs);
      StepIs(s, inputs[last]);
      if StepAction(s, inputs[last]).Some? {
        StepIsObserved(s, inputs[last]);
        var n := Step(s, inputs[last]).0;
        AuditIs(s);
        AuditIs(n);
        AuditedAppend(s.history, n.history[|n.history| - 1], definition, AuditOf(s));
      }
    }
  }

  lemma RunStep(s: EngineState, inputs: seq<Input>)
    requires WellFormedEngine(s) && inputs != []
    ensures Run(s, inputs) == Step(Run(s, inputs[..|inputs| - 1]), inputs[|inputs| - 1]).0
  {
    hide WellFormedEngine, Step;
  }

  /** Replays a whole history. */
  method ReplayHistory(history: seq<CallAuctionHistoryEntry>, definition: InstrumentDefinition) returns (r: Option<Audit>)
    requires definition.Valid()
    ensures r == Audited(history, definition)
  {
    hide InstrumentDefinition.Valid, Observed;
    var audit := new CallAuctionPhaseAudit();
    for k := 0 to |history|
      invariant Audited(history[..k], definition) == Some(audit.State()) && fresh(audit)
    {
      AuditedAppend(history[..k], history[k], definition, audit.State());
      assert history[..k] + [history[k]] == history[..k + 1];
      var ok := audit.Observe(history[k], definition);
      if !ok {
        AuditStops(history, definition, k + 1);
        return None;
      }
    }
    assert history[..|history|] == history;
    r := Some(audit.State());
  }

  lemma {:induction false} AuditStops(history: seq<CallAuctionHistoryEntry>, definition: InstrumentDefinition, k: nat)
    requires definition.Valid() && k <= |history| && Audited(history[..k], definition).None?
    ensures Audited(history, definition).None?
    decreases |history| - k
  {
    hide InstrumentDefinition.Valid, Observed;
    if k == |history| {
      assert history[..k] == history;
    } else {
      assert history[..k + 1][..k] == history[..k];
      AuditStops(history, definition, k + 1);
    }
  }
}
