/** Laws of whole engine runs: gap-free sequencing, write-once history, idempotent retries, and
    capacity lanes that never starve terminal commands. */
module EngineRuns {
  import opened AbstractBook
  import opened Domain
  import opened EngineLaws
  import opened EngineModel
  import opened EngineTypes

  /** One command offered to the engine, with what the environment contributes: the external
      gate's verdict and the book's instance and free leases at that moment. */
  datatype Input = Input(command: CallAuctionCommand, external: Option<CallAuctionRejectReason>, bookInstanceId: nat, leases: usize)

  type Answer = Result<CallAuctionExecutionReport, CallAuctionEngineError>

  lemma DecisionIsSound(s: EngineState, bookInstanceId: nat, leases: usize, command: CallAuctionCommand, action: PreparedAction)
    requires WellFormedEngine(s) && Decide(s, bookInstanceId, leases, command) == Ok(action)
    ensures SoundAction(s, command, action)
    ensures s.book.definition.Valid() && s.limits.Valid()
  {
    EngineFacts(s);
    hide WellFormedEngine, SoundAction, BookModel.Valid, InstrumentDefinition.Valid, DecidePhase, DecideSubmit, DecideCancel, DecideMassCancel,
      DecideAmend, DecideReplace, DecideIndicative, DecideUncross;
    match Route(s, command) {
      case Some(reason) => RejectionIsSound(s, command, reason);
      case None =>
        match command {
          case PhaseControl(_, _, _, _, _, _, _) => PhaseDecisionIsSound(s, command, action);
          case Submit(_, _, _, _, _) => SubmitDecisionIsSound(s, command, action);
          case Cancel(_, _, _, _, _, _) => CancelDecisionIsSound(s, command, action);
          case MassCancel(_, _, _, _, _, _) => MassCancelDecisionIsSound(s, command, action);
          case Amend(_, _, _, _, _, _, _, _, _) => AmendDecisionIsSound(s, command, action);
          case Replace(_, _, _, _, _, _, _) => ReplaceDecisionIsSound(s, command, action);
          case Indicative(_, _, _, _, _, _, _, _, _) => IndicativeDecisionIsSound(s, command, action);
          case Uncross(_, _, _, _, _, _, _, _, _, _) => UncrossDecisionIsSound(s, bookInstanceId, leases, command, action);
        }
    }
  }

  lemma GatedIsSound(s: EngineState, command: CallAuctionCommand, action: PreparedAction, external: Option<CallAuctionRejectReason>)
    requires WellFormedEngine(s) && SoundAction(s, command, action)
    ensures SoundAction(s, command, Gated(action, external)) && 1 <= MaximumEvents(Gated(action, external)) <= MaximumEvents(action)
  {
    hide SoundAction, WellFormedEngine;
    if external.Some? {
      RejectionIsSound(s, command, external.value);
    }
  }

  /** An action ready to commit: sound, and with room for its report. */
  ghost predicate Committable(s: EngineState, command: CallAuctionCommand, action: PreparedAction) {
    && s.book.definition.Valid() && SoundAction(s, command, action) && HasRoom(s, action)
  }

  lemma CommittableFacts(s: EngineState, command: CallAuctionCommand, action: PreparedAction)
    requires Committable(s, command, action)
    ensures Applicable(s.book, action) && HasRoom(s, action) && |EventKinds(s, command, action)| == MaximumEvents(action)
    ensures BookAfter(s.book, action).Valid() && BookAfter(s.book, action).limits == s.book.limits
    ensures BookAfter(s.book, action).definition == s.book.definition
  {
    hide BookModel.Valid, EventKinds, BookAfter, Applicable;
  }

  /** Preparation hands out only committable actions, gated or not. */
  lemma ReadyIsCommittable(s: EngineState, input: Input, action: PreparedAction)
    requires WellFormedEngine(s) && s.book.Valid() && s.limits.Valid()
    requires Prepare(s, input.bookInstanceId, input.leases, input.command) == Ok(Ready(action))
    ensures Committable(s, input.command, Gated(action, input.external)) && Committable(s, input.command, action)
    ensures Retained(s.history, input.command.commandId).None? && CapacityError(s, action).None?
    ensures Decide(s, input.bookInstanceId, input.leases, input.command) == Ok(action)
    ensures 1 <= MaximumEvents(Gated(action, input.external)) <= MaximumEvents(action)
  {
    hide WellFormedEngine, SoundAction, BookModel.Valid, Decide, Retained, Gated, CallAuctionEngineLimits.Valid;
    DecisionIsSound(s, input.bookInstanceId, input.leases, input.command, action);
    GatedIsSound(s, input.command, action, input.external);
    GatedIsSound(s, input.command, action, None);
    hide MaximumEvents;
  }

  /** What committing changes, field by field. */
  lemma CommittedIs(s: EngineState, command: CallAuctionCommand, action: PreparedAction)
    requires Committable(s, command, action)
    ensures Applicable(s.book, action) && HasRoom(s, action) && |EventKinds(s, command, action)| <= MaximumEvents(action)
    ensures var n, report := Committed(s, command, action), ReportOf(s, command, action);
            && n.limits == s.limits && n.book == BookAfter(s.book, action) && n.phase == PhaseAfter(s.phase, action)
            && n.lastIndicative == IndicativeAfter(s.lastIndicative, action)
            && n.nextCommandSequence == s.nextCommandSequence + 1 && n.nextEventSequence == s.nextEventSequence + |report.events|
            && n.history == s.history + [CallAuctionHistoryEntry(command, report)] && n.events == s.events + report.events
            && |report.events| == MaximumEvents(action) && report.commandId == command.commandId
            && report.commandSequence == s.nextCommandSequence && report.outcome == OutcomeOf(action) && !report.replayed
            && report.events == Stamped(EventKinds(s, command, action), command, s.nextEventSequence)
  {
    CommittableFacts(s, command, action);
    hide BookModel.Valid, EventKinds, BookAfter, Applicable, SoundAction, MaximumEvents, Stamped;
  }

  lemma CommitKeepsWellFormed(s: EngineState, command: CallAuctionCommand, action: PreparedAction)
    requires WellFormedEngine(s) && Committable(s, command, action)
    ensures Applicable(s.book, action) && HasRoom(s, action) && |EventKinds(s, command, action)| <= MaximumEvents(action)
    ensures WellFormedEngine(Committed(s, command, action))
  {
    hide BookModel.Valid, EventKinds, BookAfter, Applicable, HasRoom, Stamped, InstrumentDefinition.Valid, CallAuctionEngineLimits.Valid, Committed, ReportOf, PhaseOk;
    CommittedIs(s, command, action);
    CommittableFacts(s, command, action);
    IndicationAfterCommit(s, command, action);
    hide IndicationOk;
  }

  lemma IndicationAfterCommit(s: EngineState, command: CallAuctionCommand, action: PreparedAction)
    requires WellFormedEngine(s) && Committable(s, command, action)
    ensures Applicable(s.book, action) && HasRoom(s, action) && |EventKinds(s, command, action)| <= MaximumEvents(action)
    ensures Committed(s, command, action).book.definition.Valid() && IndicationOk(Committed(s, command, action))
  {
    hide BookModel.Valid, EventKinds, HasRoom, Stamped, InstrumentDefinition.Valid, CallAuctionEngineLimits.Valid, Committed, ReportOf, PhaseOk,
      CallAuctionIndicativeState.IsValidFor;
    CommittedIs(s, command, action);
    CommittableFacts(s, command, action);
  }

  /** One command prepared and committed. */
  ghost function Step(s: EngineState, input: Input): (r: (EngineState, Answer))
    requires WellFormedEngine(s)
    ensures WellFormedEngine(r.0)
  {
    EngineFacts(s);
    match Prepare(s, input.bookInstanceId, input.leases, input.command)
    case Err(error) => (s, Err(error))
    case Ok(Replay(report)) => (s, Ok(report))
    case Ok(Ready(action)) =>
      if !GateAllows(input.command, input.external) then (s, Err(EngineInvariantViolation))
      else
        ReadyIsCommittable(s, input, action);
        CommitKeepsWellFormed(s, input.command, Gated(action, input.external));
        (Committed(s, input.command, Gated(action, input.external)), Ok(ReportOf(s, input.command, Gated(action, input.external))))
  }

  /** The action a step commits, if it commits one. */
  ghost function StepAction(s: EngineState, input: Input): (r: Option<PreparedAction>)
    requires WellFormedEngine(s)
  {
    EngineFacts(s);
    match Prepare(s, input.bookInstanceId, input.leases, input.command)
    case Ok(Ready(action)) => if GateAllows(input.command, input.external) then Some(Gated(action, input.external)) else None
    case _ => None
  }

  /** A step either leaves the state alone or commits its action. */
  lemma StepIs(s: EngineState, input: Input)
    requires WellFormedEngine(s)
    ensures s.book.Valid() && s.limits.Valid()
    ensures StepAction(s, input).None? ==> Step(s, input).0 == s
    ensures StepAction(s, input).Some? ==>
              var action := StepAction(s, input).value;
              && Committable(s, input.command, action) && Step(s, input) == (Committed(s, input.command, action), Ok(ReportOf(s, input.command, action)))
              && Retained(s.history, input.command.commandId).None?
              && exists decided :: && Decide(s, input.bookInstanceId, input.leases, input.command) == Ok(decided) && CapacityError(s, decided).None?
                                   && action == Gated(decided, input.external) && GateAllows(input.command, input.external)
  {
    EngineFacts(s);
    hide WellFormedEngine, SoundAction, BookModel.Valid, Decide, Retained, Gated, GateAllows, CallAuctionEngineLimits.Valid, CapacityError, Committed, ReportOf,
      Prepare, HasRoom, Committable;
    match Prepare(s, input.bookInstanceId, input.leases, input.command) {
      case Ok(Ready(action)) =>
        ReadyIsCommittable(s, input, action);
      case _ =>
    }
  }

  ghost function Run(s: EngineState, inputs: seq<Input>): (r: EngineState)
    requires WellFormedEngine(s)
    ensures WellFormedEngine(r)
  {
    if inputs == [] then s else Step(Run(s, inputs[..|inputs| - 1]), inputs[|inputs| - 1]).0
  }

}
