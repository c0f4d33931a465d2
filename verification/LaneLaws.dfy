/** The protected lanes in terms of commands: which commands may use the reserved tail of the history,
    that they always find it, and that nothing else may. */
module LaneLaws {
  import opened AbstractBook
  import opened Domain
  import opened EngineLaws
  import opened EngineModel
  import opened EngineRuns
  import opened EngineTypes
  import opened MassCancellation
  import opened RunLaws

  /** The command takes the engine closer to an empty, closed auction: it cancels an order or a whole
      selection, freezes or closes the cycle, or uncrosses. */
  ghost predicate WindsDownBy(s: EngineState, command: CallAuctionCommand, action: PreparedAction) {
    match command
    case Cancel(_, _, _, _, _, _) => action.CancelAction?
    case MassCancel(_, _, _, account, scope, _) => action.MassCancelAction? && Selected(s.book, account, scope) != {}
    case PhaseControl(_, _, _, _, _, target, _) => action.PhaseTransition? && target != Collecting
    case Uncross(_, _, _, _, _, _, _, _, _, _) => action.UncrossAction?
    case _ => false
  }

  lemma RoutedOrRejected(s: EngineState, input: Input, action: PreparedAction)
    requires s.book.Valid() && s.book.definition.Valid() && Decide(s, input.bookInstanceId, input.leases, input.command) == Ok(action)
    ensures action.RejectedAction? ||
            match input.command
            case PhaseControl(_, _, _, _, _, _, _) => DecidePhase(s.phase, input.command) == Ok(action)
            case Submit(_, _, _, _, _) => DecideSubmit(s, input.command) == Ok(action)
            case Cancel(_, _, _, _, _, _) => DecideCancel(s, input.command) == Ok(action)
            case MassCancel(_, _, _, _, _, _) => DecideMassCancel(s, input.command) == Ok(action)
            case Amend(_, _, _, _, _, _, _, _, _) => DecideAmend(s, input.command) == Ok(action)
            case Replace(_, _, _, _, _, _, _) => DecideReplace(s, input.command) == Ok(action)
            case Indicative(_, _, _, _, _, _, _, _, _) => DecideIndicative(s, input.command) == Ok(action)
            case Uncross(_, _, _, _, _, _, _, _, _, _) => DecideUncross(s, input.bookInstanceId, input.leases, input.command) == Ok(action)
  {
    hide BookModel.Valid, InstrumentDefinition.Valid, DecidePhase, DecideSubmit, DecideCancel, DecideMassCancel, DecideAmend, DecideReplace,
      DecideIndicative, DecideUncross;
  }

  lemma RejectionsAreOrdinary(s: EngineState, command: CallAuctionCommand, action: PreparedAction)
    requires action.RejectedAction?
    ensures !IsTerminal(action) && !WindsDownBy(s, command, action)
  {
  }

  lemma OthersAreOrdinary(s: EngineState, command: CallAuctionCommand, action: PreparedAction)
    requires command.Submit? || command.Amend? || command.Replace? || command.Indicative?
    ensures !WindsDownBy(s, command, action)
  {
  }

  lemma PhasesWind(s: EngineState, command: CallAuctionCommand, action: PreparedAction)
    requires command.PhaseControl? && DecidePhase(s.phase, command) == Ok(action)
    ensures IsTerminal(action) <==> WindsDownBy(s, command, action)
  {
  }

  lemma CancelsWind(s: EngineState, command: CallAuctionCommand, action: PreparedAction)
    requires command.Cancel? && DecideCancel(s, command) == Ok(action)
    ensures IsTerminal(action) <==> WindsDownBy(s, command, action)
  {
  }

  lemma MassCancelsWind(s: EngineState, command: CallAuctionCommand, action: PreparedAction)
    requires s.book.Valid() && command.MassCancel? && DecideMassCancel(s, command) == Ok(action)
    ensures IsTerminal(action) <==> WindsDownBy(s, command, action)
  {
    MassCancelDecision(s, command, action);
    MassCancelOutcomeIs(s.book, command.accountId, command.scope);
    hide BookModel.Valid, DecideMassCancel, MassCancelOutcome, Selected;
  }

  lemma UncrossIsWinding(s: EngineState, command: CallAuctionCommand, action: PreparedAction)
    requires command.Uncross? && (action.RejectedAction? || action.UncrossAction?)
    ensures IsTerminal(action) <==> WindsDownBy(s, command, action)
  {
  }

  lemma UncrossesWind(s: EngineState, input: Input, action: PreparedAction)
    requires s.book.Valid() && s.book.definition.Valid() && input.command.Uncross?
    requires DecideUncross(s, input.bookInstanceId, input.leases, input.command) == Ok(action)
    ensures IsTerminal(action) <==> WindsDownBy(s, input.command, action)
  {
    hide *;
    UncrossDecision(s, input.bookInstanceId, input.leases, input.command, action);
    UncrossIsWinding(s, input.command, action);
  }

  /** The reserved tail is for exactly the commands that wind the engine down. */
  lemma ReserveIsForWindingDown(s: EngineState, input: Input, action: PreparedAction)
    requires WellFormedEngine(s) && s.book.Valid() && Decide(s, input.bookInstanceId, input.leases, input.command) == Ok(action)
    ensures IsTerminal(action) <==> WindsDownBy(s, input.command, action)
  {
    hide *;
    EngineFacts(s);
    RoutedOrRejected(s, input, action);
    var command := input.command;
    if action.RejectedAction? {
      RejectionsAreOrdinary(s, command, action);
    } else {
      match command {
        case Submit(_, _, _, _, _) => EntriesAreOrdinary(s, command, action); OthersAreOrdinary(s, command, action);
        case Amend(_, _, _, _, _, _, _, _, _) => EntriesAreOrdinary(s, command, action); OthersAreOrdinary(s, command, action);
        case Replace(_, _, _, _, _, _, _) => EntriesAreOrdinary(s, command, action); OthersAreOrdinary(s, command, action);
        case Indicative(_, _, _, _, _, _, _, _, _) => PublicationsAreOrdinary(s, command, action); OthersAreOrdinary(s, command, action);
        case PhaseControl(_, _, _, _, _, _, _) => PhasesWind(s, command, action);
        case Cancel(_, _, _, _, _, _) => CancelsWind(s, command, action);
        case MassCancel(_, _, _, _, _, _) => MassCancelsWind(s, command, action);
        case Uncross(_, _, _, _, _, _, _, _, _, _) => UncrossesWind(s, input, action);
      }
    }
  }

  /** A command that winds the engine down, as the engine decides it. */
  ghost predicate IsWindingInput(s: EngineState, input: Input)
    requires s.book.Valid()
  {
    && Decide(s, input.bookInstanceId, input.leases, input.command).Ok?
    && WindsDownBy(s, input.command, Decide(s, input.bookInstanceId, input.leases, input.command).value)
  }

  lemma WindingInputIs(s: EngineState, input: Input)
    requires WellFormedEngine(s) && s.book.Valid() && IsWindingInput(s, input)
    ensures var decided := Decide(s, input.bookInstanceId, input.leases, input.command); decided.Ok? && IsTerminal(decided.value)
  {
    ReserveIsForWindingDown(s, input, Decide(s, input.bookInstanceId, input.leases, input.command).value);
  }

  lemma PreparesUnlessFull(s: EngineState, input: Input, action: PreparedAction)
    requires s.book.Valid() && s.limits.Valid() && Decide(s, input.bookInstanceId, input.leases, input.command) == Ok(action)
    ensures var r := Prepare(s, input.bookInstanceId, input.leases, input.command);
            || r.Ok? || r == Err(CommandIdCollision(input.command.commandId)) || (CapacityError(s, action).Some? && r == Err(CapacityError(s, action).value))
  {
    hide BookModel.Valid, CallAuctionEngineLimits.Valid, Decide, CapacityError, Retained;
  }

  /** On every run, under every policy, a command that winds the engine down is never refused for want of
      command slots. */
  lemma WindingCommandsFindSlots(definition: InstrumentDefinition, limits: CallAuctionEngineLimits, inputs: seq<Input>, input: Input)
    requires definition.Valid() && limits.Valid()
    requires var s := Run(Genesis(definition, limits), inputs); s.book.Valid() && s.limits.Valid() && IsWindingInput(s, input)
    ensures var s := Run(Genesis(definition, limits), inputs);
            && Prepare(s, input.bookInstanceId, input.leases, input.command) != Err(CapacityExhausted(CommandHistory))
            && Prepare(s, input.bookInstanceId, input.leases, input.command) != Err(CapacityExhausted(AdmissionCommandHistory))
  {
    hide *;
    var s := Run(Genesis(definition, limits), inputs);
    WindingInputIs(s, input);
    var action := Decide(s, input.bookInstanceId, input.leases, input.command).value;
    TerminalCommandsNeverStarve(definition, limits, inputs, input, action);
    PreparesUnlessFull(s, input, action);
  }

  /** When the uncrosses are affordable, such a command is prepared unless its identity is taken or a
      64-bit sequence is used up: neither slots, nor events, nor report size refuse it. */
  lemma WindingCommandsFindEvents(definition: InstrumentDefinition, limits: CallAuctionEngineLimits, inputs: seq<Input>, input: Input)
    requires definition.Valid() && limits.Valid()
    requires Affordable(limits, input) && forall i :: 0 <= i < |inputs| ==> Affordable(limits, inputs[i])
    requires var s := Run(Genesis(definition, limits), inputs); s.book.Valid() && s.limits.Valid() && IsWindingInput(s, input)
    ensures var s := Run(Genesis(definition, limits), inputs);
            var r := Prepare(s, input.bookInstanceId, input.leases, input.command);
            r.Ok? || r == Err(CommandIdCollision(input.command.commandId)) || r == Err(SequenceExhausted)
  {
    hide *;
    var s := Run(Genesis(definition, limits), inputs);
    WindingInputIs(s, input);
    var action := Decide(s, input.bookInstanceId, input.leases, input.command).value;
    TerminalEventsNeverStarve(definition, limits, inputs, input, action);
    PreparesUnlessFull(s, input, action);
  }

  lemma PreparesFresh(s: EngineState, input: Input, action: PreparedAction)
    requires s.book.Valid() && s.limits.Valid() && Retained(s.history, input.command.commandId).None?
    requires Decide(s, input.bookInstanceId, input.leases, input.command) == Ok(action)
    ensures Prepare(s, input.bookInstanceId, input.leases, input.command) ==
              if CapacityError(s, action).Some? then Err(CapacityError(s, action).value) else Ok(Ready(action))
  {
    hide BookModel.Valid, CallAuctionEngineLimits.Valid, Decide, CapacityError, Retained;
  }

  lemma OrdinaryHasRoom(s: EngineState, action: PreparedAction)
    requires s.limits.Valid() && !IsTerminal(action)
    ensures CapacityError(s, action).None? ==>
              && |s.history| < s.limits.retainedCommands - s.limits.terminalCommandReserve
              && |s.events| + MaximumEvents(action) <= s.limits.retainedEvents - s.limits.terminalEventReserve
    ensures s.limits.retainedCommands - s.limits.terminalCommandReserve <= |s.history| < s.limits.retainedCommands ==>
              CapacityError(s, action) == Some(CapacityExhausted(AdmissionCommandHistory))
  {
    hide IsTerminal, MaximumEvents;
  }

  /** Everything else is refused once the ordinary slots are used up, or once its events would not fit
      the ordinary part of the history. */
  lemma OthersKeepToTheOrdinaryPart(s: EngineState, input: Input, action: PreparedAction)
    requires WellFormedEngine(s) && s.book.Valid() && s.limits.Valid() && Retained(s.history, input.command.commandId).None?
    requires Decide(s, input.bookInstanceId, input.leases, input.command) == Ok(action) && !WindsDownBy(s, input.command, action)
    ensures Prepare(s, input.bookInstanceId, input.leases, input.command).Ok? ==>
              && |s.history| < s.limits.retainedCommands - s.limits.terminalCommandReserve
              && |s.events| + MaximumEvents(action) <= s.limits.retainedEvents - s.limits.terminalEventReserve
    ensures s.limits.retainedCommands - s.limits.terminalCommandReserve <= |s.history| < s.limits.retainedCommands ==>
              Prepare(s, input.bookInstanceId, input.leases, input.command) == Err(CapacityExhausted(AdmissionCommandHistory))
  {
    hide *;
    ReserveIsForWindingDown(s, input, action);
    PreparesFresh(s, input, action);
    OrdinaryHasRoom(s, action);
  }
}
