/** Laws of whole engine runs: gap-free sequencing, write-once history, idempotent retries, and
    protected capacity that terminal commands can always use. */
module RunLaws {
  import opened AbstractBook
  import opened Allocation
  import opened Clearing
  import opened Domain
  import opened EngineLaws
  import opened EngineModel
  import opened EngineRuns
  import opened EngineTypes
  import opened MassCancellation
  import opened Uncross
  import opened UncrossLaws

  type History = seq<CallAuctionHistoryEntry>

  // ----- sequencing

  /** Where the events of report `i` begin in the retained event sequence. */
  ghost function Start(history: History, i: nat): nat
    requires i <= |history|
  {
    if i == 0 then 0 else Start(history, i - 1) + |history[i - 1].report.events|
  }

  /** A report numbered and bound to its command, whose events are numbered from `first + 1`. */
  ghost predicate Bound(entry: CallAuctionHistoryEntry, index: nat, first: nat) {
    && entry.report.commandSequence == index + 1 && entry.report.commandId == entry.command.commandId
    && !entry.report.replayed && |entry.report.events| >= 1
    && forall k {:trigger entry.report.events[k]} :: 0 <= k < |entry.report.events| ==>
         && entry.report.events[k].sequence == first + k + 1 && entry.report.events[k].commandId == entry.command.commandId
         && entry.report.events[k].occurredAt == entry.command.receivedAt
  }

  /** The history accounts for the whole event sequence, report by report, under distinct identities. */
  ghost predicate Chronicle(history: History, events: seq<CallAuctionEvent>) {
    if history == [] then events == []
    else
      var last := history[|history| - 1];
      var first := |events| - |last.report.events|;
      && 0 <= first && events[first..] == last.report.events && Bound(last, |history| - 1, first)
      && Retained(history[..|history| - 1], last.command.commandId).None?
      && Chronicle(history[..|history| - 1], events[..first])
  }

  lemma ChronicleGrows(history: History, events: seq<CallAuctionEvent>, entry: CallAuctionHistoryEntry)
    requires Chronicle(history, events) && Bound(entry, |history|, |events|) && Retained(history, entry.command.commandId).None?
    ensures Chronicle(history + [entry], events + entry.report.events)
  {
    hide Bound, Retained;
    var h, e := history + [entry], events + entry.report.events;
    assert h[..|h| - 1] == history && h[|h| - 1] == entry;
    assert e[|events|..] == entry.report.events && e[..|events|] == events;
  }

  lemma StampedIsBound(kinds: seq<CallAuctionEventKind>, command: CallAuctionCommand, index: nat, first: nat, outcome: CallAuctionCommandOutcome)
    requires 1 <= |kinds| && first + 1 + |kinds| <= U64_MAX + 1 && index < U64_MAX
    ensures Bound(CallAuctionHistoryEntry(command, CallAuctionExecutionReport(command.commandId, index + 1, outcome, Stamped(kinds, command, first + 1), false)),
                  index, first)
  {
  }

  lemma StepKeepsChronicle(s: EngineState, input: Input)
    requires WellFormedEngine(s) && Chronicle(s.history, s.events)
    ensures Chronicle(Step(s, input).0.history, Step(s, input).0.events)
  {
    hide *;
    EngineFacts(s);
    StepIs(s, input);
    if StepAction(s, input).Some? {
      var action := StepAction(s, input).value;
      CommittedIs(s, input.command, action);
      CommittableFacts(s, input.command, action);
      StepEmits(s, input);
      RoomFacts(s, action);
      var report := ReportOf(s, input.command, action);
      StampedIsBound(EventKinds(s, input.command, action), input.command, |s.history|, |s.events|, OutcomeOf(action));
      assert report == CallAuctionExecutionReport(input.command.commandId, |s.history| + 1, OutcomeOf(action),
        Stamped(EventKinds(s, input.command, action), input.command, |s.events| + 1), false);
      ChronicleGrows(s.history, s.events, CallAuctionHistoryEntry(input.command, report));
    }
  }

  lemma RoomFacts(s: EngineState, action: PreparedAction)
    requires HasRoom(s, action)
    ensures s.nextCommandSequence < U64_MAX && s.nextEventSequence + MaximumEvents(action) <= U64_MAX
  {
  }

  /** A committed action emits at least one event. */
  lemma StepEmits(s: EngineState, input: Input)
    requires WellFormedEngine(s) && StepAction(s, input).Some?
    ensures MaximumEvents(StepAction(s, input).value) >= 1
  {
    hide MaximumEvents, BookModel.Valid, Decide, Retained, CapacityError, SoundAction;
    EngineFacts(s);
    match Prepare(s, input.bookInstanceId, input.leases, input.command) {
      case Ok(Ready(action)) => ReadyIsCommittable(s, input, action);
      case _ =>
    }
  }

  lemma {:induction false} RunKeepsChronicle(s: EngineState, inputs: seq<Input>)
    requires WellFormedEngine(s) && Chronicle(s.history, s.events)
    ensures Chronicle(Run(s, inputs).history, Run(s, inputs).events)
  {
    hide WellFormedEngine, Chronicle, Step;
    if inputs != [] {
      RunKeepsChronicle(s, inputs[..|inputs| - 1]);
      StepKeepsChronicle(Run(s, inputs[..|inputs| - 1]), inputs[|inputs| - 1]);
    }
  }

  lemma {:induction false} StartOfPrefix(history: History, n: nat, i: nat)
    requires i <= n <= |history|
    ensures Start(history[..n], i) == Start(history, i)
  {
    if i > 0 { StartOfPrefix(history, n, i - 1); }
  }

  /** A chronicle, read forwards: report `i` owns its range, and its identity leads back to it. */
  lemma {:induction false} ChronicleAt(history: History, events: seq<CallAuctionEvent>, i: nat)
    requires Chronicle(history, events) && i <= |history|
    ensures Start(history, i) <= |events| && Start(history, |history|) == |events|
    ensures i < |history| ==>
              && Bound(history[i], i, Start(history, i)) && Start(history, i) + |history[i].report.events| <= |events|
              && events[Start(history, i)..Start(history, i) + |history[i].report.events|] == history[i].report.events
              && Retained(history, history[i].command.commandId) == Some(history[i])
    decreases |history|
  {
    hide Bound;
    if history != [] {
      var n := |history| - 1;
      var before, first := history[..n], |events| - |history[n].report.events|;
      ChronicleAt(before, events[..first], if i < n then i else n);
      StartOfPrefix(history, n, n);
      if i < n {
        StartOfPrefix(history, n, i);
        var start := Start(history, i);
        assert events[..first][start..start + |history[i].report.events|] == events[start..start + |history[i].report.events|];
        assert Retained(before, history[n].command.commandId).None?;
      }
    }
  }

  lemma {:induction false} EventsAreNumbered(history: History, events: seq<CallAuctionEvent>, k: nat)
    requires Chronicle(history, events) && k < |events|
    ensures events[k].sequence == k + 1
    decreases |history|
  {
    hide Retained;
    var n := |history| - 1;
    var first := |events| - |history[n].report.events|;
    if k < first {
      EventsAreNumbered(history[..n], events[..first], k);
    } else {
      assert events[k] == events[first..][k - first];
    }
  }

  lemma GenesisChronicle(definition: InstrumentDefinition, limits: CallAuctionEngineLimits)
    requires definition.Valid() && limits.Valid()
    ensures Chronicle(Genesis(definition, limits).history, Genesis(definition, limits).events)
  {
  }

  /** On every run command and event numbers are gap free from one, the reports tile the event
      sequence in order, every event is bound to its command, and no identity is reused. */
  lemma EveryRunIsSequenced(definition: InstrumentDefinition, limits: CallAuctionEngineLimits, inputs: seq<Input>, i: nat, k: nat)
    requires definition.Valid() && limits.Valid()
    ensures var s := Run(Genesis(definition, limits), inputs);
            && s.nextCommandSequence == |s.history| + 1 && s.nextEventSequence == |s.events| + 1
            && Start(s.history, |s.history|) == |s.events|
            && (k < |s.events| ==> s.events[k].sequence == k + 1)
            && (i < |s.history| ==>
                  && Bound(s.history[i], i, Start(s.history, i)) && Start(s.history, i) + |s.history[i].report.events| <= |s.events|
                  && s.events[Start(s.history, i)..Start(s.history, i) + |s.history[i].report.events|] == s.history[i].report.events
                  && Retained(s.history, s.history[i].command.commandId) == Some(s.history[i]))
  {
    hide *;
    var genesis := Genesis(definition, limits);
    GenesisChronicle(definition, limits);
    RunKeepsChronicle(genesis, inputs);
    var s := Run(genesis, inputs);
    EngineFacts(s);
    ChronicleAt(s.history, s.events, if i < |s.history| then i else |s.history|);
    if k < |s.events| { EventsAreNumbered(s.history, s.events, k); }
  }

  // ----- write-once history and exact retries

  lemma StepAppends(s: EngineState, input: Input)
    requires WellFormedEngine(s)
    ensures s.history <= Step(s, input).0.history && s.events <= Step(s, input).0.events && Step(s, input).0.limits == s.limits
    ensures Step(s, input).1.Err? ==> Step(s, input).0 == s
  {
    hide *;
    EngineFacts(s);
    StepIs(s, input);
    if StepAction(s, input).Some? {
      CommittedIs(s, input.command, StepAction(s, input).value);
    }
  }

  /** Retained reports and events never change; every later state only appends to them. */
  lemma {:induction false} RunOnlyAppends(s: EngineState, inputs: seq<Input>)
    requires WellFormedEngine(s)
    ensures s.history <= Run(s, inputs).history && s.events <= Run(s, inputs).events && Run(s, inputs).limits == s.limits
  {
    hide WellFormedEngine, Step;
    if inputs != [] {
      RunOnlyAppends(s, inputs[..|inputs| - 1]);
      StepAppends(Run(s, inputs[..|inputs| - 1]), inputs[|inputs| - 1]);
    }
  }

  lemma RetainedLast(history: History, entry: CallAuctionHistoryEntry)
    ensures Retained(history + [entry], entry.command.commandId) == Some(entry)
  {
  }

  lemma RetainedGrows(history: History, entry: CallAuctionHistoryEntry, id: CommandId)
    requires id != entry.command.commandId
    ensures Retained(history + [entry], id) == Retained(history, id)
  {
    assert (history + [entry])[..|history|] == history;
  }

  lemma StepKeepsRetained(s: EngineState, input: Input, id: CommandId)
    requires WellFormedEngine(s) && Retained(s.history, id).Some?
    ensures Retained(Step(s, input).0.history, id) == Retained(s.history, id)
  {
    hide *;
    StepIs(s, input);
    if StepAction(s, input).Some? {
      var action := StepAction(s, input).value;
      CommittedIs(s, input.command, action);
      RetainedGrows(s.history, CallAuctionHistoryEntry(input.command, ReportOf(s, input.command, action)), id);
    }
  }

  lemma {:induction false} RunKeepsRetained(s: EngineState, inputs: seq<Input>, id: CommandId)
    requires WellFormedEngine(s) && Retained(s.history, id).Some?
    ensures Retained(Run(s, inputs).history, id) == Retained(s.history, id)
  {
    hide WellFormedEngine, Step, Retained;
    if inputs != [] {
      RunKeepsRetained(s, inputs[..|inputs| - 1], id);
      StepKeepsRetained(Run(s, inputs[..|inputs| - 1]), inputs[|inputs| - 1], id);
    }
  }

  /** An answered command is retained with the answer, up to the replay mark. */
  lemma AnsweredIsRetained(s: EngineState, input: Input)
    requires WellFormedEngine(s) && Step(s, input).1.Ok?
    ensures var entry := Retained(Step(s, input).0.history, input.command.commandId);
            && entry.Some? && entry.value.command == input.command
            && entry.value.report.(replayed := true) == Step(s, input).1.value.(replayed := true)
  {
    EngineFacts(s);
    StepIs(s, input);
    hide WellFormedEngine, BookModel.Valid, Decide, CapacityError, SoundAction, Committed, ReportOf, GateAllows, Committable;
    if StepAction(s, input).Some? {
      var action := StepAction(s, input).value;
      CommittedIs(s, input.command, action);
      RetainedLast(s.history, CallAuctionHistoryEntry(input.command, ReportOf(s, input.command, action)));
    }
  }

  lemma RetainedAnswers(s: EngineState, input: Input)
    requires WellFormedEngine(s) && Retained(s.history, input.command.commandId).Some?
    ensures var entry := Retained(s.history, input.command.commandId).value;
            Step(s, input) == (s, if entry.command == input.command then Ok(entry.report.(replayed := true))
                                  else Err(CommandIdCollision(input.command.commandId)))
  {
    EngineFacts(s);
    hide WellFormedEngine, BookModel.Valid, Decide, CapacityError, SoundAction, Retained;
  }

  /** Retrying an answered command, at any later time and whatever the gate then says, returns the
      original report marked replayed and changes nothing; another command under its identity is
      a collision and changes nothing either. */
  lemma RetriesReplay(s: EngineState, input: Input, later: seq<Input>, retry: Input)
    requires WellFormedEngine(s) && Step(s, input).1.Ok? && retry.command.commandId == input.command.commandId
    ensures var t := Run(Step(s, input).0, later);
            Step(t, retry) == (t, if retry.command == input.command then Ok(Step(s, input).1.value.(replayed := true))
                                  else Err(CommandIdCollision(retry.command.commandId)))
  {
    hide *;
    AnsweredIsRetained(s, input);
    RunKeepsRetained(Step(s, input).0, later, input.command.commandId);
    RetainedAnswers(Run(Step(s, input).0, later), retry);
  }

  // ----- terminal lanes

  ghost function Rank(phase: CallAuctionPhase): nat {
    match phase case Collecting => 2 case Frozen => 1 case Closed => 0
  }

  /** What an engine still has to wind down: its orders and its open phase. */
  ghost function Pending(book: BookModel, phase: CallAuctionPhaseSnapshot): nat {
    |book.active| + Rank(phase.phase)
  }

  ghost function Debt(book: BookModel, phase: CallAuctionPhaseSnapshot): nat {
    2 * |book.active| + Rank(phase.phase)
  }

  /** Trades of an uncross covered by twice the orders it fills and once the orders it cancels. */
  ghost predicate Pays(m: BookModel, action: PreparedAction) {
    action.UncrossAction? && IsPreparation(m, action.prepared) ==>
      |action.prepared.trades| <= 2 * FullyFilled(m, action.prepared.plan.clearing, action.prepared.policy) + |action.prepared.cancellations|
  }

  /** Every terminal action winds down, and pays for its own events. */
  ghost predicate WindsDown(s: EngineState, action: PreparedAction) {
    && Applicable(s.book, action)
    && Pending(BookAfter(s.book, action), PhaseAfter(s.phase, action)) < Pending(s.book, s.phase)
    && (MaximumEvents(action) + Debt(BookAfter(s.book, action), PhaseAfter(s.phase, action)) <= Debt(s.book, s.phase) <==> Pays(s.book, action))
  }

  lemma MinusSize(active: map<OrderId, CallAuctionOrderSnapshot>, ids: set<OrderId>)
    requires ids <= active.Keys
    ensures |active - ids| == |active| - |ids|
  {
    assert (active - ids).Keys == active.Keys - ids;
    assert |(active - ids).Keys| == |active - ids| && |active.Keys| == |active|;
  }

  lemma CancelWindsDown(s: EngineState, command: CallAuctionCommand, action: PreparedAction)
    requires WellFormedEngine(s) && command.Cancel? && DecideCancel(s, command) == Ok(action) && IsTerminal(action)
    ensures WindsDown(s, action)
  {
    hide BookModel.Valid, InstrumentDefinition.Valid, IndicationOk, Cancellation, WithoutOrders;
    CancellationFacts(s.book, command.accountId, command.orderId);
    WithoutOrdersIs(s.book, {action.cancelled.orderId});
    OrderFacts(s.book, command.orderId);
    MinusSize(s.book.active, {action.cancelled.orderId});
  }

  lemma MassCancelSize(m: BookModel, account: AccountId, scope: MassCancelScope)
    requires m.Valid() && MassCancelOutcome(m, account, scope).Ok?
    ensures Selected(m, account, scope) != {} ==> m.stateRevision < U64_MAX
    ensures |AbstractBook.MassCancelled(m, account, scope).active| == |m.active| - MassCancelOutcome(m, account, scope).value.cancelledOrderCount
  {
    MassCancelOutcomeIs(m, account, scope);
    AscendingSelection(m, account, scope);
    MinusSize(m.active, Selected(m, account, scope));
    hide BookModel.Valid, MassCancelOutcome, Selected;
  }

  lemma MassCancelWindsDown(s: EngineState, command: CallAuctionCommand, action: PreparedAction)
    requires WellFormedEngine(s) && command.MassCancel? && DecideMassCancel(s, command) == Ok(action) && IsTerminal(action)
    ensures WindsDown(s, action)
  {
    hide *;
    EngineFacts(s);
    MassCancelDecision(s, command, action);
    MassCancelSize(s.book, command.accountId, command.scope);
    MassCancelPays(s, command.accountId, command.scope, action.preflight);
  }

  lemma MassCancelPays(s: EngineState, account: AccountId, scope: MassCancelScope, preflight: CallAuctionMassCancelResult)
    requires Selected(s.book, account, scope) != {} ==> s.book.stateRevision < U64_MAX
    requires |AbstractBook.MassCancelled(s.book, account, scope).active| == |s.book.active| - preflight.cancelledOrderCount
    requires IsTerminal(MassCancelAction(account, scope, preflight))
    ensures WindsDown(s, MassCancelAction(account, scope, preflight))
  {
    hide AbstractBook.MassCancelled, Selected;
  }

  lemma PhaseWindsDown(s: EngineState, command: CallAuctionCommand, action: PreparedAction)
    requires command.PhaseControl? && DecidePhase(s.phase, command) == Ok(action) && IsTerminal(action)
    ensures WindsDown(s, action)
  {
  }

  lemma UncrossWindsDown(s: EngineState, bookInstanceId: nat, leases: usize, command: CallAuctionCommand, action: PreparedAction)
    requires WellFormedEngine(s) && command.Uncross? && DecideUncross(s, bookInstanceId, leases, command) == Ok(action) && IsTerminal(action)
    ensures WindsDown(s, action)
    ensures command.uncrossPolicy.allocation == PriceTime || s.limits.book.maxActiveOrders <= 3 ==> Pays(s.book, action)
  {
    hide *;
    EngineFacts(s);
    UncrossDecision(s, bookInstanceId, leases, command, action);
    TerminalUncross(action);
    var c := Discovered(s, command.priceBand, command.referencePrice, command.pricePolicy).value;
    FrozenForUncross(s.phase, command);
    PreparationShape(s.book, bookInstanceId, c, command.uncrossPolicy, action.prepared);
    TradesAreBounded(s.book, c, command.uncrossPolicy);
    UncrossPays(s, c, command.uncrossPolicy, action);
  }

  lemma TerminalUncross(action: PreparedAction)
    requires IsTerminal(action)
    ensures !action.RejectedAction?
  {
  }

  lemma UncrossPays(s: EngineState, c: AuctionClearing, policy: CallAuctionUncrossPolicy, action: PreparedAction)
    requires ClearsAt(s.book, c) && s.book.stateRevision < U64_MAX && TradeIdsFit(s.book, c, policy.allocation)
    requires action.UncrossAction? && IsPreparation(s.book, action.prepared) && action.prepared.plan.clearing == c && action.prepared.policy == policy
    requires |s.book.active| == FullyFilled(s.book, c, policy) + |action.prepared.cancellations| + |ActiveAfter(s.book, c, policy)|
    requires policy.allocation == PriceTime ==> |action.prepared.trades| <= FullyFilled(s.book, c, policy)
    requires |action.prepared.trades| <= |s.book.active| - 1 && 1 <= FullyFilled(s.book, c, policy)
    requires s.phase.phase == Frozen
    ensures WindsDown(s, action) && (policy.allocation == PriceTime || |s.book.active| <= 3 ==> Pays(s.book, action))
  {
    hide ClearsAt, IsPreparation, TradeIdsFit, FullyFilled, ActiveAfter, PairsOf;
  }

  ghost predicate PriceTimeOnly(input: Input) {
    input.command.Uncross? ==> input.command.uncrossPolicy.allocation == PriceTime
  }

  /** An uncross cannot outspend its orders: it trades by price and time, or among three at most. */
  ghost predicate Affordable(limits: CallAuctionEngineLimits, input: Input) {
    PriceTimeOnly(input) || limits.book.maxActiveOrders <= 3
  }

  /** The terminal actions the engine decides all wind it down, and the gate lets them be; only a
      pro-rata uncross of four orders or more may cost more events than the orders it removes pay for. */
  lemma TerminalWindsDown(s: EngineState, input: Input, action: PreparedAction)
    requires WellFormedEngine(s) && s.book.Valid() && Decide(s, input.bookInstanceId, input.leases, input.command) == Ok(action) && IsTerminal(action)
    ensures WindsDown(s, action) && (Affordable(s.limits, input) ==> Pays(s.book, action))
    ensures GateAllows(input.command, input.external) ==> Gated(action, input.external) == action
  {
    hide *;
    EngineFacts(s);
    var command := input.command;
    OnlyUncrossOwes(s.book, action);
    RoutedDecision(s, input, action);
    AffordableIs(s.limits, input);
    GateSpares(command, action, input.external);
    match command {
      case Submit(_, _, _, _, _) => EntriesAreOrdinary(s, command, action);
      case Amend(_, _, _, _, _, _, _, _, _) => EntriesAreOrdinary(s, command, action);
      case Replace(_, _, _, _, _, _, _) => EntriesAreOrdinary(s, command, action);
      case PhaseControl(_, _, _, _, _, _, _) => PhaseWindsDown(s, command, action); PhaseDecidesPhase(s.phase, command, action);
      case Cancel(_, _, _, _, _, _) => CancelWindsDown(s, command, action); CancelDecidesCancel(s, command, action);
      case MassCancel(_, _, _, _, _, _) => MassCancelWindsDown(s, command, action); MassCancelDecision(s, command, action);
      case Uncross(_, _, _, _, _, _, _, _, _, _) => UncrossWindsDown(s, input.bookInstanceId, input.leases, command, action);
      case Indicative(_, _, _, _, _, _, _, _, _) => PublicationsAreOrdinary(s, command, action);
    }
  }

  lemma AffordableIs(limits: CallAuctionEngineLimits, input: Input)
    ensures Affordable(limits, input) <==>
              (input.command.Uncross? ==> input.command.uncrossPolicy.allocation == PriceTime) || limits.book.maxActiveOrders <= 3
  {
  }

  lemma GateSpares(command: CallAuctionCommand, action: PreparedAction, external: Option<CallAuctionRejectReason>)
    ensures GateAllows(command, external) && !command.Submit? && !command.Replace? ==> Gated(action, external) == action
  {
  }

  lemma PublicationsAreOrdinary(s: EngineState, command: CallAuctionCommand, action: PreparedAction)
    requires s.book.Valid() && s.book.definition.Valid() && command.Indicative? && DecideIndicative(s, command) == Ok(action)
    ensures !IsTerminal(action)
  {
    hide BookModel.Valid, InstrumentDefinition.Valid, DecideIndicative;
    IndicativeDecision(s, command, action);
  }

  /** A terminal decision comes from the command's own handler, not from routing. */
  lemma RoutedDecision(s: EngineState, input: Input, action: PreparedAction)
    requires WellFormedEngine(s) && s.book.Valid() && s.book.definition.Valid()
    requires Decide(s, input.bookInstanceId, input.leases, input.command) == Ok(action) && IsTerminal(action)
    ensures match input.command
            case PhaseControl(_, _, _, _, _, _, _) => DecidePhase(s.phase, input.command) == Ok(action)
            case Submit(_, _, _, _, _) => DecideSubmit(s, input.command) == Ok(action)
            case Cancel(_, _, _, _, _, _) => DecideCancel(s, input.command) == Ok(action)
            case MassCancel(_, _, _, _, _, _) => DecideMassCancel(s, input.command) == Ok(action)
            case Amend(_, _, _, _, _, _, _, _, _) => DecideAmend(s, input.command) == Ok(action)
            case Replace(_, _, _, _, _, _, _) => DecideReplace(s, input.command) == Ok(action)
            case Indicative(_, _, _, _, _, _, _, _, _) => DecideIndicative(s, input.command) == Ok(action)
            case Uncross(_, _, _, _, _, _, _, _, _, _) => DecideUncross(s, input.bookInstanceId, input.leases, input.command) == Ok(action)
  {
    hide WellFormedEngine, BookModel.Valid, InstrumentDefinition.Valid, DecidePhase, DecideSubmit, DecideCancel,
      DecideMassCancel, DecideAmend, DecideReplace, DecideIndicative, DecideUncross;
  }

  lemma EntriesAreOrdinary(s: EngineState, command: CallAuctionCommand, action: PreparedAction)
    requires s.book.definition.Valid()
    requires || (command.Submit? && DecideSubmit(s, command) == Ok(action))
             || (command.Amend? && DecideAmend(s, command) == Ok(action))
             || (command.Replace? && DecideReplace(s, command) == Ok(action))
    ensures !IsTerminal(action)
  {
    hide InstrumentDefinition.Valid, Admission, Amendment, ReplacementOutcome, CollectionRejection;
  }

  lemma OnlyUncrossOwes(m: BookModel, action: PreparedAction)
    ensures !action.UncrossAction? ==> Pays(m, action)
  {
  }

  lemma PhaseDecidesPhase(phase: CallAuctionPhaseSnapshot, command: CallAuctionCommand, action: PreparedAction)
    requires command.PhaseControl? && DecidePhase(phase, command) == Ok(action)
    ensures !action.UncrossAction?
  {
  }

  lemma CancelDecidesCancel(s: EngineState, command: CallAuctionCommand, action: PreparedAction)
    requires command.Cancel? && DecideCancel(s, command) == Ok(action)
    ensures !action.UncrossAction?
  {
  }

  lemma WindsDownIs(s: EngineState, action: PreparedAction)
    requires WindsDown(s, action)
    ensures Applicable(s.book, action)
    ensures Pending(BookAfter(s.book, action), PhaseAfter(s.phase, action)) < Pending(s.book, s.phase)
    ensures Pays(s.book, action) <==>
              MaximumEvents(action) + Debt(BookAfter(s.book, action), PhaseAfter(s.phase, action)) <= Debt(s.book, s.phase)
  {
  }

  /** Once ordinary command slots are used up, the slots left cover every terminal command the
      engine can still accept. */
  ghost predicate CommandLane(s: EngineState)
    requires s.limits.Valid()
  {
    |s.history| <= s.limits.OrdinaryCommandCapacity() || |s.history| + Pending(s.book, s.phase) <= s.limits.retainedCommands
  }

  /** The same for events, at two per order and one per open phase step. */
  ghost predicate EventLane(s: EngineState)
    requires s.limits.Valid()
  {
    |s.events| <= s.limits.OrdinaryEventCapacity() || |s.events| + Debt(s.book, s.phase) <= s.limits.retainedEvents
  }

  lemma RoomBound(s: EngineState)
    requires WellFormedEngine(s)
    ensures s.limits.Valid() && s.book.Valid()
    ensures s.limits.OrdinaryCommandCapacity() + Pending(s.book, s.phase) <= s.limits.retainedCommands
    ensures s.limits.OrdinaryEventCapacity() + Debt(s.book, s.phase) <= s.limits.retainedEvents
  {
    EngineFacts(s);
    hide WellFormedEngine, BookModel.Valid;
  }

  lemma CapacityFacts(s: EngineState, action: PreparedAction)
    requires s.limits.Valid() && CapacityError(s, action).None?
    ensures |s.history| < s.limits.OrdinaryCommandCapacity() || IsTerminal(action)
    ensures |s.events| + MaximumEvents(action) <= s.limits.OrdinaryEventCapacity() || IsTerminal(action)
  {
  }

  /** The step's own uncross, if it commits one, pays for its events. */
  ghost predicate StepPays(s: EngineState, input: Input)
    requires WellFormedEngine(s)
  {
    StepAction(s, input).Some? ==> Pays(s.book, StepAction(s, input).value)
  }

  lemma StepPaysIs(s: EngineState, input: Input)
    requires WellFormedEngine(s)
    ensures StepPays(s, input) <==> (StepAction(s, input).Some? ==> Pays(s.book, StepAction(s, input).value))
  {
    hide WellFormedEngine, StepAction, Pays;
  }

  /** Every uncross of a run pays for its events. */
  ghost predicate RunPays(s: EngineState, inputs: seq<Input>)
    requires WellFormedEngine(s)
  {
    hide WellFormedEngine, StepPays;
    inputs == [] || (RunPays(s, inputs[..|inputs| - 1]) && StepPays(Run(s, inputs[..|inputs| - 1]), inputs[|inputs| - 1]))
  }

  lemma AffordablePays(s: EngineState, input: Input)
    requires WellFormedEngine(s) && Affordable(s.limits, input)
    ensures StepPays(s, input)
  {
    hide *;
    EngineFacts(s);
    StepIs(s, input);
    StepPaysIs(s, input);
    if StepAction(s, input).Some? {
      var action := StepAction(s, input).value;
      var decided :| Decide(s, input.bookInstanceId, input.leases, input.command) == Ok(decided) && CapacityError(s, decided).None?
                     && action == Gated(decided, input.external) && GateAllows(input.command, input.external);
      OnlyUncrossOwes(s.book, action);
      if action.UncrossAction? {
        UncrossIsTerminal(decided, input.external);
        TerminalWindsDown(s, input, decided);
      }
    }
  }

  lemma UncrossIsTerminal(action: PreparedAction, external: Option<CallAuctionRejectReason>)
    requires Gated(action, external).UncrossAction?
    ensures IsTerminal(action)
  {
  }

  lemma {:induction false} AffordableRunPays(s: EngineState, inputs: seq<Input>)
    requires WellFormedEngine(s) && forall i :: 0 <= i < |inputs| ==> Affordable(s.limits, inputs[i])
    ensures RunPays(s, inputs)
  {
    hide WellFormedEngine, StepPays, Affordable, Step;
    if inputs != [] {
      AffordableRunPays(s, inputs[..|inputs| - 1]);
      RunOnlyAppends(s, inputs[..|inputs| - 1]);
      AffordablePays(Run(s, inputs[..|inputs| - 1]), inputs[|inputs| - 1]);
    }
  }

  /** What a step does to the history and the lanes' measures. */
  lemma StepMeasures(s: EngineState, input: Input)
    requires WellFormedEngine(s) && s.limits.Valid()
    ensures Step(s, input).0.limits == s.limits
    ensures Step(s, input).0 == s ||
            var n := Step(s, input).0;
            && |n.history| == |s.history| + 1
            && (|n.history| <= s.limits.OrdinaryCommandCapacity() || Pending(n.book, n.phase) < Pending(s.book, s.phase))
            && (|n.events| <= s.limits.OrdinaryEventCapacity()
                || (StepPays(s, input) ==> |n.events| + Debt(n.book, n.phase) <= |s.events| + Debt(s.book, s.phase)))
  {
    hide *;
    EngineFacts(s);
    StepIs(s, input);
    if StepAction(s, input).Some? {
      var action := StepAction(s, input).value;
      CommittedIs(s, input.command, action);
      var decided :| Decide(s, input.bookInstanceId, input.leases, input.command) == Ok(decided) && CapacityError(s, decided).None?
                     && action == Gated(decided, input.external) && GateAllows(input.command, input.external);
      CapacityFacts(s, decided);
      DecisionIsSound(s, input.bookInstanceId, input.leases, input.command, decided);
      GatedIsSound(s, input.command, decided, input.external);
      StepPaysIs(s, input);
      if IsTerminal(decided) {
        TerminalWindsDown(s, input, decided);
        WindsDownIs(s, decided);
      }
    }
  }

  lemma StepKeepsLanes(s: EngineState, input: Input)
    requires WellFormedEngine(s) && s.limits.Valid() && CommandLane(s)
    ensures Step(s, input).0.limits == s.limits && CommandLane(Step(s, input).0)
    ensures EventLane(s) && StepPays(s, input) ==> EventLane(Step(s, input).0)
  {
    StepMeasures(s, input);
    RoomBound(s);
    hide WellFormedEngine, Step, CallAuctionEngineLimits.Valid, CallAuctionEngineLimits.OrdinaryCommandCapacity, CallAuctionEngineLimits.OrdinaryEventCapacity,
      Debt, Pending, StepPays;
  }

  lemma {:induction false} RunKeepsLanes(s: EngineState, inputs: seq<Input>)
    requires WellFormedEngine(s) && s.limits.Valid() && CommandLane(s) && EventLane(s)
    ensures Run(s, inputs).limits == s.limits && CommandLane(Run(s, inputs))
    ensures RunPays(s, inputs) ==> EventLane(Run(s, inputs))
  {
    hide WellFormedEngine, Step, CallAuctionEngineLimits.Valid, CommandLane, EventLane, StepPays;
    if inputs != [] {
      var last := |inputs| - 1;
      RunKeepsLanes(s, inputs[..last]);
      StepKeepsLanes(Run(s, inputs[..last]), inputs[last]);
    }
  }

  lemma GenesisLanes(definition: InstrumentDefinition, limits: CallAuctionEngineLimits)
    requires definition.Valid() && limits.Valid()
    ensures var s := Genesis(definition, limits); s.limits == limits && CommandLane(s) && EventLane(s)
  {
  }

  /** On every run, under every policy, a terminal command finds a free command slot. */
  lemma TerminalCommandsNeverStarve(definition: InstrumentDefinition, limits: CallAuctionEngineLimits, inputs: seq<Input>, input: Input, action: PreparedAction)
    requires definition.Valid() && limits.Valid()
    requires var s := Run(Genesis(definition, limits), inputs);
             s.book.Valid() && Decide(s, input.bookInstanceId, input.leases, input.command) == Ok(action) && IsTerminal(action)
    ensures var s := Run(Genesis(definition, limits), inputs);
            s.limits == limits && CapacityError(s, action) != Some(CapacityExhausted(CommandHistory))
            && CapacityError(s, action) != Some(CapacityExhausted(AdmissionCommandHistory))
  {
    var genesis := Genesis(definition, limits);
    var s := Run(genesis, inputs);
    hide *;
    GenesisLanes(definition, limits);
    RunKeepsLanes(genesis, inputs);
    TerminalWindsDown(s, input, action);
    WindsDownIs(s, action);
    CommandLaneHasRoom(s, action);
  }

  lemma CommandLaneHasRoom(s: EngineState, action: PreparedAction)
    requires s.limits.Valid() && CommandLane(s) && Pending(s.book, s.phase) > 0 && IsTerminal(action)
    ensures CapacityError(s, action) != Some(CapacityExhausted(CommandHistory)) && CapacityError(s, action) != Some(CapacityExhausted(AdmissionCommandHistory))
  {
  }

  /** When every uncross of the run pays for its events, a terminal command that pays for its own
      is refused only once a 64-bit sequence is used up, never for want of retained events. */
  lemma PayingRunsNeverStarve(definition: InstrumentDefinition, limits: CallAuctionEngineLimits, inputs: seq<Input>, input: Input, action: PreparedAction)
    requires definition.Valid() && limits.Valid() && RunPays(Genesis(definition, limits), inputs)
    requires var s := Run(Genesis(definition, limits), inputs);
             s.book.Valid() && Decide(s, input.bookInstanceId, input.leases, input.command) == Ok(action) && IsTerminal(action) && Pays(s.book, action)
    ensures var s := Run(Genesis(definition, limits), inputs);
            s.limits == limits && (CapacityError(s, action).None? || CapacityError(s, action) == Some(SequenceExhausted))
  {
    hide *;
    var genesis := Genesis(definition, limits);
    var s := Run(genesis, inputs);
    GenesisLanes(definition, limits);
    RunKeepsLanes(genesis, inputs);
    TerminalWindsDown(s, input, action);
    WindsDownIs(s, action);
    DecisionIsSound(s, input.bookInstanceId, input.leases, input.command, action);
    ReportBound(s, input.command, action);
    RoomBound(s);
    EventLaneHasRoom(s, action);
  }

  /** On every run whose uncrosses all allocate by price and time, and under every policy when the
      book holds three orders at most, a terminal command is refused only once a 64-bit sequence is
      used up, never for want of retained events. */
  lemma TerminalEventsNeverStarve(definition: InstrumentDefinition, limits: CallAuctionEngineLimits, inputs: seq<Input>, input: Input, action: PreparedAction)
    requires definition.Valid() && limits.Valid()
    requires Affordable(limits, input) && forall i :: 0 <= i < |inputs| ==> Affordable(limits, inputs[i])
    requires var s := Run(Genesis(definition, limits), inputs);
             s.book.Valid() && Decide(s, input.bookInstanceId, input.leases, input.command) == Ok(action) && IsTerminal(action)
    ensures var s := Run(Genesis(definition, limits), inputs);
            s.limits == limits && (CapacityError(s, action).None? || CapacityError(s, action) == Some(SequenceExhausted))
  {
    hide *;
    var genesis := Genesis(definition, limits);
    GenesisLanes(definition, limits);
    RunOnlyAppends(genesis, inputs);
    AffordableRunPays(genesis, inputs);
    TerminalWindsDown(Run(genesis, inputs), input, action);
    PayingRunsNeverStarve(definition, limits, inputs, input, action);
  }

  lemma EventLaneHasRoom(s: EngineState, action: PreparedAction)
    requires s.limits.Valid() && CommandLane(s) && EventLane(s) && Pending(s.book, s.phase) > 0 && IsTerminal(action)
    requires MaximumEvents(action) <= Debt(s.book, s.phase) && MaximumEvents(action) <= s.limits.reportEvents
    requires s.limits.OrdinaryEventCapacity() + Debt(s.book, s.phase) <= s.limits.retainedEvents
    ensures CapacityError(s, action).None? || CapacityError(s, action) == Some(SequenceExhausted)
  {
    hide Debt, Pending;
    CommandLaneHasRoom(s, action);
  }

  lemma ReportBound(s: EngineState, command: CallAuctionCommand, action: PreparedAction)
    requires WellFormedEngine(s) && SoundAction(s, command, action)
    ensures MaximumEvents(action) <= 2 * s.limits.book.maxActiveOrders + 1 <= s.limits.reportEvents
  {
    EngineFacts(s);
    hide WellFormedEngine, Applicable, BookAfter, EventKinds, PhaseAfter, BookModel.Valid;
  }

  /** Whatever the policy, no decision ever needs more than twice the active-order bound plus one
      events in its report, so the report bound never refuses a command. */
  lemma ReportsAreBounded(s: EngineState, input: Input, action: PreparedAction)
    requires WellFormedEngine(s) && s.book.Valid() && Decide(s, input.bookInstanceId, input.leases, input.command) == Ok(action)
    ensures s.limits.Valid() && MaximumEvents(action) <= 2 * s.limits.book.maxActiveOrders + 1
    ensures CapacityError(s, action) != Some(CapacityExhausted(ReportEvents))
  {
    hide *;
    EngineFacts(s);
    DecisionIsSound(s, input.bookInstanceId, input.leases, input.command, action);
    ReportBound(s, input.command, action);
    WithinReport(s, action);
  }

  lemma WithinReport(s: EngineState, action: PreparedAction)
    requires s.limits.Valid() && MaximumEvents(action) <= s.limits.reportEvents
    ensures CapacityError(s, action) != Some(CapacityExhausted(ReportEvents))
  {
  }
}
