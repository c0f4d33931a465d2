/** The sequenced engine: phase control, idempotent retries and retained history updated in place
    around one collection book, and proved to take exactly the modelled steps. */
module AuctionEngine {
  import opened AbstractBook
  import opened Ascending
  import opened AuctionBook
  import opened BookInterest
  import opened Checkpoint
  import opened Clearing
  import opened DecidedActions
  import opened Discovery
  import opened Domain
  import opened EngineLaws
  import opened EngineModel
  import opened EngineRuns
  import opened EngineTypes
  import opened MassCancellation
  import opened PhaseAudit
  import opened Projection
  import opened ReportCache
  import opened Restoration
  import opened RunLaws
  import opened Uncross

  /** A prepared command: the action decided, bound to one engine and one retained history. */
  datatype PreparedCallAuctionCommand = PreparedCallAuctionCommand(
    command: CallAuctionCommand, engineInstanceId: nat, expectedRetainedCommands: nat, expectedRetainedEvents: nat, action: PreparedAction)

  datatype CallAuctionCommandPreparation = Replayed(report: CallAuctionExecutionReport) | Prepared(token: PreparedCallAuctionCommand)

  type Events = seq<CallAuctionEvent>
  type Applied = Result<Events, CallAuctionEngineError>

  class CallAuctionEngine {
    const instanceId: nat
    const limits: CallAuctionEngineLimits
    const book: CallAuctionBook
    var phase: CallAuctionPhase
    var phaseRevision: u64
    var activeAuctionId: Option<AuctionId>
    var lastAuctionId: Option<AuctionId>
    var lastIndicative: Option<CallAuctionIndicativeState>
    var nextCommandSequence: u64
    var nextEventSequence: u64
    var reports: Cache
    var reportIndex: map<CommandId, nat>
    var eventArena: Arena

    /** Tokens handed out so far. */
    ghost var issued: set<PreparedCallAuctionCommand>

    function PhaseSnapshot(): CallAuctionPhaseSnapshot
      reads this
    {
      CallAuctionPhaseSnapshot(phase, phaseRevision, activeAuctionId, lastAuctionId)
    }

    ghost function State(): EngineState
      requires RangesFit(eventArena, reports)
      reads this, book
    {
      EngineState(limits, book.Model(), PhaseSnapshot(), lastIndicative, nextCommandSequence, nextEventSequence,
                  HistoryOf(eventArena, reports), eventArena)
    }

    /** The book is sound, every report is retained where its index says, and the whole state is a
        well-formed engine state. */
    ghost predicate Sound()
      reads this, book
    {
      && book.Valid() && book.limits == limits.book && RangesFit(eventArena, reports) && Indexed(reportIndex, reports)
      && WellFormedEngine(State())
    }

    /** Between operations, every token of the current history can still be committed. */
    ghost predicate Valid()
      reads this, book
    {
      Sound() && TokensHold(State(), book.issued, book.instanceId, instanceId, issued)
    }

    lemma Unfold()
      ensures Valid() <==> Sound() && TokensHold(State(), book.issued, book.instanceId, instanceId, issued)
      ensures Sound() <==> && book.Valid() && book.limits == limits.book && RangesFit(eventArena, reports) && Indexed(reportIndex, reports)
                           && WellFormedEngine(State())
      ensures RangesFit(eventArena, reports) ==>
                State() == EngineState(limits, book.Model(), PhaseSnapshot(), lastIndicative, nextCommandSequence, nextEventSequence,
                                       HistoryOf(eventArena, reports), eventArena)
      ensures PhaseSnapshot() == CallAuctionPhaseSnapshot(phase, phaseRevision, activeAuctionId, lastAuctionId)
      ensures book.Model().definition == book.definition && book.Model().stateRevision == book.stateRevision
    {
    }

    constructor (instanceId: nat, bookInstanceId: nat, definition: InstrumentDefinition, limits: CallAuctionEngineLimits)
      requires definition.Valid() && limits.Valid()
      ensures Valid() && State() == Genesis(definition, limits) && issued == {} && fresh(book)
      ensures this.instanceId == instanceId && this.limits == limits && book.instanceId == bookInstanceId
    {
      this.instanceId, this.limits := instanceId, limits;
      var collection := new CallAuctionBook(bookInstanceId, definition, limits.book);
      book := collection;
      phase, phaseRevision, activeAuctionId, lastAuctionId, lastIndicative := Closed, 0, None, None, None;
      nextCommandSequence, nextEventSequence := 1, 1;
      reports, reportIndex, eventArena := [], map[], [];
      issued := {};
      new;
      hide *;
      GenesisIs(definition, limits);
      Unfold();
      NothingRetained();
      NoTokens(State(), book.issued, book.instanceId, instanceId);
    }

    /** Puts an engine together around a rebuilt book: the event arena and the report index are
        rewritten in order, the indication is replayed. */
    constructor FromParts(instanceId: nat, book: CallAuctionBook, c: CallAuctionCheckpoint, limits: CallAuctionEngineLimits, ghost s: EngineState)
      requires c.definition.Valid() && Restored(c, limits) == Some(s) && WellFormedEngine(s) && Chronicle(s.history, s.events)
      requires book.Valid() && book.Model() == s.book && book.limits == limits.book && book.issued == {}
      ensures Valid() && State() == s && issued == {} && this.book == book && this.instanceId == instanceId && this.limits == limits
    {
      hide *;
      EngineFacts(s);
      RestoredUnfolds(c, limits, s);
      this.instanceId, this.limits, this.book := instanceId, limits, book;
      phase, phaseRevision, activeAuctionId, lastAuctionId := c.phase.phase, c.phase.revision, c.phase.activeAuctionId, c.phase.lastAuctionId;
      var audit := ReplayHistory(c.history, c.definition);
      lastIndicative := match audit case Some(replayed) => replayed.lastIndicative case None => None;
      nextCommandSequence, nextEventSequence := |c.history| + 1, NextEventSequence(c.history);
      reports, reportIndex, eventArena := [], map[], [];
      issued := {};
      new;
      NothingRetained();
      FlattenIsEvents(s.history, s.events);
      FlattenNothing();
      assert c.history[..0] == [];
      for k := 0 to |c.history|
        modifies this`reports, this`reportIndex, this`eventArena
        invariant RangesFit(eventArena, reports) && Indexed(reportIndex, reports)
        invariant HistoryOf(eventArena, reports) == c.history[..k] && eventArena == Flatten(c.history[..k]) && |reports| == k
      {
        var entry := c.history[k];
        ChronicleAt(s.history, s.events, k);
        NewInPrefix(s.history, s.events, k);
        LookupIsRetained(eventArena, reports, reportIndex, entry.command.commandId);
        BoundIs(entry, k, Start(s.history, k));
        FlattenNext(c.history, k);
        var cached := CachedCallAuctionReport(entry.command, entry.report.commandSequence, entry.report.outcome, |eventArena|, |entry.report.events|);
        CacheGrows(eventArena, reports, reportIndex, cached, entry.report.events);
        reportIndex := reportIndex[entry.command.commandId := |reports|];
        reports := reports + [cached];
        eventArena := eventArena + entry.report.events;
        assert c.history[..k] + [entry] == c.history[..k + 1];
      }
      assert c.history[..|c.history|] == c.history;
      Unfold();
      assert State() == s;
      NoTokens(State(), book.issued, book.instanceId, instanceId);
    }

    // ----- applying one action

    method PushEvent(command: CallAuctionCommand, kind: CallAuctionEventKind, events: Events) returns (pushed: Events)
      requires nextEventSequence < U64_MAX
      modifies this`nextEventSequence
      ensures nextEventSequence == old(nextEventSequence) + 1
      ensures pushed == events + [CallAuctionEvent(old(nextEventSequence), command.commandId, command.receivedAt, kind)]
    {
      pushed := events + [CallAuctionEvent(nextEventSequence, command.commandId, command.receivedAt, kind)];
      nextEventSequence := nextEventSequence + 1;
    }

    method ApplySubmit(command: CallAuctionCommand, accepted: CallAuctionOrderSnapshot) returns (r: Applied)
      requires command.Submit? && book.Valid() && book.definition.Valid() && Admission(book.Model(), command.order) == Ok(accepted)
      requires nextEventSequence < U64_MAX
      modifies book, this`nextEventSequence
      ensures old(book.nextPrioritySequence) < U64_MAX && old(book.stateRevision) < U64_MAX
      ensures book.Valid() && book.Model() == Admitted(old(book.Model()), accepted)
      ensures nextEventSequence == old(nextEventSequence) + 1
      ensures r == Ok(Stamped([OrderAccepted(accepted)], command, old(nextEventSequence)))
    {
      hide *;
      book.Unfold();
      var predicted := book.PreflightAdmission(command.order);
      if predicted != Ok(accepted) {
        assert false;
        return Err(EngineInvariantViolation);
      }
      var admitted := book.Admit(command.order);
      if admitted != Ok(accepted) {
        assert false;
        return Err(EngineInvariantViolation);
      }
      var events := PushEvent(command, OrderAccepted(admitted.value), []);
      StampOne(OrderAccepted(accepted), command, old(nextEventSequence));
      return Ok(events);
    }

    method ApplyCancel(command: CallAuctionCommand, order: CallAuctionOrderSnapshot) returns (r: Applied)
      requires command.Cancel? && book.Valid() && Cancellation(book.Model(), command.accountId, command.orderId) == Ok(order)
      requires nextEventSequence < U64_MAX
      modifies book, this`nextEventSequence
      ensures old(book.stateRevision) < U64_MAX && book.Valid() && book.Model() == WithoutOrders(old(book.Model()), {order.orderId})
      ensures nextEventSequence == old(nextEventSequence) + 1
      ensures r == Ok(Stamped([OrderCancelled(order, UserRequested)], command, old(nextEventSequence)))
    {
      hide *;
      book.Unfold();
      ghost var m := book.Model();
      CancellationFacts(m, command.accountId, command.orderId);
      OrderFacts(m, command.orderId);
      ActiveOrder(book, order.orderId);
      if order.orderId !in book.orders || book.orders[order.orderId].order != order {
        assert false;
        return Err(EngineInvariantViolation);
      }
      var cancelled := book.Cancel(order.accountId, order.orderId);
      if cancelled != Ok(order) {
        assert false;
        return Err(EngineInvariantViolation);
      }
      var events := PushEvent(command, OrderCancelled(cancelled.value, UserRequested), []);
      StampOne(OrderCancelled(order, UserRequested), command, old(nextEventSequence));
      return Ok(events);
    }

    method ApplyAmend(command: CallAuctionCommand, previous: CallAuctionOrderSnapshot, newQuantity: Quantity) returns (r: Applied)
      requires command.Amend? && book.Valid() && book.definition.Valid() && newQuantity == command.newQuantity
      requires Amendment(book.Model(), command.accountId, command.orderId, newQuantity) == Ok(previous) && nextEventSequence < U64_MAX
      modifies book, this`nextEventSequence
      ensures previous.orderId in old(book.Model()).active && old(book.stateRevision) < U64_MAX
      ensures book.Valid() && book.Model() == Amended(old(book.Model()), previous.orderId, newQuantity)
      ensures nextEventSequence == old(nextEventSequence) + 1
      ensures r == Ok(Stamped([OrderAmended(previous.(quantity := newQuantity), previous.quantity, old(book.stateRevision) + 1)], command, old(nextEventSequence)))
    {
      hide *;
      book.Unfold();
      ghost var m := book.Model();
      AmendmentFacts(m, command.accountId, command.orderId, newQuantity);
      OrderFacts(m, command.orderId);
      ActiveOrder(book, previous.orderId);
      if previous.orderId !in book.orders || book.orders[previous.orderId].order != previous {
        assert false;
        return Err(EngineInvariantViolation);
      }
      var amended := book.Amend(previous.accountId, previous.orderId, newQuantity);
      AmendedIs(m, previous.orderId, newQuantity);
      book.Unfold();
      if amended != Ok(previous) {
        assert false;
        return Err(EngineInvariantViolation);
      }
      var kind := OrderAmended(previous.(quantity := newQuantity), previous.quantity, book.stateRevision);
      var events := PushEvent(command, kind, []);
      StampOne(kind, command, old(nextEventSequence));
      return Ok(events);
    }

    method ApplyReplace(command: CallAuctionCommand, target: CallAuctionOrderSnapshot, replacement: CallAuctionOrderSnapshot) returns (r: Applied)
      requires command.Replace? && book.Valid() && book.definition.Valid() && nextEventSequence + 1 < U64_MAX
      requires ReplacementOutcome(book.Model(), command.accountId, command.targetOrderId, command.replacement) == Ok((target, replacement))
      modifies book, this`nextEventSequence
      ensures old(book.nextPrioritySequence) < U64_MAX && old(book.stateRevision) < U64_MAX
      ensures book.Valid() && book.Model() == Admitted(WithoutTarget(old(book.Model()), target.orderId), replacement)
      ensures nextEventSequence == old(nextEventSequence) + 2
      ensures r == Ok(Stamped([OrderCancelled(target, ByReplacement), OrderAccepted(replacement)], command, old(nextEventSequence)))
    {
      hide *;
      book.Unfold();
      ghost var m := book.Model();
      ReplacementFacts(m, command.accountId, command.targetOrderId, command.replacement);
      OrderFacts(m, command.targetOrderId);
      ReplaceIsAdmitAfterRemove(m, command.accountId, command.targetOrderId, command.replacement);
      WithoutTargetIsValid(m, command.targetOrderId);
      WithoutTargetIs(m, command.targetOrderId);
      AdmissionFacts(WithoutTarget(m, command.targetOrderId), command.replacement);
      ActiveOrder(book, command.targetOrderId);
      if command.targetOrderId !in book.orders || book.orders[command.targetOrderId].order != target {
        assert false;
        return Err(EngineInvariantViolation);
      }
      var replaced := book.Replace(target.accountId, target.orderId, command.replacement);
      if replaced != Ok((target, replacement)) {
        assert false;
        return Err(EngineInvariantViolation);
      }
      var events := PushEvent(command, OrderCancelled(target, ByReplacement), []);
      events := PushEvent(command, OrderAccepted(replacement), events);
      StampTwo(OrderCancelled(target, ByReplacement), OrderAccepted(replacement), command, old(nextEventSequence));
      return Ok(events);
    }

    method PushCancels(command: CallAuctionCommand, selection: seq<CallAuctionOrderSnapshot>) returns (events: Events)
      requires nextEventSequence + |selection| <= U64_MAX
      modifies this`nextEventSequence
      ensures nextEventSequence == old(nextEventSequence) + |selection|
      ensures events == Stamped(CancelKinds(selection), command, old(nextEventSequence))
    {
      ghost var first := nextEventSequence;
      events := [];
      for index := 0 to |selection|
        invariant nextEventSequence == first + index
        invariant events == Stamped(CancelKinds(selection[..index]), command, first)
      {
        NextCancel(selection, index);
        StampNext(CancelKinds(selection[..index]), OrderCancelled(selection[index], ByMassCancel), command, first);
        events := PushEvent(command, OrderCancelled(selection[index], ByMassCancel), events);
      }
      assert selection[..|selection|] == selection;
    }

    method ApplyMassCancel(command: CallAuctionCommand, accountId: AccountId, scope: MassCancelScope, preflight: CallAuctionMassCancelResult) returns (r: Applied)
      requires book.Valid() && book.Model().Valid() && MassCancelOutcome(book.Model(), accountId, scope) == Ok(preflight)
      requires preflight.cancelledOrderCount <= book.limits.maxActiveOrders && nextEventSequence + preflight.cancelledOrderCount < U64_MAX
      modifies book, this`nextEventSequence
      ensures Selected(old(book.Model()), accountId, scope) != {} ==> old(book.stateRevision) < U64_MAX
      ensures book.Valid() && book.Model() == AbstractBook.MassCancelled(old(book.Model()), accountId, scope)
      ensures Selected(old(book.Model()), accountId, scope) <= old(book.Model()).active.Keys
      ensures |MassCancelKinds(old(book.Model()), accountId, scope, preflight)| == preflight.cancelledOrderCount + 1
      ensures nextEventSequence == old(nextEventSequence) + preflight.cancelledOrderCount + 1
      ensures r == Ok(Stamped(MassCancelKinds(old(book.Model()), accountId, scope, preflight), command, old(nextEventSequence)))
    {
      hide *;
      book.Unfold();
      ghost var m, first := book.Model(), nextEventSequence;
      MassCancelRoom(m, accountId, scope, preflight);
      var again := book.PreflightMassCancel(accountId, scope);
      if again != Ok(preflight) {
        assert false;
        return Err(EngineInvariantViolation);
      }
      var result, selection := book.MassCancelInto(accountId, scope, [], book.limits.maxActiveOrders);
      MassCancelAnswered(result, selection, m, book.Model(), accountId, scope, preflight, book.limits.maxActiveOrders);
      if result != Ok(preflight) {
        assert false;
        return Err(EngineInvariantViolation);
      }
      var events := PushCancels(command, selection);
      ghost var kinds := CancelKinds(selection);
      var last := MassCancelCompleted(accountId, scope, preflight.cancelledOrderCount, preflight.cancelledQuantityLots, preflight.stateRevision);
      StampNext(kinds, last, command, first);
      events := PushEvent(command, last, events);
      return Ok(events);
    }

    method ApplyIndicative(command: CallAuctionCommand, state: CallAuctionIndicativeState) returns (r: Applied)
      requires command.Indicative? && book.definition.Valid() && nextEventSequence < U64_MAX
      requires IndicationStands(state, command, PhaseSnapshot(), book.stateRevision, lastIndicative, book.definition)
      modifies this`lastIndicative, this`nextEventSequence
      ensures lastIndicative == Some(state) && nextEventSequence == old(nextEventSequence) + 1
      ensures r == Ok(Stamped([IndicativePublished(state)], command, old(nextEventSequence)))
    {
      hide CallAuctionIndicativeState.IsValidFor, InstrumentDefinition.Valid, Stamped;
      if book.stateRevision != state.bookRevision {
        assert false;
        return Err(StaleCommand);
      }
      if !IndicationStands(state, command, PhaseSnapshot(), book.stateRevision, lastIndicative, book.definition) {
        assert false;
        return Err(EngineInvariantViolation);
      }
      lastIndicative := Some(state);
      var events := PushEvent(command, IndicativePublished(state), []);
      StampOne(IndicativePublished(state), command, old(nextEventSequence));
      return Ok(events);
    }

    method ApplyPhaseControl(command: CallAuctionCommand, source: CallAuctionPhaseSnapshot, resulting: CallAuctionPhaseSnapshot) returns (r: Applied)
      requires command.PhaseControl? && DecidePhase(PhaseSnapshot(), command) == Ok(PhaseTransition(source, resulting)) && nextEventSequence < U64_MAX
      modifies this`phase, this`phaseRevision, this`activeAuctionId, this`lastAuctionId, this`nextEventSequence
      ensures PhaseSnapshot() == resulting && nextEventSequence == old(nextEventSequence) + 1
      ensures r == Ok(Stamped([PhaseChanged(command.auctionId, source.phase, resulting.phase, resulting.revision)], command, old(nextEventSequence)))
    {
      hide DecidePhase, Stamped;
      var recomputed := DecidePhase(PhaseSnapshot(), command);
      if recomputed != Ok(PhaseTransition(source, resulting)) {
        assert false;
        return Err(EngineInvariantViolation);
      }
      phase, phaseRevision, activeAuctionId, lastAuctionId := resulting.phase, resulting.revision, resulting.activeAuctionId, resulting.lastAuctionId;
      var kind := PhaseChanged(command.auctionId, source.phase, resulting.phase, resulting.revision);
      var events := PushEvent(command, kind, []);
      StampOne(kind, command, old(nextEventSequence));
      return Ok(events);
    }

    method PushTrades(command: CallAuctionCommand, trades: seq<CallAuctionTrade>) returns (events: Events)
      requires nextEventSequence + |trades| <= U64_MAX
      modifies this`nextEventSequence
      ensures nextEventSequence == old(nextEventSequence) + |trades|
      ensures events == Stamped(TradeKinds(trades), command, old(nextEventSequence))
    {
      ghost var first := nextEventSequence;
      events := [];
      for k := 0 to |trades|
        invariant nextEventSequence == first + k && events == Stamped(TradeKinds(trades[..k]), command, first)
      {
        assert TradeKinds(trades[..k + 1]) == TradeKinds(trades[..k]) + [TradeExecuted(trades[k])];
        StampNext(TradeKinds(trades[..k]), TradeExecuted(trades[k]), command, first);
        events := PushEvent(command, TradeExecuted(trades[k]), events);
      }
      assert trades[..|trades|] == trades;
    }

    method PushRemainders(command: CallAuctionCommand, cancellations: seq<CallAuctionCancellation>, before: Events, ghost kinds: seq<CallAuctionEventKind>,
                          ghost first: nat) returns (events: Events)
      requires first + |kinds| == nextEventSequence && nextEventSequence + |cancellations| <= U64_MAX && before == Stamped(kinds, command, first)
      modifies this`nextEventSequence
      ensures nextEventSequence == old(nextEventSequence) + |cancellations|
      ensures events == Stamped(kinds + RemainderKinds(cancellations), command, first)
    {
      events := before;
      assert kinds + RemainderKinds(cancellations[..0]) == kinds;
      for k := 0 to |cancellations|
        invariant nextEventSequence == first + |kinds| + k && events == Stamped(kinds + RemainderKinds(cancellations[..k]), command, first)
      {
        var kind := CallAuctionEventKind.RemainderCancelled(cancellations[k]);
        assert kinds + RemainderKinds(cancellations[..k + 1]) == kinds + RemainderKinds(cancellations[..k]) + [kind];
        StampNext(kinds + RemainderKinds(cancellations[..k]), kind, command, first);
        events := PushEvent(command, kind, events);
      }
      assert cancellations[..|cancellations|] == cancellations;
    }

    method ApplyUncross(command: CallAuctionCommand, auctionId: AuctionId, revision: u64, prepared: PreparedCallAuctionUncross) returns (r: Applied)
      requires book.Valid() && prepared in book.issued && prepared.bookInstanceId == book.instanceId && prepared.stateRevision == book.stateRevision
      requires nextEventSequence + |prepared.trades| + |prepared.cancellations| < U64_MAX
      modifies book, this`phase, this`phaseRevision, this`activeAuctionId, this`nextEventSequence
      ensures IsPreparation(old(book.Model()), prepared)
      ensures TradeIdsFit(old(book.Model()), prepared.plan.clearing, prepared.policy.allocation)
      ensures book.Valid() && book.Model() == Uncrossed(old(book.Model()), prepared.plan.clearing, prepared.policy)
      ensures PhaseSnapshot() == CallAuctionPhaseSnapshot(Closed, revision, None, lastAuctionId)
      ensures nextEventSequence == old(nextEventSequence) + |prepared.trades| + |prepared.cancellations| + 1
      ensures r == Ok(Stamped(UncrossKinds(auctionId, revision, prepared), command, old(nextEventSequence)))
    {
      hide *;
      book.Unfold();
      ghost var m, first := book.Model(), nextEventSequence;
      var committed := book.CommitUncross(prepared);
      CommitAnswered(committed, m, book.instanceId, prepared, book.Model());
      match committed {
        case Err(error) =>
          assert false;
          return Err(UncrossCommit(error));
        case Ok(_) =>
      }
      UncrossKindsSplit(auctionId, revision, prepared);
      var events := PushTrades(command, prepared.trades);
      events := PushRemainders(command, prepared.cancellations, events, TradeKinds(prepared.trades), first);
      phase, phaseRevision, activeAuctionId := Closed, revision, None;
      var last := UncrossCompleted(auctionId, prepared.plan.clearing, prepared.policy, |prepared.trades|, |prepared.cancellations|,
                                   prepared.nextStateRevision, revision);
      StampNext(TradeKinds(prepared.trades) + RemainderKinds(prepared.cancellations), last, command, first);
      events := PushEvent(command, last, events);
      SnapshotIs(this);
      return Ok(events);
    }

    /** Carries one action out: the book, phase and indication move, and its events are numbered. */
    method ApplyPreparedAction(command: CallAuctionCommand, action: PreparedAction, ghost s: EngineState) returns (r: Applied)
      requires Sound() && s == State() && s.book.Valid() && s.book.definition.Valid() && ActionFits(s, command, action) && Committable(s, command, action)
      requires action.UncrossAction? ==>
                 action.prepared in book.issued && action.prepared.bookInstanceId == book.instanceId && action.prepared.stateRevision == book.stateRevision
      requires Applicable(s.book, action) && HasRoom(s, action) && |EventKinds(s, command, action)| <= MaximumEvents(action)
      modifies book, this`phase, this`phaseRevision, this`activeAuctionId, this`lastAuctionId, this`lastIndicative, this`nextEventSequence
      ensures book.Valid() && book.Model() == BookAfter(s.book, action)
      ensures PhaseSnapshot() == PhaseAfter(s.phase, action) && lastIndicative == IndicativeAfter(s.lastIndicative, action)
      ensures nextEventSequence == s.nextEventSequence + |EventKinds(s, command, action)|
      ensures r == Ok(Stamped(EventKinds(s, command, action), command, s.nextEventSequence))
    {
      hide *;
      Unfold();
      CommittableFacts(s, command, action);
      RoomFacts(s, action);
      book.Unfold();
      match action {
        case RejectedAction(reason) =>
          RejectionDoes(s, command, action);
          StampOne(CommandRejected(reason), command, nextEventSequence);
          var events := PushEvent(command, CommandRejected(reason), []);
          r := Ok(events);
        case PhaseTransition(source, resulting) =>
          PhaseDoes(s, command, action);
          r := ApplyPhaseControl(command, source, resulting);
        case SubmitAction(accepted) =>
          SubmitDoes(s, command, action);
          r := ApplySubmit(command, accepted);
        case CancelAction(order) =>
          CancelDoes(s, command, action);
          r := ApplyCancel(command, order);
        case MassCancelAction(accountId, scope, preflight) =>
          MassCancelDoes(s, command, action);
          r := ApplyMassCancel(command, accountId, scope, preflight);
        case AmendAction(previous, newQuantity) =>
          AmendDoes(s, command, action);
          r := ApplyAmend(command, previous, newQuantity);
        case ReplaceAction(target, replacement) =>
          ReplaceDoes(s, command, action);
          r := ApplyReplace(command, target, replacement);
        case IndicativeAction(state) =>
          IndicativeDoes(s, command, action);
          r := ApplyIndicative(command, state);
        case UncrossAction(auctionId, revision, prepared) =>
          UncrossDoes(s, command, action);
          r := ApplyUncross(command, auctionId, revision, prepared);
      }
      SnapshotIs(this);
      if !action.RejectedAction? && !action.IndicativeAction? {
        lastIndicative := None;
      }
      SnapshotIs(this);
      IndicationMoves(s, action);
      book.Unfold();
    }

    // ----- preparing

    method PrepareIndicative(command: CallAuctionCommand, ghost s: EngineState) returns (r: Decision)
      requires Sound() && s == State() && s.book.Valid() && command.Indicative?
      modifies book`indicated
      ensures book.Valid() && book.Model() == s.book && r == DecideIndicative(s, command)
    {
      hide *;
      Unfold();
      EngineFacts(s);
      IndicativeUnfolds(s, command);
      var rejection := IndicativeRejection(PhaseSnapshot(), book.definition, command);
      if rejection.Some? {
        return Ok(RejectedAction(rejection.value));
      }
      book.Unfold();
      var clearing := book.IndicativeClearing(command.priceBand, command.referencePrice, command.pricePolicy);
      book.Unfold();
      ClearingAnswers(clearing, s, book.instanceId, command.priceBand, command.referencePrice, command.pricePolicy);
      match clearing {
        case Err(error) => return Err(DiscoveryFailed(error));
        case Ok(found) =>
          var state := CallAuctionIndicativeState(command.auctionId, phaseRevision, book.stateRevision, command.priceBand, command.referencePrice,
            command.pricePolicy, if found.Some? then Some(found.value.clearing) else None);
          return Ok(IndicativeAction(state));
      }
    }

    /** Prepares the uncross of a book that crosses at its own clearing state. */
    method PrepareCrossing(command: CallAuctionCommand, indicative: CallAuctionIndicative, ghost s: EngineState) returns (r: Decision)
      requires book.Valid() && book.Model() == s.book && command.Uncross? && indicative in book.indicated && ClearsAt(s.book, indicative.clearing)
      requires indicative.bookInstanceId == book.instanceId && indicative.stateRevision == book.stateRevision && s.phase.revision == phaseRevision
      modifies book`buyOrderScratch, book`sellOrderScratch, book`availableLeases, book`issued, book`leased
      ensures book.Valid() && book.Model() == s.book && old(book.issued) <= book.issued
      ensures r == DecideCrossing(s, book.instanceId, old(book.availableLeases), command, indicative.clearing)
      ensures r.Ok? && r.value.UncrossAction? ==>
                r.value.prepared in book.issued && r.value.prepared.bookInstanceId == book.instanceId && r.value.prepared.stateRevision == book.stateRevision
    {
      hide *;
      book.Unfold();
      if phaseRevision == U64_MAX {
        ExhaustedCrossing(s, book.instanceId, book.availableLeases, command, indicative.clearing);
        return Err(PhaseRevisionExhausted);
      }
      ghost var leases := book.availableLeases;
      var prepared := book.PrepareUncross(indicative, command.uncrossPolicy);
      book.Unfold();
      PreparedAnswers(prepared, s, book.instanceId, leases, indicative, command);
      match prepared {
        case Ok(t) => return Ok(UncrossAction(command.auctionId, phaseRevision + 1, t));
        case Err(SelfTradeWouldOccur(_, _, _, _)) => return Ok(RejectedAction(SelfTradeRefused));
        case Err(error) => return Err(UncrossPreparation(error));
      }
    }

    method PrepareUncrossCommand(command: CallAuctionCommand, ghost s: EngineState) returns (r: Decision)
      requires Sound() && s == State() && s.book.Valid() && command.Uncross?
      modifies book`indicated, book`buyOrderScratch, book`sellOrderScratch, book`availableLeases, book`issued, book`leased
      ensures book.Valid() && book.Model() == s.book && old(book.issued) <= book.issued
      ensures r == DecideUncross(s, book.instanceId, old(book.availableLeases), command)
      ensures r.Ok? && r.value.UncrossAction? ==>
                r.value.prepared in book.issued && r.value.prepared.bookInstanceId == book.instanceId && r.value.prepared.stateRevision == book.stateRevision
    {
      hide *;
      Unfold();
      EngineFacts(s);
      UncrossUnfolds(s, book.instanceId, book.availableLeases, command);
      var rejection := UncrossRejection(PhaseSnapshot(), command);
      if rejection.Some? {
        return Ok(RejectedAction(rejection.value));
      }
      book.Unfold();
      var clearing := book.IndicativeClearing(command.priceBand, command.referencePrice, command.pricePolicy);
      book.Unfold();
      ClearingAnswers(clearing, s, book.instanceId, command.priceBand, command.referencePrice, command.pricePolicy);
      match clearing {
        case Err(error) => return Err(DiscoveryFailed(error));
        case Ok(found) =>
          match found {
            case None => return Ok(RejectedAction(NoExecutableInterest));
            case Some(indicative) =>
              r := PrepareCrossing(command, indicative, s);
          }
      }
    }

    /** Decides a new command; only an uncross touches the book, and only its scratch and leases. */
    method PrepareAction(command: CallAuctionCommand, ghost s: EngineState) returns (r: Decision)
      requires Sound() && s == State() && s.book.Valid()
      modifies book`indicated, book`buyOrderScratch, book`sellOrderScratch, book`availableLeases, book`issued, book`leased
      ensures book.Valid() && book.Model() == s.book && old(book.issued) <= book.issued
      ensures r == Decide(s, book.instanceId, old(book.availableLeases), command)
      ensures r.Ok? && r.value.UncrossAction? ==>
                r.value.prepared in book.issued && r.value.prepared.bookInstanceId == book.instanceId && r.value.prepared.stateRevision == book.stateRevision
    {
      hide *;
      Unfold();
      EngineFacts(s);
      book.Unfold();
      DecideUnfolds(s, book.instanceId, book.availableLeases, command);
      var route := RouteRejection(book.definition, command);
      if route.Some? {
        return Ok(RejectedAction(route.value));
      }
      EntriesUnfold(s, command);
      match command {
        case PhaseControl(_, _, _, _, _, _, _) =>
          r := DecidePhase(PhaseSnapshot(), command);
          OnlyUncrossesUncross(s, command, r);
        case Submit(_, auctionId, revision, order, _) =>
          var rejection := CollectionRejection(PhaseSnapshot(), revision, auctionId, SubmitOrder);
          if rejection.Some? {
            return Ok(RejectedAction(rejection.value));
          }
          var answer := book.PreflightAdmission(order);
          r := FromAdmission(answer);
          OnlyUncrossesUncross(s, command, r);
        case Cancel(_, _, _, accountId, orderId, _) =>
          var answer := book.PreflightCancel(accountId, orderId);
          r := FromCancellation(answer);
          OnlyUncrossesUncross(s, command, r);
        case MassCancel(_, _, _, accountId, scope, _) =>
          var answer := book.PreflightMassCancel(accountId, scope);
          r := FromMassCancel(accountId, scope, answer);
          OnlyUncrossesUncross(s, command, r);
        case Amend(_, _, _, auctionId, revision, accountId, orderId, newQuantity, _) =>
          var rejection := CollectionRejection(PhaseSnapshot(), revision, auctionId, AmendOrder);
          if rejection.Some? {
            return Ok(RejectedAction(rejection.value));
          }
          var answer := book.PreflightAmend(accountId, orderId, newQuantity);
          r := FromAmendment(newQuantity, answer);
          OnlyUncrossesUncross(s, command, r);
        case Replace(_, auctionId, revision, accountId, target, replacement, _) =>
          var rejection := CollectionRejection(PhaseSnapshot(), revision, auctionId, ReplaceOrder);
          if rejection.Some? {
            return Ok(RejectedAction(rejection.value));
          }
          var answer := book.PreflightReplace(accountId, target, replacement);
          r := FromReplacement(answer);
          OnlyUncrossesUncross(s, command, r);
        case Indicative(_, _, _, _, _, _, _, _, _) =>
          r := PrepareIndicative(command, s);
          OnlyUncrossesUncross(s, command, r);
        case Uncross(_, _, _, _, _, _, _, _, _, _) =>
          r := PrepareUncrossCommand(command, s);
      }
    }

    /** Every capacity and sequence check, in order. */
    method CheckCapacity(action: PreparedAction) returns (error: Option<CallAuctionEngineError>)
      requires RangesFit(eventArena, reports) && limits.Valid() && State().limits.Valid()
      ensures error == CapacityError(State(), action)
    {
      if |reports| >= limits.retainedCommands {
        return Some(CapacityExhausted(CommandHistory));
      }
      if |reports| >= limits.OrdinaryCommandCapacity() && !IsTerminal(action) {
        return Some(CapacityExhausted(AdmissionCommandHistory));
      }
      var maximumEvents := MaximumEvents(action);
      if maximumEvents > limits.reportEvents {
        return Some(CapacityExhausted(ReportEvents));
      }
      var final := |eventArena| + maximumEvents;
      if final > U64_MAX {
        return Some(SequenceExhausted);
      }
      if final > limits.retainedEvents {
        return Some(CapacityExhausted(RetainedEvents));
      }
      if final > limits.OrdinaryEventCapacity() && !IsTerminal(action) {
        return Some(CapacityExhausted(AdmissionEventHistory));
      }
      if nextCommandSequence == U64_MAX || nextEventSequence + maximumEvents > U64_MAX {
        return Some(SequenceExhausted);
      }
      return None;
    }

    /** Hands out the token of a decided action if there is capacity for it. */
    method Issue(command: CallAuctionCommand, action: PreparedAction, ghost s: EngineState, ghost leases: usize)
      returns (r: Result<CallAuctionCommandPreparation, CallAuctionEngineError>)
      requires Sound() && s == State() && s.book.Valid() && s.limits.Valid() && TokensHold(s, book.issued, book.instanceId, instanceId, issued)
      requires Decide(s, book.instanceId, leases, command) == Ok(action)
      requires action.UncrossAction? ==>
                 action.prepared in book.issued && action.prepared.bookInstanceId == book.instanceId && action.prepared.stateRevision == book.stateRevision
      modifies this`issued
      ensures Valid() && State() == s
      ensures r == if CapacityError(s, action).Some? then Err(CapacityError(s, action).value)
                   else Ok(Prepared(PreparedCallAuctionCommand(command, instanceId, |s.history|, |s.events|, action)))
      ensures issued == old(issued) + (if r.Ok? && r.value.Prepared? then {r.value.token} else {})
    {
      hide *;
      Unfold();
      var capacity := CheckCapacity(action);
      if capacity.Some? {
        return Err(capacity.value);
      }
      var token := PreparedCallAuctionCommand(command, instanceId, |reports|, |eventArena|, action);
      NewToken(s, book.issued, book.instanceId, leases, instanceId, issued, token);
      issued := issued + {token};
      Unfold();
      r := Ok(Prepared(token));
    }

    /** Prepares one command without changing any state a report depends on: an exact retry replays,
        a new command yields a token bound to the history so far. */
    method Prepare(command: CallAuctionCommand) returns (r: Result<CallAuctionCommandPreparation, CallAuctionEngineError>)
      requires Valid()
      modifies this`issued, book`indicated, book`buyOrderScratch, book`sellOrderScratch, book`availableLeases, book`issued, book`leased
      ensures Valid() && State() == old(State())
      ensures PreparesAs(r, old(State()), book.instanceId, old(book.availableLeases), instanceId, command)
      ensures issued == old(issued) + (if r.Ok? && r.value.Prepared? then {r.value.token} else {})
    {
      hide *;
      Unfold();
      ghost var s, bookIssued := State(), book.issued;
      EngineFacts(s);
      PreparesAsIs(s, book.instanceId, book.availableLeases, instanceId, command);
      LookupIsRetained(eventArena, reports, reportIndex, command.commandId);
      if command.commandId in reportIndex {
        IndexLeads(eventArena, reports, reportIndex, command.commandId);
        var cached := reports[reportIndex[command.commandId]];
        if cached.command != command {
          return Err(CommandIdCollision(command.commandId));
        }
        return Ok(Replayed(ReportAt(eventArena, cached).(replayed := true)));
      }
      ghost var leases := book.availableLeases;
      var decision := PrepareAction(command, s);
      Unfold();
      TokensKeep(s, bookIssued, book.issued, book.instanceId, instanceId, issued);
      match decision {
        case Err(error) =>
          r := Err(error);
        case Ok(action) =>
          r := Issue(command, action, s, leases);
      }
    }

    // ----- committing

    /** Applies an action and retains its report in the next range of the event arena. */
    method CommitReady(command: CallAuctionCommand, action: PreparedAction, ghost s: EngineState) returns (r: Answer)
      requires Sound() && s == State() && s.book.Valid() && s.book.definition.Valid() && ActionFits(s, command, action) && Committable(s, command, action)
      requires command.commandId !in reportIndex
      requires action.UncrossAction? ==>
                 action.prepared in book.issued && action.prepared.bookInstanceId == book.instanceId && action.prepared.stateRevision == book.stateRevision
      modifies this, book
      ensures Sound() && issued == old(issued) && CommitsExactly(r, s, State(), command, action)
    {
      hide *;
      Unfold();
      CommittedIs(s, command, action);
      CommittableFacts(s, command, action);
      RoomFacts(s, action);
      CommitKeepsWellFormed(s, command, action);
      CommittedRules(s, command, action);
      if nextCommandSequence == U64_MAX {
        assert false;
        return Err(EngineInvariantViolation);
      }
      var applied := ApplyPreparedAction(command, action, s);
      match applied {
        case Err(error) =>
          assert false;
          return Err(error);
        case Ok(events) =>
          SnapshotIs(this);
          var cached := CachedCallAuctionReport(command, nextCommandSequence, OutcomeOf(action), |eventArena|, |events|);
          CacheGrows(eventArena, reports, reportIndex, cached, events);
          nextCommandSequence := nextCommandSequence + 1;
          reportIndex := reportIndex[command.commandId := |reports|];
          reports := reports + [cached];
          eventArena := eventArena + events;
          LastReport(eventArena, reports, cached, events);
          r := Ok(ReportAt(eventArena, cached));
      }
      Unfold();
      assert State() == Committed(s, command, action);
    }

    /** Commits one token of this engine and this retained history, under the gate's verdict; a
        foreign, stale, repeated or wrongly gated token changes nothing. */
    method CommitWithGate(token: PreparedCallAuctionCommand, external: Option<CallAuctionRejectReason>) returns (r: Answer)
      requires Valid() && (token.engineInstanceId == instanceId ==> token in issued)
      modifies this, book
      ensures Valid() && issued == old(issued)
      ensures CommitsAs(r, old(State()), State(), instanceId, token, external)
    {
      hide *;
      Unfold();
      ghost var s := State();
      EngineFacts(s);
      CommitsAsIs(s, instanceId, token, external);
      if token.engineInstanceId != instanceId {
        return Err(ForeignCommand);
      }
      var command := token.command;
      LookupIsRetained(eventArena, reports, reportIndex, command.commandId);
      if command.commandId in reportIndex {
        IndexLeads(eventArena, reports, reportIndex, command.commandId);
        var cached := reports[reportIndex[command.commandId]];
        if cached.command != command {
          return Err(CommandIdCollision(command.commandId));
        }
        return Ok(ReportAt(eventArena, cached).(replayed := true));
      }
      if token.expectedRetainedCommands != |reports| || token.expectedRetainedEvents != |eventArena| {
        return Err(StaleCommand);
      }
      TokenAt(s, book.issued, book.instanceId, instanceId, issued, token);
      CapacityLeavesRoom(s, token.action);
      if |reports| >= limits.retainedCommands {
        assert false;
        return Err(EngineInvariantViolation);
      }
      GateAllowsIs(command, external);
      var action := token.action;
      match external {
        case Some(reason) =>
          if !(command.Submit? || command.Replace?) || !IsExternalRiskRejection(reason) {
            return Err(EngineInvariantViolation);
          }
          if !action.RejectedAction? {
            action := RejectedAction(reason);
          }
        case None =>
      }
      GatedIsExactly(token.action, external);
      GatedCommits(s, command, token.action, external);
      GatedToken(token.action, action);
      r := CommitReady(command, action, s);
      Unfold();
      CommitGrows(r, s, State(), command, action);
      TokensExpire(s, State(), book.issued, book.instanceId, instanceId, issued);
    }
  }

  /** What a token of the current history guarantees: its action was decided in this very state,
      there is room for it, and a prepared uncross is one the book handed out. */
  ghost predicate TokenHolds(s: EngineState, bookIssued: set<PreparedCallAuctionUncross>, bookInstanceId: nat, t: PreparedCallAuctionCommand) {
    && s.book.Valid() && s.book.definition.Valid() && s.limits.Valid()
    && Committable(s, t.command, t.action) && ActionFits(s, t.command, t.action) && MaximumEvents(t.action) >= 1
    && CapacityError(s, t.action).None? && t.expectedRetainedEvents == |s.events|
    && (t.action.UncrossAction? ==>
          t.action.prepared in bookIssued && t.action.prepared.bookInstanceId == bookInstanceId && t.action.prepared.stateRevision == s.book.stateRevision)
  }

  ghost predicate TokensHold(s: EngineState, bookIssued: set<PreparedCallAuctionUncross>, bookInstanceId: nat, engineInstanceId: nat,
                             issued: set<PreparedCallAuctionCommand>) {
    forall t :: t in issued ==>
      && t.engineInstanceId == engineInstanceId && t.expectedRetainedCommands <= |s.history|
      && (t.expectedRetainedCommands == |s.history| ==> TokenHolds(s, bookIssued, bookInstanceId, t))
  }

  lemma NoTokens(s: EngineState, bookIssued: set<PreparedCallAuctionUncross>, bookInstanceId: nat, engineInstanceId: nat)
    ensures TokensHold(s, bookIssued, bookInstanceId, engineInstanceId, {})
  {
  }

  lemma NothingRetained()
    ensures RangesFit([], []) && Indexed(map[], []) && HistoryOf([], []) == []
  {
  }

  lemma GenesisIs(definition: InstrumentDefinition, limits: CallAuctionEngineLimits)
    requires definition.Valid() && limits.Valid()
    ensures Genesis(definition, limits) == EngineState(limits, EmptyBook(definition, limits.book), CallAuctionPhaseSnapshot(Closed, 0, None, None), None, 1, 1, [], [])
    ensures WellFormedEngine(Genesis(definition, limits))
  {
    hide WellFormedEngine;
  }

  lemma ActiveOrder(book: CallAuctionBook, id: OrderId)
    requires id in book.Model().active
    ensures id in book.orders && book.orders[id].order == book.Model().active[id]
  {
  }

  lemma SnapshotIs(engine: CallAuctionEngine)
    ensures engine.PhaseSnapshot() == CallAuctionPhaseSnapshot(engine.phase, engine.phaseRevision, engine.activeAuctionId, engine.lastAuctionId)
  {
  }

  lemma CommitAnswered(r: Result<(), CallAuctionCommitError>, m: BookModel, bookInstanceId: nat, t: PreparedCallAuctionUncross, n: BookModel)
    requires CommitAnswers(r, m, bookInstanceId, t, n) && t.bookInstanceId == bookInstanceId && t.stateRevision == m.stateRevision
    ensures r == Ok(()) && IsPreparation(m, t) && TradeIdsFit(m, t.plan.clearing, t.policy.allocation)
    ensures n == Uncrossed(m, t.plan.clearing, t.policy)
  {
    hide IsPreparation, TradeIdsFit, Uncrossed, ClearsAt;
  }

  lemma UncrossKindsSplit(auctionId: AuctionId, revision: u64, prepared: PreparedCallAuctionUncross)
    requires |prepared.trades| <= U64_MAX && |prepared.cancellations| <= U64_MAX
    ensures |TradeKinds(prepared.trades)| == |prepared.trades| && |RemainderKinds(prepared.cancellations)| == |prepared.cancellations|
    ensures UncrossKinds(auctionId, revision, prepared) == TradeKinds(prepared.trades) + RemainderKinds(prepared.cancellations)
              + [UncrossCompleted(auctionId, prepared.plan.clearing, prepared.policy, |prepared.trades|, |prepared.cancellations|,
                                  prepared.nextStateRevision, revision)]
  {
  }

  /** Everything the engine re-checks of a publication before it takes effect. */
  predicate IndicationStands(state: CallAuctionIndicativeState, command: CallAuctionCommand, phase: CallAuctionPhaseSnapshot, bookRevision: u64,
                             last: Option<CallAuctionIndicativeState>, definition: InstrumentDefinition)
    requires command.Indicative? && definition.Valid()
  {
    && state.bookRevision == bookRevision && phase.phase != Closed && phase.revision == command.expectedPhaseRevision
    && phase.activeAuctionId == Some(command.auctionId) && phase.lastAuctionId == phase.activeAuctionId
    && state.auctionId == command.auctionId && state.phaseRevision == phase.revision && state.priceBand == command.priceBand
    && state.referencePrice == command.referencePrice && state.pricePolicy == command.pricePolicy && state.IsValidFor(definition)
    && (last.Some? ==> last.value.auctionId == command.auctionId && last.value.phaseRevision == phase.revision
                       && last.value.bookRevision == state.bookRevision && last.value.IsValidFor(definition))
  }

  lemma IndicationMoves(s: EngineState, action: PreparedAction)
    ensures IndicativeAfter(s.lastIndicative, action) ==
              match action case RejectedAction(_) => s.lastIndicative case IndicativeAction(state) => Some(state) case _ => None
  {
  }

  lemma RejectionDoes(s: EngineState, command: CallAuctionCommand, action: PreparedAction)
    requires action.RejectedAction? && Applicable(s.book, action) && MaximumEvents(action) <= U64_MAX
    ensures BookAfter(s.book, action) == s.book && PhaseAfter(s.phase, action) == s.phase && MaximumEvents(action) == 1
    ensures EventKinds(s, command, action) == [CommandRejected(action.reason)]
  {
  }

  lemma PhaseDoes(s: EngineState, command: CallAuctionCommand, action: PreparedAction)
    requires action.PhaseTransition? && Applicable(s.book, action) && MaximumEvents(action) <= U64_MAX
    requires s.book.Valid() && s.book.definition.Valid() && ActionFits(s, command, action)
    ensures command.PhaseControl? && DecidePhase(s.phase, command) == Ok(action) && MaximumEvents(action) == 1
    ensures BookAfter(s.book, action) == s.book && PhaseAfter(s.phase, action) == action.resulting
    ensures EventKinds(s, command, action) == [PhaseChanged(command.auctionId, action.source.phase, action.resulting.phase, action.resulting.revision)]
  {
    hide BookModel.Valid, InstrumentDefinition.Valid, DecidePhase;
  }

  lemma SubmitDoes(s: EngineState, command: CallAuctionCommand, action: PreparedAction)
    requires action.SubmitAction? && Applicable(s.book, action) && MaximumEvents(action) <= U64_MAX
    requires s.book.Valid() && s.book.definition.Valid() && ActionFits(s, command, action)
    ensures command.Submit? && Admission(s.book, command.order) == Ok(action.accepted) && MaximumEvents(action) == 1
    ensures s.book.nextPrioritySequence < U64_MAX && s.book.stateRevision < U64_MAX
    ensures BookAfter(s.book, action) == Admitted(s.book, action.accepted) && PhaseAfter(s.phase, action) == s.phase
    ensures EventKinds(s, command, action) == [OrderAccepted(action.accepted)]
  {
    hide BookModel.Valid, InstrumentDefinition.Valid, Admission, Admitted;
  }

  lemma CancelDoes(s: EngineState, command: CallAuctionCommand, action: PreparedAction)
    requires action.CancelAction? && Applicable(s.book, action) && MaximumEvents(action) <= U64_MAX
    requires s.book.Valid() && s.book.definition.Valid() && ActionFits(s, command, action)
    ensures command.Cancel? && Cancellation(s.book, command.accountId, command.orderId) == Ok(action.cancelled) && MaximumEvents(action) == 1
    ensures s.book.stateRevision < U64_MAX
    ensures BookAfter(s.book, action) == WithoutOrders(s.book, {action.cancelled.orderId}) && PhaseAfter(s.phase, action) == s.phase
    ensures EventKinds(s, command, action) == [OrderCancelled(action.cancelled, UserRequested)]
  {
    hide BookModel.Valid, InstrumentDefinition.Valid, Cancellation, WithoutOrders;
  }

  lemma MassCancelDoes(s: EngineState, command: CallAuctionCommand, action: PreparedAction)
    requires action.MassCancelAction? && Applicable(s.book, action) && MaximumEvents(action) <= U64_MAX
    requires s.book.Valid() && s.book.definition.Valid() && ActionFits(s, command, action)
    ensures MassCancelOutcome(s.book, action.accountId, action.scope) == Ok(action.preflight)
    ensures action.preflight.cancelledOrderCount <= s.book.limits.maxActiveOrders && MaximumEvents(action) == action.preflight.cancelledOrderCount + 1
    ensures Selected(s.book, action.accountId, action.scope) != {} ==> s.book.stateRevision < U64_MAX
    ensures Selected(s.book, action.accountId, action.scope) <= s.book.active.Keys
    ensures BookAfter(s.book, action) == AbstractBook.MassCancelled(s.book, action.accountId, action.scope) && PhaseAfter(s.phase, action) == s.phase
    ensures EventKinds(s, command, action) == MassCancelKinds(s.book, action.accountId, action.scope, action.preflight)
  {
    hide BookModel.Valid, InstrumentDefinition.Valid, MassCancelOutcome, AbstractBook.MassCancelled, Selected, MassCancelKinds;
    MassCancelRoom(s.book, action.accountId, action.scope, action.preflight);
    SelectionWithinActive(s.book, action.accountId, action.scope);
  }

  lemma SelectionWithinActive(m: BookModel, accountId: AccountId, scope: MassCancelScope)
    requires m.Valid()
    ensures |Selected(m, accountId, scope)| <= m.limits.maxActiveOrders
  {
    SubsetSize(Selected(m, accountId, scope), m.active.Keys);
    assert |m.active| == |m.active.Keys|;
  }

  lemma AmendDoes(s: EngineState, command: CallAuctionCommand, action: PreparedAction)
    requires action.AmendAction? && Applicable(s.book, action) && MaximumEvents(action) <= U64_MAX
    requires s.book.Valid() && s.book.definition.Valid() && ActionFits(s, command, action)
    ensures command.Amend? && action.newQuantity == command.newQuantity && MaximumEvents(action) == 1
    ensures Amendment(s.book, command.accountId, command.orderId, action.newQuantity) == Ok(action.previous)
    ensures action.previous.orderId in s.book.active && s.book.stateRevision < U64_MAX
    ensures BookAfter(s.book, action) == Amended(s.book, action.previous.orderId, action.newQuantity) && PhaseAfter(s.phase, action) == s.phase
    ensures EventKinds(s, command, action) ==
              [OrderAmended(action.previous.(quantity := action.newQuantity), action.previous.quantity, s.book.stateRevision + 1)]
  {
    hide BookModel.Valid, InstrumentDefinition.Valid, Amendment;
  }

  lemma ReplaceDoes(s: EngineState, command: CallAuctionCommand, action: PreparedAction)
    requires action.ReplaceAction? && Applicable(s.book, action) && MaximumEvents(action) <= U64_MAX
    requires s.book.Valid() && s.book.definition.Valid() && ActionFits(s, command, action)
    ensures command.Replace? && MaximumEvents(action) == 2
    ensures ReplacementOutcome(s.book, command.accountId, command.targetOrderId, command.replacement) == Ok((action.target, action.replacement))
    ensures s.book.nextPrioritySequence < U64_MAX && s.book.stateRevision < U64_MAX
    ensures WithoutTarget(s.book, action.target.orderId).nextPrioritySequence < U64_MAX && WithoutTarget(s.book, action.target.orderId).stateRevision < U64_MAX
    ensures BookAfter(s.book, action) == Admitted(WithoutTarget(s.book, action.target.orderId), action.replacement) && PhaseAfter(s.phase, action) == s.phase
    ensures EventKinds(s, command, action) == [OrderCancelled(action.target, ByReplacement), OrderAccepted(action.replacement)]
  {
    hide BookModel.Valid, InstrumentDefinition.Valid, ReplacementOutcome, Admitted;
  }

  lemma IndicativeDoes(s: EngineState, command: CallAuctionCommand, action: PreparedAction)
    requires action.IndicativeAction? && Applicable(s.book, action) && MaximumEvents(action) <= U64_MAX
    requires WellFormedEngine(s) && s.book.Valid() && s.book.definition.Valid() && ActionFits(s, command, action) && Committable(s, command, action)
    ensures command.Indicative? && MaximumEvents(action) == 1
    ensures IndicationStands(action.state, command, s.phase, s.book.stateRevision, s.lastIndicative, s.book.definition)
    ensures BookAfter(s.book, action) == s.book && PhaseAfter(s.phase, action) == s.phase
    ensures EventKinds(s, command, action) == [IndicativePublished(action.state)]
  {
    hide BookModel.Valid, InstrumentDefinition.Valid, CallAuctionIndicativeState.IsValidFor, Discovered, BookAfter, CallAuctionEngineLimits.Valid;
    RejectionBook(s.book, action);
  }

  lemma RejectionBook(m: BookModel, action: PreparedAction)
    requires Applicable(m, action) && (action.IndicativeAction? || action.RejectedAction?)
    ensures BookAfter(m, action) == m
  {
  }

  lemma UncrossDoes(s: EngineState, command: CallAuctionCommand, action: PreparedAction)
    requires action.UncrossAction? && Applicable(s.book, action) && MaximumEvents(action) <= U64_MAX
    ensures MaximumEvents(action) == |action.prepared.trades| + |action.prepared.cancellations| + 1
    ensures |EventKinds(s, command, action)| == MaximumEvents(action)
    ensures IsPreparation(s.book, action.prepared) && TradeIdsFit(s.book, action.prepared.plan.clearing, action.prepared.policy.allocation)
    ensures BookAfter(s.book, action) == Uncrossed(s.book, action.prepared.plan.clearing, action.prepared.policy)
    ensures PhaseAfter(s.phase, action) == CallAuctionPhaseSnapshot(Closed, action.phaseRevision, None, s.phase.lastAuctionId)
    ensures EventKinds(s, command, action) == UncrossKinds(action.auctionId, action.phaseRevision, action.prepared)
  {
    hide IsPreparation, TradeIdsFit, Uncrossed, ClearsAt, UncrossKinds;
    UncrossKindsSplit(action.auctionId, action.phaseRevision, action.prepared);
  }

  lemma IndicativeUnfolds(s: EngineState, command: CallAuctionCommand)
    requires s.book.Valid() && s.book.definition.Valid() && command.Indicative?
    ensures DecideIndicative(s, command) ==
              match IndicativeRejection(s.phase, s.book.definition, command)
              case Some(reason) => Ok(RejectedAction(reason))
              case None =>
                match BandError(s.book.definition, command.priceBand, command.referencePrice)
                case Some(error) => Err(DiscoveryFailed(error))
                case None =>
                  Ok(IndicativeAction(CallAuctionIndicativeState(command.auctionId, s.phase.revision, s.book.stateRevision, command.priceBand,
                    command.referencePrice, command.pricePolicy, Discovered(s, command.priceBand, command.referencePrice, command.pricePolicy))))
  {
    hide BookModel.Valid, InstrumentDefinition.Valid, IndicativeRejection, BandError, Discovered;
  }

  lemma UncrossUnfolds(s: EngineState, bookInstanceId: nat, leases: usize, command: CallAuctionCommand)
    requires s.book.Valid() && s.book.definition.Valid() && command.Uncross?
    ensures var best := Discovered(s, command.priceBand, command.referencePrice, command.pricePolicy);
            && (best.Some? ==> ClearsAt(s.book, best.value))
            && DecideUncross(s, bookInstanceId, leases, command) ==
                 match UncrossRejection(s.phase, command)
                 case Some(reason) => Ok(RejectedAction(reason))
                 case None =>
                   match BandError(s.book.definition, command.priceBand, command.referencePrice)
                   case Some(error) => Err(DiscoveryFailed(error))
                   case None =>
                     match best
                     case None => Ok(RejectedAction(NoExecutableInterest))
                     case Some(c) => DecideCrossing(s, bookInstanceId, leases, command, c)
  {
    hide BookModel.Valid, InstrumentDefinition.Valid, UncrossRejection, BandError, Discovered, DecideCrossing, ClearsAt;
    DiscoveredClears(s, command.priceBand, command.referencePrice, command.pricePolicy);
  }

  lemma DecideUnfolds(s: EngineState, bookInstanceId: nat, leases: usize, command: CallAuctionCommand)
    requires s.book.Valid() && s.book.definition.Valid()
    ensures Decide(s, bookInstanceId, leases, command) ==
              match RouteRejection(s.book.definition, command)
              case Some(reason) => Ok(RejectedAction(reason))
              case None =>
                match command
                case PhaseControl(_, _, _, _, _, _, _) => DecidePhase(s.phase, command)
                case Submit(_, _, _, _, _) => DecideSubmit(s, command)
                case Cancel(_, _, _, _, _, _) => DecideCancel(s, command)
                case MassCancel(_, _, _, _, _, _) => DecideMassCancel(s, command)
                case Amend(_, _, _, _, _, _, _, _, _) => DecideAmend(s, command)
                case Replace(_, _, _, _, _, _, _) => DecideReplace(s, command)
                case Indicative(_, _, _, _, _, _, _, _, _) => DecideIndicative(s, command)
                case Uncross(_, _, _, _, _, _, _, _, _, _) => DecideUncross(s, bookInstanceId, leases, command)
  {
    hide BookModel.Valid, InstrumentDefinition.Valid, RouteRejection, DecidePhase, DecideSubmit, DecideCancel, DecideMassCancel, DecideAmend,
      DecideReplace, DecideIndicative, DecideUncross;
  }

  lemma EntriesUnfold(s: EngineState, command: CallAuctionCommand)
    requires s.book.Valid() && s.book.definition.Valid()
    ensures command.Cancel? ==> DecideCancel(s, command) == FromCancellation(Cancellation(s.book, command.accountId, command.orderId))
    ensures command.MassCancel? ==>
              DecideMassCancel(s, command) == FromMassCancel(command.accountId, command.scope, MassCancelOutcome(s.book, command.accountId, command.scope))
    ensures command.Submit? ==>
              DecideSubmit(s, command) ==
                match CollectionRejection(s.phase, command.expectedPhaseRevision, command.auctionId, SubmitOrder)
                case Some(reason) => Ok(RejectedAction(reason))
                case None => FromAdmission(Admission(s.book, command.order))
    ensures command.Amend? ==>
              DecideAmend(s, command) ==
                match CollectionRejection(s.phase, command.expectedPhaseRevision, command.auctionId, AmendOrder)
                case Some(reason) => Ok(RejectedAction(reason))
                case None => FromAmendment(command.newQuantity, Amendment(s.book, command.accountId, command.orderId, command.newQuantity))
    ensures command.Replace? ==>
              DecideReplace(s, command) ==
                match CollectionRejection(s.phase, command.expectedPhaseRevision, command.auctionId, ReplaceOrder)
                case Some(reason) => Ok(RejectedAction(reason))
                case None => FromReplacement(ReplacementOutcome(s.book, command.accountId, command.targetOrderId, command.replacement))
  {
    hide BookModel.Valid, InstrumentDefinition.Valid, CollectionRejection, Admission, Cancellation, Amendment, ReplacementOutcome, MassCancelOutcome,
      FromAdmission, FromCancellation, FromMassCancel, FromAmendment, FromReplacement;
  }

  /** No other handler decides an uncross. */
  lemma OnlyUncrossesUncross(s: EngineState, command: CallAuctionCommand, r: Decision)
    requires s.book.Valid() && s.book.definition.Valid()
    requires match command
             case PhaseControl(_, _, _, _, _, _, _) => r == DecidePhase(s.phase, command)
             case Submit(_, _, _, order, _) => r == FromAdmission(Admission(s.book, order))
             case Cancel(_, _, _, accountId, orderId, _) => r == FromCancellation(Cancellation(s.book, accountId, orderId))
             case MassCancel(_, _, _, accountId, scope, _) => r == FromMassCancel(accountId, scope, MassCancelOutcome(s.book, accountId, scope))
             case Amend(_, _, _, _, _, accountId, orderId, newQuantity, _) => r == FromAmendment(newQuantity, Amendment(s.book, accountId, orderId, newQuantity))
             case Replace(_, _, _, accountId, target, replacement, _) => r == FromReplacement(ReplacementOutcome(s.book, accountId, target, replacement))
             case Indicative(_, _, _, _, _, _, _, _, _) => r == DecideIndicative(s, command)
             case Uncross(_, _, _, _, _, _, _, _, _, _) => false
    ensures r.Ok? ==> !r.value.UncrossAction?
  {
    hide BookModel.Valid, InstrumentDefinition.Valid, Admission, Cancellation, Amendment, ReplacementOutcome, MassCancelOutcome, IndicativeRejection,
      BandError, Discovered;
  }

  /** How the book's clearing answer reads at the engine. */
  lemma ClearingAnswers(r: Result<Option<CallAuctionIndicative>, AuctionError>, s: EngineState, bookInstanceId: nat, band: AuctionPriceBand,
                        reference: Price, policy: AuctionPricePolicy)
    requires s.book.Valid() && s.book.definition.Valid() && Uncross.Grid(s.book).Valid() && Fits(s.book.active)
    requires r.Ok? <==> BandIsAligned(s.book, band, reference)
    requires r.Ok? ==> r.value == match BookDiscovery(s.book.active, Uncross.Grid(s.book), band, reference, policy)
                                  case None => None
                                  case Some(c) => Some(CallAuctionIndicative(bookInstanceId, s.book.stateRevision, c))
    requires r.Err? ==> IsBandError(r.error, s.book, band, reference)
    ensures match r
            case Err(error) => BandError(s.book.definition, band, reference) == Some(error)
            case Ok(found) =>
              && BandError(s.book.definition, band, reference).None?
              && Discovered(s, band, reference, policy) == (if found.Some? then Some(found.value.clearing) else None)
              && (found.Some? ==> found.value.bookInstanceId == bookInstanceId && found.value.stateRevision == s.book.stateRevision)
  {
    hide BookModel.Valid, BookDiscovery, Fits;
  }

  lemma PreparedAnswers(r: Result<PreparedCallAuctionUncross, CallAuctionPrepareError>, s: EngineState, bookInstanceId: nat, leases: usize,
                        indicative: CallAuctionIndicative, command: CallAuctionCommand)
    requires command.Uncross? && ClearsAt(s.book, indicative.clearing) && s.phase.revision < U64_MAX
    requires indicative.bookInstanceId == bookInstanceId && indicative.stateRevision == s.book.stateRevision
    requires PrepareAnswers(r, s.book, bookInstanceId, leases, indicative, command.uncrossPolicy)
    ensures DecideCrossing(s, bookInstanceId, leases, command, indicative.clearing) ==
              match r
              case Ok(t) => Ok(UncrossAction(command.auctionId, s.phase.revision + 1, t))
              case Err(SelfTradeWouldOccur(_, _, _, _)) => Ok(RejectedAction(SelfTradeRefused))
              case Err(error) => Err(UncrossPreparation(error))
    ensures r.Ok? ==> r.value.bookInstanceId == bookInstanceId && r.value.stateRevision == s.book.stateRevision
  {
    hide ClearsAt, SideFills, SideRemainders, PairsOf, PreparedTrades, SelfPairOf, TradeIdsFit;
  }

  lemma ExhaustedCrossing(s: EngineState, bookInstanceId: nat, leases: usize, command: CallAuctionCommand, c: AuctionClearing)
    requires command.Uncross? && ClearsAt(s.book, c) && s.phase.revision == U64_MAX
    ensures DecideCrossing(s, bookInstanceId, leases, command, c) == Err(PhaseRevisionExhausted)
  {
    hide ClearsAt;
  }

  /** What preparing a command answers: the modelled decision, as a token bound to this history. */
  ghost predicate PreparesAs(r: Result<CallAuctionCommandPreparation, CallAuctionEngineError>, s: EngineState, bookInstanceId: nat, leases: usize,
                             engineInstanceId: nat, command: CallAuctionCommand) {
    && s.book.Valid() && s.limits.Valid()
    && match EngineModel.Prepare(s, bookInstanceId, leases, command)
       case Err(error) => r == Err(error)
       case Ok(Replay(report)) => r == Ok(Replayed(report))
       case Ok(Ready(action)) => r == Ok(Prepared(PreparedCallAuctionCommand(command, engineInstanceId, |s.history|, |s.events|, action)))
  }

  lemma PreparesAsIs(s: EngineState, bookInstanceId: nat, leases: usize, engineInstanceId: nat, command: CallAuctionCommand)
    requires s.book.Valid() && s.limits.Valid()
    ensures forall r {:trigger PreparesAs(r, s, bookInstanceId, leases, engineInstanceId, command)} ::
              PreparesAs(r, s, bookInstanceId, leases, engineInstanceId, command) <==>
                match Retained(s.history, command.commandId)
                case Some(entry) => r == (if entry.command != command then Err(CommandIdCollision(command.commandId)) else Ok(Replayed(entry.report.(replayed := true))))
                case None =>
                  match Decide(s, bookInstanceId, leases, command)
                  case Err(error) => r == Err(error)
                  case Ok(action) =>
                    if CapacityError(s, action).Some? then r == Err(CapacityError(s, action).value)
                    else r == Ok(Prepared(PreparedCallAuctionCommand(command, engineInstanceId, |s.history|, |s.events|, action)))
  {
    hide BookModel.Valid, CallAuctionEngineLimits.Valid, Retained, Decide, CapacityError;
  }

  /** Tokens outlive preparations: the book only hands out more. */
  lemma TokensKeep(s: EngineState, before: set<PreparedCallAuctionUncross>, after: set<PreparedCallAuctionUncross>, bookInstanceId: nat, engineInstanceId: nat,
                   issued: set<PreparedCallAuctionCommand>)
    requires TokensHold(s, before, bookInstanceId, engineInstanceId, issued) && before <= after
    ensures TokensHold(s, after, bookInstanceId, engineInstanceId, issued)
  {
    hide BookModel.Valid, InstrumentDefinition.Valid, CallAuctionEngineLimits.Valid, Committable, ActionFits, CapacityError, MaximumEvents;
  }

  lemma NewToken(s: EngineState, bookIssued: set<PreparedCallAuctionUncross>, bookInstanceId: nat, leases: usize, engineInstanceId: nat,
                 issued: set<PreparedCallAuctionCommand>, t: PreparedCallAuctionCommand)
    requires WellFormedEngine(s) && s.book.Valid() && s.limits.Valid() && TokensHold(s, bookIssued, bookInstanceId, engineInstanceId, issued)
    requires Decide(s, bookInstanceId, leases, t.command) == Ok(t.action) && CapacityError(s, t.action).None?
    requires t.engineInstanceId == engineInstanceId && t.expectedRetainedCommands == |s.history| && t.expectedRetainedEvents == |s.events|
    requires t.action.UncrossAction? ==>
               t.action.prepared in bookIssued && t.action.prepared.bookInstanceId == bookInstanceId && t.action.prepared.stateRevision == s.book.stateRevision
    ensures TokensHold(s, bookIssued, bookInstanceId, engineInstanceId, issued + {t})
  {
    hide *;
    DecisionIsSound(s, bookInstanceId, leases, t.command, t.action);
    DecisionFits(s, bookInstanceId, leases, t.command, t.action);
    GatedIsSound(s, t.command, t.action, None);
    GatedIsExactly(t.action, None);
    CommittableIs(s, t.command, t.action);
    SequenceRoom(s, t.action);
    RoomOf(s, t.action);
    AddToken(s, bookIssued, bookInstanceId, engineInstanceId, issued, t);
  }

  lemma SequenceRoom(s: EngineState, action: PreparedAction)
    requires s.limits.Valid() && CapacityError(s, action).None?
    ensures s.nextCommandSequence < U64_MAX && s.nextEventSequence + MaximumEvents(action) <= U64_MAX
  {
  }

  lemma AddToken(s: EngineState, bookIssued: set<PreparedCallAuctionUncross>, bookInstanceId: nat, engineInstanceId: nat,
                 issued: set<PreparedCallAuctionCommand>, t: PreparedCallAuctionCommand)
    requires TokensHold(s, bookIssued, bookInstanceId, engineInstanceId, issued)
    requires t.engineInstanceId == engineInstanceId && t.expectedRetainedCommands == |s.history| && t.expectedRetainedEvents == |s.events|
    requires s.book.Valid() && s.book.definition.Valid() && s.limits.Valid()
    requires Committable(s, t.command, t.action) && ActionFits(s, t.command, t.action) && MaximumEvents(t.action) >= 1 && CapacityError(s, t.action).None?
    requires t.action.UncrossAction? ==>
               t.action.prepared in bookIssued && t.action.prepared.bookInstanceId == bookInstanceId && t.action.prepared.stateRevision == s.book.stateRevision
    ensures TokensHold(s, bookIssued, bookInstanceId, engineInstanceId, issued + {t})
  {
    hide BookModel.Valid, InstrumentDefinition.Valid, CallAuctionEngineLimits.Valid, Committable, ActionFits, CapacityError, MaximumEvents;
  }

  /** What committing a token answers and leaves behind. */
  ghost predicate CommitsAs(r: Answer, s: EngineState, n: EngineState, engineInstanceId: nat, t: PreparedCallAuctionCommand,
                            external: Option<CallAuctionRejectReason>) {
    if t.engineInstanceId != engineInstanceId then r == Err(ForeignCommand) && n == s
    else
      match Retained(s.history, t.command.commandId)
      case Some(entry) =>
        n == s && r == (if entry.command != t.command then Err(CommandIdCollision(t.command.commandId)) else Ok(entry.report.(replayed := true)))
      case None =>
        if t.expectedRetainedCommands != |s.history| || t.expectedRetainedEvents != |s.events| then r == Err(StaleCommand) && n == s
        else if !GateAllows(t.command, external) then r == Err(EngineInvariantViolation) && n == s
        else CommitsExactly(r, s, n, t.command, Gated(t.action, external))
  }

  /** The one committed outcome: the modelled next state, answered with its new report. */
  ghost predicate CommitsExactly(r: Answer, s: EngineState, n: EngineState, command: CallAuctionCommand, action: PreparedAction) {
    && Applicable(s.book, action) && HasRoom(s, action) && |EventKinds(s, command, action)| <= MaximumEvents(action)
    && n == Committed(s, command, action) && r == Ok(ReportOf(s, command, action))
  }

  lemma CommitsAsIs(s: EngineState, engineInstanceId: nat, t: PreparedCallAuctionCommand, external: Option<CallAuctionRejectReason>)
    ensures forall r: Answer, n: EngineState {:trigger CommitsAs(r, s, n, engineInstanceId, t, external)} ::
              CommitsAs(r, s, n, engineInstanceId, t, external) <==>
                if t.engineInstanceId != engineInstanceId then r == Err(ForeignCommand) && n == s
                else
                  match Retained(s.history, t.command.commandId)
                  case Some(entry) =>
                    n == s && r == (if entry.command != t.command then Err(CommandIdCollision(t.command.commandId)) else Ok(entry.report.(replayed := true)))
                  case None =>
                    if t.expectedRetainedCommands != |s.history| || t.expectedRetainedEvents != |s.events| then r == Err(StaleCommand) && n == s
                    else if !GateAllows(t.command, external) then r == Err(EngineInvariantViolation) && n == s
                    else CommitsExactly(r, s, n, t.command, Gated(t.action, external))
  {
    hide CommitsExactly, Retained, GateAllows, Gated;
  }

  lemma IndexLeads(arena: Arena, reports: Cache, index: map<CommandId, nat>, id: CommandId)
    requires RangesFit(arena, reports) && Indexed(index, reports) && id in index
    ensures index[id] < |reports| && InArena(arena, reports[index[id]])
    ensures EntryAt(arena, reports[index[id]]) == CallAuctionHistoryEntry(reports[index[id]].command, ReportAt(arena, reports[index[id]]))
  {
  }

  lemma TokenAt(s: EngineState, bookIssued: set<PreparedCallAuctionUncross>, bookInstanceId: nat, engineInstanceId: nat,
                issued: set<PreparedCallAuctionCommand>, t: PreparedCallAuctionCommand)
    requires TokensHold(s, bookIssued, bookInstanceId, engineInstanceId, issued) && t in issued && t.expectedRetainedCommands == |s.history|
    ensures s.book.Valid() && s.book.definition.Valid() && s.limits.Valid()
    ensures Committable(s, t.command, t.action) && ActionFits(s, t.command, t.action) && MaximumEvents(t.action) >= 1
    ensures CapacityError(s, t.action).None? && t.expectedRetainedEvents == |s.events|
    ensures t.action.UncrossAction? ==>
              t.action.prepared in bookIssued && t.action.prepared.bookInstanceId == bookInstanceId && t.action.prepared.stateRevision == s.book.stateRevision
  {
    hide BookModel.Valid, InstrumentDefinition.Valid, CallAuctionEngineLimits.Valid, Committable, ActionFits, CapacityError, MaximumEvents;
  }

  lemma CapacityLeavesRoom(s: EngineState, action: PreparedAction)
    requires s.limits.Valid() && CapacityError(s, action).None?
    ensures |s.history| < s.limits.retainedCommands
  {
  }

  lemma GateAllowsIs(command: CallAuctionCommand, external: Option<CallAuctionRejectReason>)
    ensures GateAllows(command, external) <==>
              (external.Some? ==> (command.Submit? || command.Replace?) && IsExternalRiskRejection(external.value))
  {
    hide IsExternalRiskRejection;
  }

  lemma GatedIsExactly(action: PreparedAction, external: Option<CallAuctionRejectReason>)
    ensures Gated(action, external) ==
              match external case Some(reason) => (if action.RejectedAction? then action else RejectedAction(reason)) case None => action
  {
  }

  lemma GatedCommits(s: EngineState, command: CallAuctionCommand, action: PreparedAction, external: Option<CallAuctionRejectReason>)
    requires WellFormedEngine(s) && s.book.Valid() && s.book.definition.Valid() && Committable(s, command, action) && ActionFits(s, command, action)
    ensures Committable(s, command, Gated(action, external)) && ActionFits(s, command, Gated(action, external))
    ensures Gated(action, external) == action || Gated(action, external).RejectedAction?
  {
    hide *;
    CommittableIs(s, command, action);
    RoomFacts(s, action);
    GatedIsSound(s, command, action, external);
    GatedIs(action, external);
    if Gated(action, external) != action {
      RejectionFits(s, command, external.value);
    }
    CommittableIs(s, command, Gated(action, external));
    RoomOf(s, Gated(action, external));
  }

  lemma CommittableIs(s: EngineState, command: CallAuctionCommand, action: PreparedAction)
    requires s.book.definition.Valid()
    ensures Committable(s, command, action) <==> SoundAction(s, command, action) && HasRoom(s, action)
  {
    hide SoundAction, InstrumentDefinition.Valid, HasRoom;
  }

  lemma RoomOf(s: EngineState, action: PreparedAction)
    ensures HasRoom(s, action) <==> s.nextCommandSequence < U64_MAX && s.nextEventSequence + MaximumEvents(action) <= U64_MAX
  {
    hide MaximumEvents;
  }

  lemma LastReport(arena: Arena, reports: Cache, cached: CachedCallAuctionReport, events: Events)
    requires cached.start + |events| == |arena| && cached.count == |events| && arena[cached.start..] == events
    ensures InArena(arena, cached)
    ensures ReportAt(arena, cached) ==
              CallAuctionExecutionReport(cached.command.commandId, cached.commandSequence, cached.outcome, events, false)
  {
    assert arena[cached.start..cached.start + cached.count] == arena[cached.start..];
  }

  /** Every token of a shorter history is stale. */
  lemma TokensExpire(s: EngineState, n: EngineState, bookIssued: set<PreparedCallAuctionUncross>, bookInstanceId: nat, engineInstanceId: nat,
                     issued: set<PreparedCallAuctionCommand>)
    requires exists before :: TokensHold(s, before, bookInstanceId, engineInstanceId, issued)
    requires |n.history| > |s.history|
    ensures TokensHold(n, bookIssued, bookInstanceId, engineInstanceId, issued)
  {
    hide TokenHolds;
    var before :| TokensHold(s, before, bookInstanceId, engineInstanceId, issued);
  }

  /** A gated action either is the token's own or prepares no uncross. */
  lemma GatedToken(action: PreparedAction, gated: PreparedAction)
    requires gated == action || gated.RejectedAction?
    ensures gated.UncrossAction? ==> action.UncrossAction? && gated == action
  {
  }

  lemma CommitGrows(r: Answer, s: EngineState, n: EngineState, command: CallAuctionCommand, action: PreparedAction)
    requires CommitsExactly(r, s, n, command, action)
    ensures |n.history| > |s.history|
  {
    hide Applicable, HasRoom, EventKinds, MaximumEvents, ReportOf, BookAfter, PhaseAfter, IndicativeAfter;
  }

  lemma CommittedRules(s: EngineState, command: CallAuctionCommand, action: PreparedAction)
    requires Committable(s, command, action)
    ensures Applicable(s.book, action) && HasRoom(s, action) && |EventKinds(s, command, action)| <= MaximumEvents(action)
    ensures CommitsExactly(Ok(ReportOf(s, command, action)), s, Committed(s, command, action), command, action)
  {
    hide Committed, ReportOf, Applicable, HasRoom, EventKinds, MaximumEvents;
    CommittableFacts(s, command, action);
  }

  lemma RestoredUnfolds(c: CallAuctionCheckpoint, limits: CallAuctionEngineLimits, s: EngineState)
    requires c.definition.Valid() && Restored(c, limits) == Some(s)
    ensures Scanned(c.history, c.definition).Some?
    ensures Audited(c.history, c.definition) == Some(Audit(Scanned(c.history, c.definition).value.audit.phase, s.lastIndicative))
    ensures |c.history| + 1 <= U64_MAX && NextEventSequence(c.history) <= U64_MAX
    ensures s == EngineState(limits, BookModel(c.definition, limits.book, s.book.active, IdSet(c.acceptedOrderIds), c.nextPrioritySequence, c.nextTradeId, c.bookRevision),
                             c.phase, s.lastIndicative, |c.history| + 1, NextEventSequence(c.history), c.history, Flatten(c.history))
  {
    hide InstrumentDefinition.Valid, BookModel.Valid, FitsCapacity, OrdersOf, IdSet, Scanned, Flatten, NextEventSequence, DirectStateAgrees;
    ScanAudits(c.history, c.definition);
  }

  lemma FlattenNothing()
    ensures Flatten([]) == []
  {
  }

  lemma FlattenNext(history: History, k: nat)
    requires k < |history|
    ensures Flatten(history[..k + 1]) == Flatten(history[..k]) + history[k].report.events
  {
    assert history[..k + 1][..k] == history[..k];
  }

  lemma BoundIs(entry: CallAuctionHistoryEntry, index: nat, first: nat)
    requires Bound(entry, index, first)
    ensures entry.report == CallAuctionExecutionReport(entry.command.commandId, entry.report.commandSequence, entry.report.outcome, entry.report.events, false)
  {
  }

  /** No earlier report has the identity of report `k`. */
  lemma {:induction false} NewInPrefix(history: History, events: Events, k: nat)
    requires Chronicle(history, events) && k < |history|
    ensures Retained(history[..k], history[k].command.commandId).None?
    decreases |history|
  {
    hide Retained, Bound;
    var n := |history| - 1;
    if k < n {
      NewInPrefix(history[..n], events[..|events| - |history[n].report.events|], k);
      assert history[..n][..k] == history[..k];
    }
  }

  lemma StampTwo(a: CallAuctionEventKind, b: CallAuctionEventKind, command: CallAuctionCommand, first: u64)
    requires first < U64_MAX
    ensures Stamped([a, b], command, first) ==
              [] + [CallAuctionEvent(first, command.commandId, command.receivedAt, a)] + [CallAuctionEvent(first + 1, command.commandId, command.receivedAt, b)]
  {
  }

  lemma StampNext(kinds: seq<CallAuctionEventKind>, kind: CallAuctionEventKind, command: CallAuctionCommand, first: nat)
    requires first + |kinds| <= U64_MAX
    ensures Stamped(kinds + [kind], command, first) ==
              Stamped(kinds, command, first) + [CallAuctionEvent(first + |kinds|, command.commandId, command.receivedAt, kind)]
  {
  }

  lemma NextCancel(selection: seq<CallAuctionOrderSnapshot>, index: nat)
    requires index < |selection|
    ensures |CancelKinds(selection[..index])| == index
    ensures CancelKinds(selection[..index + 1]) == CancelKinds(selection[..index]) + [OrderCancelled(selection[index], ByMassCancel)]
  {
  }

  lemma MassCancelRoom(m: BookModel, accountId: AccountId, scope: MassCancelScope, preflight: CallAuctionMassCancelResult)
    requires m.Valid() && MassCancelOutcome(m, accountId, scope) == Ok(preflight)
    ensures Selected(m, accountId, scope) <= m.active.Keys && |Selected(m, accountId, scope)| == preflight.cancelledOrderCount
    ensures Selected(m, accountId, scope) != {} ==> m.stateRevision < U64_MAX
    ensures |AscendingOrders(m.active, Selected(m, accountId, scope))| == preflight.cancelledOrderCount
  {
    hide *;
    MassCancelOutcomeIs(m, accountId, scope);
    AscendingSelection(m, accountId, scope);
    AscendingSize(AscendingOrders(m.active, Selected(m, accountId, scope)), m.active, Selected(m, accountId, scope));
  }

  lemma MassCancelAnswered(r: Result<CallAuctionMassCancelResult, CallAuctionMassCancelError>, output: seq<CallAuctionOrderSnapshot>, m: BookModel, after: BookModel,
                           accountId: AccountId, scope: MassCancelScope, preflight: CallAuctionMassCancelResult, capacity: nat)
    requires MassCancelAnswers(r, output, m, after, accountId, scope, [], capacity)
    requires m.Valid() && MassCancelOutcome(m, accountId, scope) == Ok(preflight) && preflight.cancelledOrderCount <= capacity
    ensures r == Ok(preflight)
    ensures Selected(m, accountId, scope) <= m.active.Keys && output == AscendingOrders(m.active, Selected(m, accountId, scope))
    ensures Selected(m, accountId, scope) != {} ==> m.stateRevision < U64_MAX
    ensures after == AbstractBook.MassCancelled(m, accountId, scope)
    ensures |output| == preflight.cancelledOrderCount && |MassCancelKinds(m, accountId, scope, preflight)| == |output| + 1
    ensures MassCancelKinds(m, accountId, scope, preflight) == CancelKinds(output)
              + [MassCancelCompleted(accountId, scope, preflight.cancelledOrderCount, preflight.cancelledQuantityLots, preflight.stateRevision)]
    ensures |CancelKinds(output)| == |output|
  {
    hide BookModel.Valid, MassCancelOutcome, Selected, AbstractBook.MassCancelled, AscendingOrders;
    MassCancelIntoIs(m, accountId, scope, [], capacity);
    MassCancelRoom(m, accountId, scope, preflight);
  }

  lemma StampOne(kind: CallAuctionEventKind, command: CallAuctionCommand, first: u64)
    ensures Stamped([kind], command, first) == [] + [CallAuctionEvent(first, command.commandId, command.receivedAt, kind)]
  {
  }

  // ----- the class takes the modelled steps

  /** Preparing a command and committing its token under the gate's verdict is one modelled step;
      a preparation that yields no token is the whole step. */
  lemma PrepareThenCommitIsAStep(s: EngineState, input: Input, engineInstanceId: nat, prepared: Result<CallAuctionCommandPreparation, CallAuctionEngineError>,
                                 n: EngineState, r: Answer)
    requires WellFormedEngine(s) && PreparesAs(prepared, s, input.bookInstanceId, input.leases, engineInstanceId, input.command)
    requires match prepared
             case Err(error) => n == s && r == Err(error)
             case Ok(Replayed(report)) => n == s && r == Ok(report)
             case Ok(Prepared(token)) => CommitsAs(r, s, n, engineInstanceId, token, input.external)
    ensures (n, r) == Step(s, input)
  {
    hide *;
    EngineFacts(s);
    StepUnfolds(s, input);
    PreparesAsIs(s, input.bookInstanceId, input.leases, engineInstanceId, input.command);
    PrepareUnfolds(s, input.bookInstanceId, input.leases, input.command);
    match prepared {
      case Ok(Prepared(token)) =>
        CommitsAsIs(s, engineInstanceId, token, input.external);
        if GateAllows(input.command, input.external) {
          CommitsOnce(s, input.command, Gated(token.action, input.external), r, n, Step(s, input).1, Step(s, input).0);
        }
      case _ =>
    }
  }

  lemma PrepareUnfolds(s: EngineState, bookInstanceId: nat, leases: usize, command: CallAuctionCommand)
    requires s.book.Valid() && s.limits.Valid()
    ensures EngineModel.Prepare(s, bookInstanceId, leases, command) ==
              match Retained(s.history, command.commandId)
              case Some(entry) => (if entry.command != command then Err(CommandIdCollision(command.commandId)) else Ok(Replay(entry.report.(replayed := true))))
              case None =>
                match Decide(s, bookInstanceId, leases, command)
                case Err(error) => Err(error)
                case Ok(action) => (if CapacityError(s, action).Some? then Err(CapacityError(s, action).value) else Ok(Ready(action)))
  {
    hide BookModel.Valid, CallAuctionEngineLimits.Valid, Retained, Decide, CapacityError;
  }

  lemma StepUnfolds(s: EngineState, input: Input)
    requires WellFormedEngine(s) && s.book.Valid() && s.limits.Valid()
    ensures match EngineModel.Prepare(s, input.bookInstanceId, input.leases, input.command)
            case Err(error) => Step(s, input) == (s, Err(error))
            case Ok(Replay(report)) => Step(s, input) == (s, Ok(report))
            case Ok(Ready(action)) =>
              if !GateAllows(input.command, input.external) then Step(s, input) == (s, Err(EngineInvariantViolation))
              else CommitsExactly(Step(s, input).1, s, Step(s, input).0, input.command, Gated(action, input.external))
  {
    hide WellFormedEngine, BookModel.Valid, CallAuctionEngineLimits.Valid, EngineModel.Prepare, Gated, GateAllows, Applicable, HasRoom, EventKinds,
      MaximumEvents, Committed, ReportOf, Committable;
    match EngineModel.Prepare(s, input.bookInstanceId, input.leases, input.command) {
      case Ok(Ready(action)) =>
        ReadyIsCommittable(s, input, action);
        CommittableFacts(s, input.command, Gated(action, input.external));
      case _ =>
    }
  }

  lemma CommitsOnce(s: EngineState, command: CallAuctionCommand, action: PreparedAction, r: Answer, n: EngineState, q: Answer, m: EngineState)
    requires CommitsExactly(r, s, n, command, action) && CommitsExactly(q, s, m, command, action)
    ensures r == q && n == m
  {
    hide Applicable, HasRoom, EventKinds, MaximumEvents, Committed, ReportOf;
  }

  /** A token prepared on one history is refused as stale once any other command is retained. */
  lemma TokensGoStale(s: EngineState, later: EngineState, engineInstanceId: nat, bookInstanceId: nat, leases: usize, token: PreparedCallAuctionCommand,
                      external: Option<CallAuctionRejectReason>, r: Answer, n: EngineState)
    requires PreparesAs(Ok(Prepared(token)), s, bookInstanceId, leases, engineInstanceId, token.command)
    requires |later.history| > |s.history| && Retained(later.history, token.command.commandId).None?
    requires CommitsAs(r, later, n, engineInstanceId, token, external)
    ensures r == Err(StaleCommand) && n == later
  {
    hide BookModel.Valid, CallAuctionEngineLimits.Valid, Decide, CapacityError, Retained, CommitsExactly;
  }
}
