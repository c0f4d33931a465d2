/** Checkpoints: a captured engine validates exactly at its own log boundary, and the engine
    restored from it is the engine that was captured. */
module Checkpoint {
  import opened AbstractBook
  import opened Ascending
  import opened AuctionBook
  import opened DecidedActions
  import opened Domain
  import opened EngineLaws
  import opened EngineModel
  import opened EngineRuns
  import opened EngineTypes
  import opened GrammarLaws
  import opened PhaseAudit
  import opened Projection
  import opened ProjectionLaws
  import opened ReportGrammar
  import opened RunLaws
  import opened UncrossProjection

  // ----- events determine state

  lemma {:induction false} RetainedMeansCommandId(history: History, id: CommandId)
    ensures Retained(history, id).Some? <==> id in CommandIds(history)
  {
    if history != [] { RetainedMeansCommandId(history[..|history| - 1], id); }
  }

  lemma CommandIdsAppend(history: History, entry: CallAuctionHistoryEntry)
    ensures CommandIds(history + [entry]) == CommandIds(history) + {entry.command.commandId}
  {
    assert (history + [entry])[..|history|] == history;
  }

  lemma BoundEvents(kinds: seq<CallAuctionEventKind>, command: CallAuctionCommand, first: nat, report: CallAuctionExecutionReport)
    requires first + |kinds| <= U64_MAX && report.events == Stamped(kinds, command, first)
    ensures EventsAreBound(CallAuctionHistoryEntry(command, report), first, |report.events|)
  {
  }

  /** A checked report advances the scan to what the engine became. */
  lemma ScanAdvances(scan: Scan, entry: CallAuctionHistoryEntry, definition: InstrumentDefinition, audit: Audit, nextTradeId: u64, book: ProjectedBook)
    requires definition.Valid() && MetadataAgrees(scan, entry) && ReportIsGrammatical(entry) && Observed(scan.audit, entry, definition) == Some(audit)
    requires scan.nextEvent + |entry.report.events| <= U64_MAX && scan.nextCommand < U64_MAX
    requires EventsAreBound(entry, scan.nextEvent, |entry.report.events|)
    requires TradeIdsAfter(entry.report.events, |entry.report.events|, scan.book.nextTradeId) == Some(nextTradeId)
    requires var numbered := scan.book.(nextTradeId := nextTradeId);
             Some(book) == if entry.report.outcome.Accepted? then AcceptedProjected(numbered, definition, entry.command, entry.report.events) else Some(numbered)
    ensures ScannedEntry(scan, entry, definition) ==
              Some(Scan(scan.ids + {entry.command.commandId}, scan.nextCommand + 1, scan.nextEvent + |entry.report.events|, audit, book))
  {
    hide InstrumentDefinition.Valid, MetadataAgrees, ReportIsGrammatical, Observed, EventsAreBound, TradeIdsAfter, AcceptedProjected;
    MetadataHasEvents(scan, entry);
  }

  lemma MetadataHasEvents(scan: Scan, entry: CallAuctionHistoryEntry)
    requires MetadataAgrees(scan, entry)
    ensures entry.report.events != []
  {
  }

  lemma MetadataIs(scan: Scan, entry: CallAuctionHistoryEntry)
    requires entry.command.commandId !in scan.ids && entry.report.commandId == entry.command.commandId
    requires entry.report.commandSequence == scan.nextCommand && !entry.report.replayed && |entry.report.events| >= 1
    ensures MetadataAgrees(scan, entry)
  {
  }

  lemma ScanOfIs(s: EngineState)
    ensures ScanOf(s) == Scan(CommandIds(s.history), s.nextCommandSequence, s.nextEventSequence, AuditOf(s), ProjectionOf(s.book))
    ensures ProjectionOf(s.book).nextTradeId == s.book.nextTradeId
    ensures ProjectionOf(s.book).(nextTradeId := s.book.nextTradeId) == ProjectionOf(s.book)
  {
    hide CommandIds, AuditOf;
  }

  lemma OutcomeAccepted(action: PreparedAction)
    ensures OutcomeOf(action).Accepted? <==> !action.RejectedAction?
  {
  }

  lemma StepIsScanned(s: EngineState, input: Input)
    requires WellFormedEngine(s) && StepAction(s, input).Some?
    ensures s.book.definition.Valid()
    ensures var n := Step(s, input).0;
            && n.history != [] && n.history == s.history + [n.history[|s.history|]] && n.book.definition == s.book.definition
            && ScannedEntry(ScanOf(s), n.history[|s.history|], s.book.definition) == Some(ScanOf(n))
  {
    hide *;
    EngineFacts(s);
    StepIs(s, input);
    StepFits(s, input);
    StepEmits(s, input);
    StepIsObserved(s, input);
    var action, n := StepAction(s, input).value, Step(s, input).0;
    CommittedIs(s, input.command, action);
    CommittableFacts(s, input.command, action);
    RoomFacts(s, action);
    var report := ReportOf(s, input.command, action);
    var entry := CallAuctionHistoryEntry(input.command, report);
    assert n.history[|s.history|] == entry;
    RetainedMeansCommandId(s.history, input.command.commandId);
    CommandIdsAppend(s.history, entry);
    ScanOfIs(s);
    ScanOfIs(n);
    MetadataIs(ScanOf(s), entry);
    CommitIsGrammatical(s, input.command, action);
    BoundEvents(EventKinds(s, input.command, action), input.command, s.nextEventSequence, report);
    CommitProjects(s, input.command, action);
    ReportProjectsIs(s.book, input.command, report.events, BookAfter(s.book, action), !action.RejectedAction?);
    OutcomeAccepted(action);
    ScanAdvances(ScanOf(s), entry, s.book.definition, AuditOf(n), n.book.nextTradeId, ProjectionOf(n.book));
  }

  lemma GenesisScan(definition: InstrumentDefinition, limits: CallAuctionEngineLimits)
    requires definition.Valid() && limits.Valid()
    ensures Scanned(Genesis(definition, limits).history, definition) == Some(ScanOf(Genesis(definition, limits)))
    ensures Genesis(definition, limits).book.definition == definition
  {
    hide InstrumentDefinition.Valid, CallAuctionEngineLimits.Valid;
  }

  /** On every run the chronological projection of the retained history is the live state: active
      orders, accepted identities, phase, revisions and every next sequence. */
  lemma {:induction false} EventsDetermineState(definition: InstrumentDefinition, limits: CallAuctionEngineLimits, inputs: seq<Input>)
    requires definition.Valid() && limits.Valid()
    ensures var s := Run(Genesis(definition, limits), inputs);
            s.book.definition == definition && Scanned(s.history, definition) == Some(ScanOf(s))
  {
    hide *;
    var genesis := Genesis(definition, limits);
    if inputs == [] {
      GenesisScan(definition, limits);
      RunNothing(genesis);
    } else {
      var last := |inputs| - 1;
      EventsDetermineState(definition, limits, inputs[..last]);
      var s := Run(genesis, inputs[..last]);
      RunStep(genesis, inputs);
      StepIs(s, inputs[last]);
      if StepAction(s, inputs[last]).Some? {
        StepIsScanned(s, inputs[last]);
        ScannedAppend(s.history, Step(s, inputs[last]).0.history[|s.history|], definition, ScanOf(s));
      }
    }
  }

  lemma RunNothing(s: EngineState)
    requires WellFormedEngine(s)
    ensures Run(s, []) == s
  {
  }

  // ----- validation

  datatype CallAuctionCheckpoint = CallAuctionCheckpoint(
    walMetadataSequence: u64, walSequence: u64, definition: InstrumentDefinition, phase: CallAuctionPhaseSnapshot,
    bookRevision: u64, nextPrioritySequence: u64, nextTradeId: u64,
    acceptedOrderIds: seq<OrderId>, activeOrders: seq<CallAuctionOrderSnapshot>, history: seq<CallAuctionHistoryEntry>)

  ghost predicate IncreasingIds(ids: seq<OrderId>) {
    forall i, j :: 0 <= i < j < |ids| ==> ids[i] < ids[j]
  }

  /** The log ends exactly after the command and the report frame of every retained command. */
  ghost predicate WalAgrees(c: CallAuctionCheckpoint) {
    c.walMetadataSequence != 0 && c.walMetadataSequence + 2 * |c.history| == c.walSequence
  }

  /** The direct state of a checkpoint is what its own history projects to. */
  ghost predicate DirectStateAgrees(c: CallAuctionCheckpoint, scan: Scan) {
    && IncreasingIds(c.acceptedOrderIds) && IdSet(c.acceptedOrderIds) == scan.book.accepted
    && AscendingOf(c.activeOrders, scan.book.orders, scan.book.orders.Keys)
    && c.phase == scan.audit.phase && c.bookRevision == scan.book.revision
    && c.nextPrioritySequence == scan.book.nextPrioritySequence && c.nextTradeId == scan.book.nextTradeId
  }

  ghost predicate CheckpointIsValid(c: CallAuctionCheckpoint)
    requires c.definition.Valid()
  {
    && WalAgrees(c) && Scanned(c.history, c.definition).Some?
    && DirectStateAgrees(c, Scanned(c.history, c.definition).value)
  }

  lemma SubsetIsAll<T>(a: set<T>, b: set<T>)
    requires a <= b && |a| == |b|
    ensures a == b
  {
    assert |b - a| == 0;
    assert b == a + (b - a);
  }

  lemma {:induction false} IncreasingSize(ids: seq<OrderId>)
    requires IncreasingIds(ids)
    ensures |IdSet(ids)| == |ids|
  {
    if ids != [] {
      var n := |ids| - 1;
      IncreasingSize(ids[..n]);
      assert IdSet(ids) == IdSet(ids[..n]) + {ids[n]} by { assert ids == ids[..n] + [ids[n]]; }
      assert ids[n] !in IdSet(ids[..n]);
    }
  }

  method StrictlyIncreasingOrderIds(ids: seq<OrderId>) returns (ok: bool)
    ensures ok <==> IncreasingIds(ids)
  {
    var k := 1;
    while k < |ids|
      invariant 1 <= k && forall i, j :: 0 <= i < j < k && j < |ids| ==> ids[i] < ids[j]
    {
      if ids[k - 1] >= ids[k] {
        return false;
      }
      k := k + 1;
    }
    ok := true;
  }

  /** The saved identities are the accepted ones, each once and in order. */
  method IdsMatch(ids: seq<OrderId>, accepted: set<OrderId>) returns (ok: bool)
    ensures ok <==> IncreasingIds(ids) && IdSet(ids) == accepted
  {
    ok := StrictlyIncreasingOrderIds(ids);
    if !ok {
      return;
    }
    IncreasingSize(ids);
    if |accepted| != |ids| {
      return false;
    }
    for k := 0 to |ids|
      invariant forall i :: 0 <= i < k ==> ids[i] in accepted
    {
      if ids[k] !in accepted {
        assert ids[k] in IdSet(ids);
        return false;
      }
    }
    SubsetIsAll(IdSet(ids), accepted);
  }

  method StrictlyIncreasingOrders(orders: seq<CallAuctionOrderSnapshot>) returns (ok: bool)
    ensures ok <==> IsAscending(orders)
  {
    var k := 1;
    while k < |orders|
      invariant 1 <= k && forall i, j :: 0 <= i < j < k && j < |orders| ==> orders[i].orderId < orders[j].orderId
    {
      if orders[k - 1].orderId >= orders[k].orderId {
        return false;
      }
      k := k + 1;
    }
    ok := true;
  }

  /** The saved orders are the projected ones, each once and in order. */
  method OrdersMatch(orders: seq<CallAuctionOrderSnapshot>, projected: Orders) returns (ok: bool)
    ensures ok <==> AscendingOf(orders, projected, projected.Keys)
  {
    ok := StrictlyIncreasingOrders(orders);
    if !ok {
      return;
    }
    if AscendingOf(orders, projected, projected.Keys) { AscendingSize(orders, projected, projected.Keys); }
    if |projected| != |orders| {
      assert |projected| == |projected.Keys|;
      return false;
    }
    for k := 0 to |orders|
      invariant forall i {:trigger orders[i]} :: 0 <= i < k ==> orders[i].orderId in projected && orders[i] == projected[orders[i].orderId]
    {
      if orders[k].orderId !in projected || orders[k] != projected[orders[k].orderId] {
        return false;
      }
    }
    AscendingSize(orders, projected, SnapshotIds(orders));
    assert |projected| == |projected.Keys|;
    SubsetIsAll(SnapshotIds(orders), projected.Keys);
    ok := true;
  }

  /** Replays the whole history once and compares what it proves with the saved direct state. */
  method Validate(c: CallAuctionCheckpoint) returns (ok: bool)
    requires c.definition.Valid()
    ensures ok <==> CheckpointIsValid(c)
  {
    hide *;
    ValidityIs(c);
    if c.walMetadataSequence == 0 || c.walMetadataSequence + 2 * |c.history| != c.walSequence {
      return false;
    }
    var audit := new CallAuctionPhaseAudit();
    var commandIds: set<CommandId>, nextCommand: u64, nextEvent: u64, book := {}, 1, 1, GENESIS_BOOK;
    ScanBegins(c.definition, audit.State());
    assert c.history[..0] == [];
    for k := 0 to |c.history|
      invariant Scanned(c.history[..k], c.definition) == Some(Scan(commandIds, nextCommand, nextEvent, audit.State(), book)) && fresh(audit)
    {
      var entry := c.history[k];
      ghost var scan := Scan(commandIds, nextCommand, nextEvent, audit.State(), book);
      ScannedAppend(c.history[..k], entry, c.definition, scan);
      assert c.history[..k] + [entry] == c.history[..k + 1];
      if Scanned(c.history[..k + 1], c.definition).None? { ScanStops(c.history, c.definition, k + 1); }
      ScannedEntryIs(scan, entry, c.definition);
      if entry.command.commandId in commandIds || entry.report.commandId != entry.command.commandId
         || entry.report.commandSequence != nextCommand || entry.report.replayed || entry.report.events == [] {
        return false;
      }
      ok := CachedReportGrammarIsValid(entry);
      if !ok {
        return;
      }
      ok := audit.Observe(entry, c.definition);
      if !ok {
        return;
      }
      var sequences := AdvanceSequences(entry, nextEvent, book.nextTradeId);
      if sequences.None? {
        return false;
      }
      book := book.(nextTradeId := sequences.value.1);
      if entry.report.outcome.Accepted? {
        var projected := ProjectAccepted(book, c.definition, entry.command, entry.report.events);
        if projected.None? {
          return false;
        }
        book := projected.value;
      }
      if CheckedAddU64(nextCommand, 1).None? {
        LastCommand(nextCommand);
        return false;
      }
      LastCommand(nextCommand);
      commandIds, nextCommand, nextEvent := commandIds + {entry.command.commandId}, nextCommand + 1, sequences.value.0;
    }
    assert c.history[..|c.history|] == c.history;
    var idsMatch := IdsMatch(c.acceptedOrderIds, book.accepted);
    var ordersMatch := OrdersMatch(c.activeOrders, book.orders);
    DirectStateIs(c, Scan(commandIds, nextCommand, nextEvent, audit.State(), book));
    ok := idsMatch && ordersMatch && c.phase == audit.State().phase && c.bookRevision == book.revision
          && c.nextPrioritySequence == book.nextPrioritySequence && c.nextTradeId == book.nextTradeId;
  }

  lemma ValidityIs(c: CallAuctionCheckpoint)
    requires c.definition.Valid()
    ensures CheckpointIsValid(c) <==>
              && c.walMetadataSequence != 0 && c.walMetadataSequence + 2 * |c.history| == c.walSequence
              && Scanned(c.history, c.definition).Some? && DirectStateAgrees(c, Scanned(c.history, c.definition).value)
  {
    hide InstrumentDefinition.Valid, Scanned, DirectStateAgrees;
  }

  lemma DirectStateIs(c: CallAuctionCheckpoint, scan: Scan)
    ensures DirectStateAgrees(c, scan) <==>
              && IncreasingIds(c.acceptedOrderIds) && IdSet(c.acceptedOrderIds) == scan.book.accepted
              && AscendingOf(c.activeOrders, scan.book.orders, scan.book.orders.Keys)
              && c.phase == scan.audit.phase && c.bookRevision == scan.book.revision
              && c.nextPrioritySequence == scan.book.nextPrioritySequence && c.nextTradeId == scan.book.nextTradeId
  {
    hide IncreasingIds, IdSet, AscendingOf;
  }

  lemma ScanBegins(definition: InstrumentDefinition, audit: Audit)
    requires definition.Valid() && audit == GENESIS_AUDIT
    ensures Scanned([], definition) == Some(Scan({}, 1, 1, audit, GENESIS_BOOK))
  {
    hide InstrumentDefinition.Valid;
  }

  lemma LastCommand(nextCommand: u64)
    ensures CheckedAddU64(nextCommand, 1) == if nextCommand == U64_MAX then None else Some(nextCommand + 1)
    ensures nextCommand != U64_MAX ==> nextCommand + 1 <= U64_MAX
  {
  }

  lemma ScannedEntryIs(scan: Scan, entry: CallAuctionHistoryEntry, definition: InstrumentDefinition)
    requires definition.Valid()
    ensures ScannedEntry(scan, entry, definition) ==
              if entry.command.commandId in scan.ids || entry.report.commandId != entry.command.commandId
                 || entry.report.commandSequence != scan.nextCommand || entry.report.replayed || entry.report.events == []
                 || !ReportIsGrammatical(entry) || Observed(scan.audit, entry, definition).None?
                 || SequencesAfter(entry, scan.nextEvent, scan.book.nextTradeId).None?
              then None
              else
                var sequences := SequencesAfter(entry, scan.nextEvent, scan.book.nextTradeId).value;
                var numbered := scan.book.(nextTradeId := sequences.1);
                var book := if entry.report.outcome.Accepted? then AcceptedProjected(numbered, definition, entry.command, entry.report.events) else Some(numbered);
                if book.None? || scan.nextCommand == U64_MAX then None
                else Some(Scan(scan.ids + {entry.command.commandId}, scan.nextCommand + 1, sequences.0, Observed(scan.audit, entry, definition).value, book.value))
  {
    hide InstrumentDefinition.Valid, ReportIsGrammatical, Observed, SequencesAfter, AcceptedProjected;
  }
}
