/** The engine's own audit: its book, the tiling of the event arena, the phase and cycle identities
    and the whole report history. Every engine that any run leads to passes it, from genesis or from
    any checkpoint that restores. */
module EngineAudit {
  import opened AbstractBook
  import opened Ascending
  import opened AuctionBook
  import opened AuctionEngine
  import BookAudit
  import BookRestoration
  import opened Checkpoint
  import opened Domain
  import opened EngineLaws
  import opened EngineModel
  import opened EngineRuns
  import opened EngineTypes
  import opened PhaseAudit
  import opened Projection
  import opened ProjectionLaws
  import opened ReportCache
  import opened ReportGrammar
  import opened Restoration
  import opened RestoredEngines
  import opened RunLaws

  // ----- the event arena

  ghost function CountBefore(reports: Cache, n: nat): nat
    requires n <= |reports|
  {
    if n == 0 then 0 else CountBefore(reports, n - 1) + reports[n - 1].count
  }

  ghost predicate RangeOk(reports: Cache, limits: CallAuctionEngineLimits, k: nat)
    requires k < |reports|
  {
    reports[k].count <= limits.reportEvents && reports[k].start == CountBefore(reports, k)
  }

  /** Report ranges follow one another from the start of the arena to its end, within the limits. */
  ghost predicate Tiled(arena: Arena, reports: Cache, limits: CallAuctionEngineLimits) {
    && (forall k {:trigger RangeOk(reports, limits, k)} :: 0 <= k < |reports| ==> RangeOk(reports, limits, k))
    && CountBefore(reports, |reports|) == |arena| <= limits.retainedEvents
  }

  lemma {:induction false} CountGrows(reports: Cache, m: nat, n: nat)
    requires m <= n <= |reports|
    ensures CountBefore(reports, m) <= CountBefore(reports, n)
  {
    if m < n { CountGrows(reports, m, n - 1); }
  }

  lemma TiledFits(arena: Arena, reports: Cache, limits: CallAuctionEngineLimits)
    requires Tiled(arena, reports, limits)
    ensures RangesFit(arena, reports)
  {
    forall i | 0 <= i < |reports| ensures InArena(arena, reports[i]) {
      assert RangeOk(reports, limits, i);
      CountGrows(reports, i + 1, |reports|);
    }
  }

  lemma {:induction false} StartIsCount(arena: Arena, reports: Cache, n: nat)
    requires RangesFit(arena, reports) && n <= |reports|
    ensures Start(HistoryOf(arena, reports), n) == CountBefore(reports, n)
  {
    if n > 0 {
      StartIsCount(arena, reports, n - 1);
      assert HistoryOf(arena, reports)[n - 1] == EntryAt(arena, reports[n - 1]);
    }
  }

  method ValidateEventCapacity(arena: Arena, reports: Cache, limits: CallAuctionEngineLimits) returns (ok: bool)
    ensures ok <==> Tiled(arena, reports, limits)
  {
    var expectedStart: nat := 0;
    for k := 0 to |reports|
      invariant expectedStart == CountBefore(reports, k)
      invariant forall i {:trigger RangeOk(reports, limits, i)} :: 0 <= i < k ==> RangeOk(reports, limits, i)
    {
      CountGrows(reports, k + 1, |reports|);
      assert CountBefore(reports, k + 1) == expectedStart + reports[k].count;
      if reports[k].count > limits.reportEvents || reports[k].start != expectedStart {
        assert !RangeOk(reports, limits, k);
        return false;
      }
      hide RangeOk;
      if reports[k].start + reports[k].count > |arena| || expectedStart + reports[k].count > U64_MAX {
        return false;
      }
      expectedStart := expectedStart + reports[k].count;
    }
    ok := expectedStart == |arena| && |arena| <= limits.retainedEvents;
  }

  // ----- the report history

  /** A published indication obeys the instrument's price rules. */
  ghost predicate IndicativePricesAreValid(entry: CallAuctionHistoryEntry, definition: InstrumentDefinition)
    requires definition.Valid()
  {
    entry.report.outcome.Accepted? && entry.report.events != [] && entry.report.events[0].kind.IndicativePublished? ==>
      entry.report.events[0].kind.state.IsValidFor(definition)
  }

  /** Report `index` answers its command, is numbered in turn and numbers its events from `first + 1`. */
  ghost predicate EntryOk(entry: CallAuctionHistoryEntry, index: nat, first: nat, definition: InstrumentDefinition)
    requires definition.Valid()
  {
    Bound(entry, index, first) && ReportIsGrammatical(entry) && IndicativePricesAreValid(entry, definition)
  }

  ghost predicate EntriesOk(history: History, n: nat, definition: InstrumentDefinition)
    requires n <= |history| && definition.Valid()
  {
    forall k {:trigger history[k]} :: 0 <= k < n ==> EntryOk(history[k], k, Start(history, k), definition)
  }

  /** The history replays report by report into exactly the live counters and controller. */
  ghost predicate HistoryOk(history: History, definition: InstrumentDefinition, nextCommand: nat, nextEvent: nat, live: Audit)
    requires definition.Valid()
  {
    && nextCommand == |history| + 1 && EntriesOk(history, |history|, definition)
    && nextEvent == Start(history, |history|) + 1 && Audited(history, definition) == Some(live)
  }

  /** One cached report, apart from the controller it is replayed on. */
  method ValidateEntry(entry: CallAuctionHistoryEntry, index: nat, first: nat, definition: InstrumentDefinition) returns (ok: bool)
    requires definition.Valid() && entry.report.commandId == entry.command.commandId
    ensures ok <==> EntryOk(entry, index, first, definition)
  {
    hide ReportIsGrammatical, CallAuctionIndicativeState.IsValidFor, InstrumentDefinition.Valid;
    var grammatical := CachedReportGrammarIsValid(entry);
    GrammarIsLive(entry);
    if !grammatical {
      return false;
    }
    if entry.report.outcome.Accepted? && entry.report.events != [] && entry.report.events[0].kind.IndicativePublished?
       && !entry.report.events[0].kind.state.IsValidFor(definition)
    {
      return false;
    }
    if entry.report.commandSequence != index + 1 || entry.report.events == [] || entry.report.events[0].commandId != entry.report.commandId {
      return false;
    }
    for k := 0 to |entry.report.events|
      invariant forall j {:trigger entry.report.events[j]} :: 0 <= j < k ==>
                  && entry.report.events[j].sequence == first + j + 1 && entry.report.events[j].commandId == entry.command.commandId
                  && entry.report.events[j].occurredAt == entry.command.receivedAt
    {
      var event := entry.report.events[k];
      if event.sequence != first + k + 1 || event.commandId != entry.report.commandId || event.occurredAt != entry.command.receivedAt {
        return false;
      }
    }
    return true;
  }

  lemma GrammarIsLive(entry: CallAuctionHistoryEntry)
    ensures ReportIsGrammatical(entry) ==> !entry.report.replayed && entry.report.events != []
  {
  }

  lemma {:induction false} StartGrows(history: History, m: nat, n: nat)
    requires m <= n <= |history|
    ensures Start(history, m) <= Start(history, n)
  {
    if m < n { StartGrows(history, m, n - 1); }
  }

  lemma EntriesGrow(history: History, k: nat, definition: InstrumentDefinition)
    requires k < |history| && definition.Valid()
    ensures EntriesOk(history, k + 1, definition) <==> EntriesOk(history, k, definition) && EntryOk(history[k], k, Start(history, k), definition)
    ensures EntriesOk(history, |history|, definition) ==> EntryOk(history[k], k, Start(history, k), definition)
  {
    hide InstrumentDefinition.Valid, EntryOk, Start;
  }

  /** Every report against its command, its numbers and the controller, then the live counters. */
  method ValidateReportHistory(arena: Arena, reports: Cache, definition: InstrumentDefinition, nextCommand: u64, nextEvent: u64,
                               phase: CallAuctionPhaseSnapshot, lastIndicative: Option<CallAuctionIndicativeState>) returns (ok: bool)
    requires definition.Valid() && RangesFit(arena, reports)
    ensures ok <==> HistoryOk(HistoryOf(arena, reports), definition, nextCommand, nextEvent, Audit(phase, lastIndicative))
  {
    hide *;
    ghost var history := HistoryOf(arena, reports);
    HistoryOkIs(history, definition, nextCommand, nextEvent, Audit(phase, lastIndicative));
    if nextCommand != |reports| + 1 {
      return false;
    }
    var audit := new CallAuctionPhaseAudit();
    var expectedEvent: nat := 1;
    for k := 0 to |reports|
      invariant fresh(audit) && Audited(history[..k], definition) == Some(audit.State())
      invariant EntriesOk(history, k, definition) && expectedEvent == Start(history, k) + 1
    {
      CachedEntry(arena, reports, k);
      StartNext(history, k);
      EntriesGrow(history, k, definition);
      var entry := CallAuctionHistoryEntry(reports[k].command, ReportAt(arena, reports[k]));
      var valid := ValidateEntry(entry, k, expectedEvent - 1, definition);
      if !valid {
        return false;
      }
      AuditedAppend(history[..k], history[k], definition, audit.State());
      assert history[..k] + [history[k]] == history[..k + 1];
      var observed := audit.Observe(entry, definition);
      if !observed {
        AuditStops(history, definition, k + 1);
        return false;
      }
      if expectedEvent + |entry.report.events| > U64_MAX {
        return false;
      }
      expectedEvent := expectedEvent + |entry.report.events|;
    }
    assert history[..|history|] == history;
    ok := expectedEvent == nextEvent && audit.State() == Audit(phase, lastIndicative);
  }

  lemma HistoryOkIs(history: History, definition: InstrumentDefinition, nextCommand: nat, nextEvent: u64, live: Audit)
    requires definition.Valid()
    ensures HistoryOk(history, definition, nextCommand, nextEvent, live) <==>
              && nextCommand == |history| + 1 && EntriesOk(history, |history|, definition)
              && nextEvent == Start(history, |history|) + 1 && Audited(history, definition) == Some(live)
    ensures nextEvent <= U64_MAX && Start(history, 0) == 0 && EntriesOk(history, 0, definition)
    ensures Audited(history[..0], definition) == Some(GENESIS_AUDIT)
  {
    hide InstrumentDefinition.Valid;
  }

  lemma StartNext(history: History, k: nat)
    requires k < |history|
    ensures Start(history, k + 1) == Start(history, k) + |history[k].report.events| <= Start(history, |history|)
  {
    StartGrows(history, k + 1, |history|);
  }

  lemma CachedEntry(arena: Arena, reports: Cache, k: nat)
    requires RangesFit(arena, reports) && k < |reports|
    ensures InArena(arena, reports[k])
    ensures HistoryOf(arena, reports)[k] == CallAuctionHistoryEntry(reports[k].command, ReportAt(arena, reports[k]))
    ensures ReportAt(arena, reports[k]).commandId == reports[k].command.commandId
  {
  }

  // ----- the whole engine

  ghost predicate PhaseAgrees(phase: CallAuctionPhaseSnapshot) {
    && (phase.phase == Closed <==> phase.activeAuctionId.None?)
    && (phase.activeAuctionId.Some? ==> phase.activeAuctionId == phase.lastAuctionId)
  }

  /** What the audit of an engine vouches for. */
  ghost predicate EngineAudited(e: CallAuctionEngine)
    requires e.book.definition.Valid()
    reads e, e.book
  {
    && BookAudit.Audited(e.book)
    && |e.reports| <= e.limits.retainedCommands && Indexed(e.reportIndex, e.reports)
    && Tiled(e.eventArena, e.reports, e.limits) && PhaseAgrees(e.PhaseSnapshot())
    && RangesFit(e.eventArena, e.reports)
    && HistoryOk(HistoryOf(e.eventArena, e.reports), e.book.definition, e.nextCommandSequence, e.nextEventSequence,
                 Audit(e.PhaseSnapshot(), e.lastIndicative))
  }

  /** The report cache leads every key to the one report of that command. */
  method ValidateIndex(index: map<CommandId, nat>, reports: Cache) returns (ok: bool)
    ensures ok <==> Indexed(index, reports)
  {
    for k := 0 to |reports|
      invariant forall i {:trigger reports[i]} :: 0 <= i < k ==> reports[i].command.commandId in index && index[reports[i].command.commandId] == i
    {
      if reports[k].command.commandId !in index || index[reports[k].command.commandId] != k {
        return false;
      }
    }
    var remaining := index.Keys;
    while remaining != {}
      invariant remaining <= index.Keys
      invariant forall id :: id in index && id !in remaining ==> index[id] < |reports| && reports[index[id]].command.commandId == id
      decreases |remaining|
    {
      var id :| id in remaining;
      if index[id] >= |reports| || reports[index[id]].command.commandId != id {
        return false;
      }
      remaining := remaining - {id};
    }
    return true;
  }

  lemma PhaseAgreesIs(e: CallAuctionEngine)
    ensures PhaseAgrees(e.PhaseSnapshot()) <==>
              (e.phase == Closed) == e.activeAuctionId.None? && (e.activeAuctionId.Some? ==> e.activeAuctionId == e.lastAuctionId)
  {
  }

  method Validate(e: CallAuctionEngine) returns (ok: bool)
    requires e.book.definition.Valid()
    ensures ok <==> EngineAudited(e)
  {
    hide *;
    EngineAuditedIs(e);
    var book := BookAudit.Validate(e.book);
    if !book {
      return false;
    }
    var index := ValidateIndex(e.reportIndex, e.reports);
    if !index || |e.reports| > e.limits.retainedCommands {
      return false;
    }
    var tiled := ValidateEventCapacity(e.eventArena, e.reports, e.limits);
    if !tiled {
      return false;
    }
    TiledFits(e.eventArena, e.reports, e.limits);
    PhaseAgreesIs(e);
    if (e.phase == Closed) != e.activeAuctionId.None? || (e.activeAuctionId.Some? && e.activeAuctionId != e.lastAuctionId) {
      return false;
    }
    ok := ValidateReportHistory(e.eventArena, e.reports, e.book.definition, e.nextCommandSequence, e.nextEventSequence,
                                e.PhaseSnapshot(), e.lastIndicative);
  }

  lemma EngineAuditedIs(e: CallAuctionEngine)
    requires e.book.definition.Valid()
    ensures EngineAudited(e) <==>
              && BookAudit.Audited(e.book)
              && |e.reports| <= e.limits.retainedCommands && Indexed(e.reportIndex, e.reports)
              && Tiled(e.eventArena, e.reports, e.limits) && PhaseAgrees(e.PhaseSnapshot())
              && RangesFit(e.eventArena, e.reports)
              && HistoryOk(HistoryOf(e.eventArena, e.reports), e.book.definition, e.nextCommandSequence, e.nextEventSequence,
                           Audit(e.PhaseSnapshot(), e.lastIndicative))
  {
    hide InstrumentDefinition.Valid, BookAudit.Audited, Indexed, Tiled, PhaseAgrees, RangesFit, HistoryOk, CallAuctionEngine.PhaseSnapshot;
  }

  // ----- every run passes

  /** A well-formed engine whose history replays to it and fits its limits. */
  ghost predicate Replayed(s: EngineState) {
    && WellFormedEngine(s) && s.book.definition.Valid() && Scanned(s.history, s.book.definition) == Some(ScanOf(s))
    && Chronicle(s.history, s.events) && HistoryFits(s)
  }

  lemma ReplayedIs(s: EngineState)
    requires WellFormedEngine(s) && s.book.definition.Valid()
    ensures Replayed(s) <==> Scanned(s.history, s.book.definition) == Some(ScanOf(s)) && Chronicle(s.history, s.events) && HistoryFits(s)
  {
    hide WellFormedEngine, InstrumentDefinition.Valid, Scanned, ScanOf, Chronicle, HistoryFits;
  }

  lemma ReplayedFacts(s: EngineState)
    requires Replayed(s)
    ensures WellFormedEngine(s) && s.book.definition.Valid() && s.limits.Valid()
    ensures Scanned(s.history, s.book.definition) == Some(ScanOf(s)) && Chronicle(s.history, s.events) && HistoryFits(s)
  {
    hide WellFormedEngine, InstrumentDefinition.Valid, Scanned, ScanOf, Chronicle, HistoryFits;
    EngineFacts(s);
  }

  lemma GenesisIsReplayed(definition: InstrumentDefinition, limits: CallAuctionEngineLimits)
    requires definition.Valid() && limits.Valid()
    ensures Replayed(Genesis(definition, limits))
  {
    hide *;
    var s := Genesis(definition, limits);
    EngineFacts(s);
    GenesisScan(definition, limits);
    GenesisChronicle(definition, limits);
    GenesisHistoryFits(definition, limits);
    ReplayedIs(s);
  }

  lemma StepKeepsReplayed(s: EngineState, input: Input)
    requires WellFormedEngine(s) && Replayed(s)
    ensures Replayed(Step(s, input).0)
  {
    hide *;
    ReplayedFacts(s);
    StepIs(s, input);
    StepKeepsChronicle(s, input);
    StepKeepsHistoryFit(s, input);
    var n := Step(s, input).0;
    EngineFacts(n);
    if StepAction(s, input).Some? {
      StepIsScanned(s, input);
      ScannedAppend(s.history, n.history[|s.history|], s.book.definition, ScanOf(s));
    }
    ReplayedIs(n);
  }

  lemma {:induction false} RunKeepsReplayed(s: EngineState, inputs: seq<Input>)
    requires WellFormedEngine(s) && Replayed(s)
    ensures Replayed(Run(s, inputs))
  {
    hide *;
    if inputs == [] {
      Checkpoint.RunNothing(s);
    } else {
      RunKeepsReplayed(s, inputs[..|inputs| - 1]);
      RunStep(s, inputs);
      StepKeepsReplayed(Run(s, inputs[..|inputs| - 1]), inputs[|inputs| - 1]);
    }
  }

  /** An engine restored from any checkpoint replays from its own history. */
  lemma RestoredIsReplayed(c: CallAuctionCheckpoint, limits: CallAuctionEngineLimits, s: EngineState)
    requires c.definition.Valid() && limits.Valid() && Restored(c, limits) == Some(s)
    ensures WellFormedEngine(s) && Replayed(s)
  {
    hide *;
    RestoredIsWellFormed(c, limits, s);
    RestoredCases(c, limits);
    var scan := ValidParts(c);
    ScannedIsSound(c.history, c.definition);
    SavedBookIs(c, limits);
    OrdersOfSaved(c.activeOrders, scan.book.orders);
    NextEventIs(c.history);
    ScanOfIs(s);
    AuditIs(s);
    ProjectionIs(s.book);
    ScanParts(scan);
    RestoredFits(c, limits, s);
    EngineFacts(s);
    ReplayedIs(s);
  }

  lemma ProjectionIs(m: BookModel)
    ensures ProjectionOf(m) == ProjectedBook(m.active, m.seen, m.nextPrioritySequence, m.nextTradeId, m.stateRevision)
  {
  }

  lemma ScanParts(scan: Scan)
    ensures scan == Scan(scan.ids, scan.nextCommand, scan.nextEvent, Audit(scan.audit.phase, scan.audit.lastIndicative),
                         ProjectedBook(scan.book.orders, scan.book.accepted, scan.book.nextPrioritySequence, scan.book.nextTradeId, scan.book.revision))
  {
  }

  lemma RestoredFits(c: CallAuctionCheckpoint, limits: CallAuctionEngineLimits, s: EngineState)
    requires FitsCapacity(c, limits) && s.limits == limits && s.history == c.history && s.events == Flatten(c.history)
    ensures HistoryFits(s)
  {
    hide Flatten, TotalEvents, SavedPrices;
    FlattenedTotal(c.history);
  }

  lemma {:induction false} FlattenedTotal(history: History)
    ensures |Flatten(history)| == TotalEvents(history)
  {
    if history != [] { FlattenedTotal(history[..|history| - 1]); }
  }

  // ----- what a replaying history shows

  lemma ScannedEntryOk(scan: Scan, entry: CallAuctionHistoryEntry, definition: InstrumentDefinition)
    requires definition.Valid() && ScannedEntry(scan, entry, definition).Some?
    ensures ReportIsGrammatical(entry) && IndicativePricesAreValid(entry, definition)
  {
    hide InstrumentDefinition.Valid, ScannedEntry, CallAuctionIndicativeState.IsValidFor, AcceptedProjected, Observed, MetadataAgrees, EventsAreBound, TradeIdsAfter,
      MassCancelGrammar, UncrossGrammar, Carries;
    var audit, numbered, book := ScannedParts(scan, entry, definition);
    ScannedIsGrammatical(scan, entry, definition);
    if entry.report.outcome.Accepted? && entry.report.events[0].kind.IndicativePublished? {
      PublicationIsIndicative(entry);
      IndicativeIsProjected(numbered, definition, entry.command, entry.report.events);
      IndicativeChangesNothing(numbered, definition, entry.command, entry.report.events);
    }
  }

  lemma ScannedIsGrammatical(scan: Scan, entry: CallAuctionHistoryEntry, definition: InstrumentDefinition)
    requires definition.Valid() && ScannedEntry(scan, entry, definition).Some?
    ensures ReportIsGrammatical(entry)
  {
    hide InstrumentDefinition.Valid, AcceptedProjected, Observed, MetadataAgrees, SequencesAfter, ReportIsGrammatical;
  }

  /** Only an indication is answered by a publication. */
  lemma PublicationIsIndicative(entry: CallAuctionHistoryEntry)
    requires ReportIsGrammatical(entry) && entry.report.outcome.Accepted? && entry.report.events[0].kind.IndicativePublished?
    ensures entry.command.Indicative?
  {
    if entry.command.MassCancel? || entry.command.Uncross? {
      BodyIsNoPublication(entry);
    } else {
      hide MassCancelGrammar, UncrossGrammar, Carries, CallAuctionIndicativeState.IsStructurallyValid;
    }
  }

  lemma BodyIsNoPublication(entry: CallAuctionHistoryEntry)
    requires ReportIsGrammatical(entry) && entry.report.outcome.Accepted? && (entry.command.MassCancel? || entry.command.Uncross?)
    ensures !entry.report.events[0].kind.IndicativePublished?
  {
  }

  lemma {:induction false} ScannedEntriesOk(history: History, definition: InstrumentDefinition)
    requires definition.Valid() && Scanned(history, definition).Some?
    ensures forall k {:trigger history[k]} :: 0 <= k < |history| ==> ReportIsGrammatical(history[k]) && IndicativePricesAreValid(history[k], definition)
  {
    hide InstrumentDefinition.Valid, ScannedEntry, ReportIsGrammatical, IndicativePricesAreValid;
    if history != [] {
      var n := |history| - 1;
      ScannedEntriesOk(history[..n], definition);
      ScannedEntryOk(Scanned(history[..n], definition).value, history[n], definition);
      forall k | 0 <= k < |history| ensures ReportIsGrammatical(history[k]) && IndicativePricesAreValid(history[k], definition) {
        if k < n { assert history[k] == history[..n][k]; }
      }
    }
  }

  lemma ReplayedHistoryIsOk(s: EngineState)
    requires Replayed(s)
    ensures s.book.definition.Valid()
    ensures HistoryOk(s.history, s.book.definition, s.nextCommandSequence, s.nextEventSequence, Audit(s.phase, s.lastIndicative))
  {
    hide *;
    ReplayedFacts(s);
    EngineFacts(s);
    ScanOfIs(s);
    AuditIs(s);
    ScanAudits(s.history, s.book.definition);
    ScannedEntriesOk(s.history, s.book.definition);
    forall k | 0 <= k < |s.history| ensures EntryOk(s.history[k], k, Start(s.history, k), s.book.definition) {
      ChronicleAt(s.history, s.events, k);
      EntryIsOk(s.history[k], k, Start(s.history, k), s.book.definition);
    }
    ChronicleAt(s.history, s.events, |s.history|);
    HistoryIsOk(s.history, s.book.definition, s.nextCommandSequence, s.nextEventSequence, Audit(s.phase, s.lastIndicative));
  }

  lemma EntryIsOk(entry: CallAuctionHistoryEntry, index: nat, first: nat, definition: InstrumentDefinition)
    requires definition.Valid() && Bound(entry, index, first) && ReportIsGrammatical(entry) && IndicativePricesAreValid(entry, definition)
    ensures EntryOk(entry, index, first, definition)
  {
  }

  lemma HistoryIsOk(history: History, definition: InstrumentDefinition, nextCommand: nat, nextEvent: nat, live: Audit)
    requires definition.Valid() && nextCommand == |history| + 1 && nextEvent == Start(history, |history|) + 1 && Audited(history, definition) == Some(live)
    requires forall k {:trigger history[k]} :: 0 <= k < |history| ==> EntryOk(history[k], k, Start(history, k), definition)
    ensures HistoryOk(history, definition, nextCommand, nextEvent, live)
  {
    hide InstrumentDefinition.Valid, EntryOk, Audited, Start;
  }

  /** Events are numbered by their place, so each report can only be at its own. */
  lemma ChronicleIsTiled(arena: Arena, reports: Cache, s: EngineState)
    requires RangesFit(arena, reports) && s.history == HistoryOf(arena, reports) && s.events == arena
    requires Chronicle(s.history, s.events) && HistoryFits(s)
    ensures Tiled(arena, reports, s.limits)
  {
    hide Chronicle, RangeOk;
    StartIsCount(arena, reports, |reports|);
    ChronicleAt(s.history, s.events, |reports|);
    forall k | 0 <= k < |reports| ensures RangeOk(reports, s.limits, k) {
      StartIsCount(arena, reports, k);
      ChronicleAt(s.history, s.events, k);
      RangeIsOwn(arena, reports, s, k);
    }
  }

  lemma RangeIsOwn(arena: Arena, reports: Cache, s: EngineState, k: nat)
    requires RangesFit(arena, reports) && s.history == HistoryOf(arena, reports) && s.events == arena && k < |reports|
    requires Chronicle(s.history, s.events) && HistoryFits(s) && Start(s.history, k) == CountBefore(reports, k)
    requires Bound(s.history[k], k, Start(s.history, k)) && Start(s.history, k) + |s.history[k].report.events| <= |arena|
    ensures RangeOk(reports, s.limits, k)
  {
    hide Chronicle, CountBefore;
    var cached, entry := reports[k], s.history[k];
    assert entry == EntryAt(arena, cached);
    assert entry.report.events == arena[cached.start..cached.start + cached.count];
    assert entry.report.events[0] == arena[cached.start];
    NumberedByPlace(s.history, s.events, cached.start);
  }

  lemma {:induction false} NumberedByPlace(history: History, events: seq<CallAuctionEvent>, at: nat)
    requires Chronicle(history, events) && at < |events|
    ensures events[at].sequence == at + 1
    decreases |history|
  {
    hide Retained;
    var last := history[|history| - 1];
    var first := |events| - |last.report.events|;
    if at < first {
      NumberedByPlace(history[..|history| - 1], events[..first], at);
    } else {
      assert events[first..][at - first] == last.report.events[at - first];
    }
  }

  /** A sound engine whose state replays passes its own audit. */
  lemma ReplayedPasses(e: CallAuctionEngine)
    requires e.Sound() && RangesFit(e.eventArena, e.reports) && Replayed(e.State())
    ensures e.book.definition.Valid() && EngineAudited(e)
  {
    hide *;
    e.Unfold();
    e.book.Unfold();
    var s := e.State();
    ReplayedFacts(s);
    EngineFacts(s);
    BookAudit.SoundIsAudited(e.book);
    FitsParts(s);
    ChronicleIsTiled(e.eventArena, e.reports, s);
    ReplayedHistoryIsOk(s);
    PhaseIsOk(s.phase);
    EngineAuditedIs(e);
  }

  lemma FitsParts(s: EngineState)
    requires HistoryFits(s)
    ensures |s.history| <= s.limits.retainedCommands
  {
  }

  lemma PhaseIsOk(phase: CallAuctionPhaseSnapshot)
    requires PhaseOk(phase)
    ensures PhaseAgrees(phase)
  {
  }

  /** The audit accepts the engine at the end of every run. */
  lemma EveryReachableEnginePasses(e: CallAuctionEngine, definition: InstrumentDefinition, limits: CallAuctionEngineLimits, inputs: seq<Input>)
    requires definition.Valid() && limits.Valid() && e.Sound() && RangesFit(e.eventArena, e.reports)
    requires e.State() == Run(Genesis(definition, limits), inputs)
    ensures e.book.definition.Valid() && EngineAudited(e)
  {
    hide *;
    GenesisIsReplayed(definition, limits);
    RunKeepsReplayed(Genesis(definition, limits), inputs);
    ReplayedPasses(e);
  }

  /** And at the end of every run of a restored engine, whatever checkpoint it was restored from. */
  lemma EveryRestoredEnginePasses(e: CallAuctionEngine, c: CallAuctionCheckpoint, limits: CallAuctionEngineLimits, s: EngineState, inputs: seq<Input>)
    requires c.definition.Valid() && limits.Valid() && Restored(c, limits) == Some(s) && WellFormedEngine(s)
    requires e.Sound() && RangesFit(e.eventArena, e.reports) && e.State() == Run(s, inputs)
    ensures e.book.definition.Valid() && EngineAudited(e)
  {
    hide *;
    RestoredIsReplayed(c, limits, s);
    RunKeepsReplayed(s, inputs);
    ReplayedPasses(e);
  }

  // ----- restoring

  datatype CheckpointRefusal =
    | ExceedsCapacity
    | ContradictsHistory
    | BookRefused(book: BookRestoration.BookRestorationError)
    | EngineRefused

  lemma AscendingAreDistinct(orders: seq<CallAuctionOrderSnapshot>, p: ProjectedBook, definition: InstrumentDefinition)
    requires definition.Valid() && ProjectedOk(p, definition) && AscendingOf(orders, p.orders, p.orders.Keys)
    ensures BookRestoration.DistinctSavedPriorities(orders) && BookRestoration.DistinctOrders(orders) && SnapshotIds(orders) <= p.accepted
  {
    hide InstrumentDefinition.Valid, InstrumentDefinition.ValidatePrice;
    forall i, j | 0 <= i < j < |orders| ensures orders[i].orderId != orders[j].orderId && orders[i].prioritySequence != orders[j].prioritySequence {
      assert orders[i].orderId < orders[j].orderId;
      assert p.orders[orders[i].orderId] == orders[i] && p.orders[orders[j].orderId] == orders[j];
    }
    forall id | id in SnapshotIds(orders) ensures id in p.accepted {
      assert ProjectedOrderOk(p, definition, id) by { assert p.orders[id] == p.orders[id]; }
    }
  }

  lemma IncreasingAreDistinct(ids: seq<OrderId>)
    requires IncreasingIds(ids)
    ensures BookRestoration.DistinctIds(ids)
  {
  }

  /** The saved parts of a validated checkpoint repeat no identity and no priority sequence. */
  lemma SavedPartsAreDistinct(c: CallAuctionCheckpoint, limits: CallAuctionEngineLimits)
    requires c.definition.Valid() && CheckpointIsValid(c)
    ensures BookRestoration.DistinctSavedPriorities(c.activeOrders) && BookRestoration.DistinctOrders(c.activeOrders)
    ensures BookRestoration.DistinctIds(c.acceptedOrderIds) && SnapshotIds(c.activeOrders) <= IdSet(c.acceptedOrderIds)
    ensures BookRestoration.SavedModel(c.definition, limits.book, c.activeOrders, c.acceptedOrderIds, c.nextPrioritySequence, c.nextTradeId, c.bookRevision)
              == SavedBook(c, limits)
  {
    hide *;
    var scan := ValidParts(c);
    ScannedIsSound(c.history, c.definition);
    ScanOkIs(scan, c.definition);
    AscendingAreDistinct(c.activeOrders, scan.book, c.definition);
    IncreasingAreDistinct(c.acceptedOrderIds);
    SavedBookIs(c, limits);
    BookRestoration.SavedModelIs(c.definition, limits.book, c.activeOrders, c.acceptedOrderIds, c.nextPrioritySequence, c.nextTradeId, c.bookRevision);
  }

  /** Restores an engine exactly when the checkpoint fits the selected limits, replays to its direct
      state and describes a valid book. The closing audit of the rebuilt engine never refuses. */
  method FromCheckpointWithLimits(instanceId: nat, bookInstanceId: nat, c: CallAuctionCheckpoint, limits: CallAuctionEngineLimits)
    returns (r: Result<CallAuctionEngine, CheckpointRefusal>)
    requires c.definition.Valid() && limits.Valid()
    ensures r.Ok? <==> Restored(c, limits).Some?
    ensures r.Ok? ==>
              && fresh(r.value) && fresh(r.value.book) && r.value.Valid() && Restored(c, limits) == Some(r.value.State()) && r.value.issued == {}
              && r.value.instanceId == instanceId && r.value.book.instanceId == bookInstanceId
              && r.value.book.availableLeases == limits.book.maxPreparedUncrosses && r.value.book.definition.Valid() && EngineAudited(r.value)
    ensures r.Err? ==>
              r.error == if !FitsCapacity(c, limits) then ExceedsCapacity
                         else if !CheckpointIsValid(c) then ContradictsHistory
                         else BookRefused(BookRestoration.AuditRefused)
  {
    hide *;
    RestorableExactly(c, limits);
    var fits := ValidateCapacity(c, limits);
    if !fits {
      return Err(ExceedsCapacity);
    }
    var valid := Checkpoint.Validate(c);
    if !valid {
      return Err(ContradictsHistory);
    }
    SavedBookIsValid(c, limits);
    SavedPartsAreDistinct(c, limits);
    EngineLimitsHold(limits);
    var book := BookRestoration.FromCheckpointState(bookInstanceId, c.definition, limits.book, c.activeOrders, c.acceptedOrderIds,
                                                    c.nextPrioritySequence, c.nextTradeId, c.bookRevision);
    if book.Err? {
      return Err(BookRefused(book.error));
    }
    ghost var s := Restored(c, limits).value;
    RestoredIsWellFormed(c, limits, s);
    RestoredCases(c, limits);
    var engine := new CallAuctionEngine.FromParts(instanceId, book.value, c, limits, s);
    engine.Unfold();
    RestoredIsReplayed(c, limits, s);
    ReplayedPasses(engine);
    var ok := Validate(engine);
    if !ok {
      assert false;
      return Err(EngineRefused);
    }
    return Ok(engine);
  }
}
