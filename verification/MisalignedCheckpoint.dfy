/** A concrete checkpoint that passes validation although one of its trades leaves orders off the
    lot increment: the one rule of the book that replaying reports cannot establish. */
module MisalignedCheckpoint {
  import opened AbstractBook
  import opened Allocation
  import opened Ascending
  import opened AuctionBook
  import opened Checkpoint
  import opened Clearing
  import opened Domain
  import opened EngineTypes
  import opened PhaseAudit
  import opened Projection
  import opened ReportGrammar
  import opened RestoredEngines
  import opened Uncross
  import opened UncrossProjection

  /** Lots come in twos. */
  const RULES := InstrumentDefinition(1, 1, 1, 1, 1, 2, 2, 4)
  const POLICY := CallAuctionUncrossPolicy(PriceTime, RetainAll, Permit)

  function Order(id: OrderId, side: Side): CallAuctionOrder {
    CallAuctionOrder(id, id, 1, 1, side, AuctionOrderConstraint.Market, 4, 0)
  }

  function Resting(id: OrderId, side: Side, lots: Quantity): CallAuctionOrderSnapshot
    requires id <= 2
  {
    CallAuctionOrderSnapshot(id, id, side, AuctionOrderConstraint.Market, lots, 0, id)
  }

  function Entry(k: nat, command: CallAuctionCommand, events: Events): CallAuctionHistoryEntry
    requires 1 <= k <= 5
  {
    CallAuctionHistoryEntry(command, CallAuctionExecutionReport(k, k, Accepted, events, false))
  }

  const OPENED := Entry(1, PhaseControl(1, 1, 1, 1, 0, Collecting, 0), [CallAuctionEvent(1, 1, 0, PhaseChanged(1, Closed, Collecting, 1))])
  const BOUGHT := Entry(2, Submit(2, 1, 1, Order(1, Buy), 0), [CallAuctionEvent(2, 2, 0, OrderAccepted(Resting(1, Buy, 4)))])
  const SOLD := Entry(3, Submit(3, 1, 1, Order(2, Sell), 0), [CallAuctionEvent(3, 3, 0, OrderAccepted(Resting(2, Sell, 4)))])
  const FROZE := Entry(4, PhaseControl(4, 1, 1, 1, 1, Frozen, 0), [CallAuctionEvent(4, 4, 0, PhaseChanged(1, Collecting, Frozen, 2))])

  /** One lot of four is traded. */
  const TRADE := CallAuctionTrade(1, 1, 1, 1, 1, 2, 2, 1, 1)
  const UNCROSS := CallAuctionCommand.Uncross(5, 1, 1, 1, 2, AuctionPriceBand(1, 1), 1, AuctionPricePolicy(Ignore, LowerPrice), POLICY, 0)
  const CROSSED := Entry(5, UNCROSS, [CallAuctionEvent(5, 5, 0, TradeExecuted(TRADE)),
                                      CallAuctionEvent(6, 5, 0, UncrossCompleted(1, FromQuantities(1, 1, 1), POLICY, 1, 0, 3, 3))])

  const HISTORY := [OPENED, BOUGHT, SOLD, FROZE, CROSSED]

  function Controller(phase: CallAuctionPhase, revision: u64): Audit {
    Audit(CallAuctionPhaseSnapshot(phase, revision, if phase == Closed then None else Some(1), Some(1)), None)
  }

  const COLLECTING := Scan({1}, 2, 2, Controller(Collecting, 1), GENESIS_BOOK)
  const ONE_ORDER := Scan({1, 2}, 3, 3, Controller(Collecting, 1), ProjectedBook(map[1 := Resting(1, Buy, 4)], {1}, 2, 1, 1))
  const FULL := ProjectedBook(map[1 := Resting(1, Buy, 4), 2 := Resting(2, Sell, 4)], {1, 2}, 3, 1, 2)
  const TWO_ORDERS := Scan({1, 2, 3}, 4, 4, Controller(Collecting, 1), FULL)
  const READY := Scan({1, 2, 3, 4}, 5, 5, Controller(Frozen, 2), FULL)
  const LEFT := ProjectedBook(map[1 := Resting(1, Buy, 3), 2 := Resting(2, Sell, 3)], {1, 2}, 3, 2, 3)
  const DONE := Scan({1, 2, 3, 4, 5}, 6, 7, Controller(Closed, 3), LEFT)

  lemma RulesAreValid()
    ensures RULES.Valid() && RULES.ValidateQuantity(4).None? && RULES.ValidateLeaves(3).Some?
    ensures RULES.instrumentId == 1 && RULES.version == 1
  {
  }

  /** One report of one event that is no trade. */
  lemma OneEventScans(scan: Scan, entry: CallAuctionHistoryEntry, audit: Audit, book: ProjectedBook)
    requires RULES.Valid() && entry.report.outcome.Accepted? && |entry.report.events| == 1 && !entry.report.events[0].kind.TradeExecuted?
    requires entry.report.events[0].sequence == scan.nextEvent && entry.report.events[0].commandId == entry.command.commandId
    requires entry.report.events[0].occurredAt == entry.command.receivedAt && scan.nextEvent < U64_MAX && scan.nextCommand < U64_MAX
    requires MetadataAgrees(scan, entry) && ReportIsGrammatical(entry) && Observed(scan.audit, entry, RULES) == Some(audit)
    requires AcceptedProjected(scan.book, RULES, entry.command, entry.report.events) == Some(book)
    ensures ScannedEntry(scan, entry, RULES) == Some(Scan(scan.ids + {entry.command.commandId}, scan.nextCommand + 1, scan.nextEvent + 1, audit, book))
  {
    hide RULES, InstrumentDefinition.Valid, ScannedEntry, MetadataAgrees, ReportIsGrammatical, Observed, AcceptedProjected;
    assert TradeIdsAfter(entry.report.events, 0, scan.book.nextTradeId) == Some(scan.book.nextTradeId);
    assert scan.book.(nextTradeId := scan.book.nextTradeId) == scan.book;
    ScanAdvances(scan, entry, RULES, audit, scan.book.nextTradeId, book);
  }

  lemma PhasesAreAllowed()
    ensures RULES.Valid() && Preflight(GENESIS_PHASE, OPENED.command, RULES) == Allowed
    ensures Preflight(Controller(Collecting, 1).phase, FROZE.command, RULES) == Allowed
  {
    hide RULES, InstrumentDefinition.Valid, PreflightPrices, PreflightCycle;
    RulesAreValid();
  }

  lemma PhasesMove()
    ensures Applied(GENESIS_AUDIT, OPENED.command, OPENED.report.events) == Some(Controller(Collecting, 1))
    ensures Applied(Controller(Collecting, 1), FROZE.command, FROZE.report.events) == Some(Controller(Frozen, 2))
  {
    hide RULES;
  }

  lemma AllowedIsApplied(audit: Audit, entry: CallAuctionHistoryEntry)
    requires RULES.Valid() && entry.report.outcome.Accepted? && Preflight(audit.phase, entry.command, RULES) == Allowed
    ensures Observed(audit, entry, RULES) == Applied(audit, entry.command, entry.report.events)
  {
    hide RULES, InstrumentDefinition.Valid, Preflight, Applied, BookMayReject;
  }

  lemma PhaseIsGrammatical(entry: CallAuctionHistoryEntry)
    requires entry.command.PhaseControl? && entry.report.outcome.Accepted? && !entry.report.replayed && |entry.report.events| == 1
    requires entry.command.expectedPhaseRevision < U64_MAX && entry.report.events[0].kind.PhaseChanged?
    requires entry.report.events[0].kind.auctionId == entry.command.auctionId && entry.report.events[0].kind.current == entry.command.targetPhase
    requires entry.report.events[0].kind.revision == entry.command.expectedPhaseRevision + 1
    ensures ReportIsGrammatical(entry)
  {
    hide MassCancelGrammar, UncrossGrammar, Carries;
  }

  lemma PhaseReports()
    ensures ReportIsGrammatical(OPENED) && ReportIsGrammatical(FROZE)
    ensures RULES.Valid() && Observed(GENESIS_AUDIT, OPENED, RULES) == Some(Controller(Collecting, 1))
    ensures Observed(Controller(Collecting, 1), FROZE, RULES) == Some(Controller(Frozen, 2))
  {
    hide RULES, InstrumentDefinition.Valid, Preflight, Applied, Observed, ReportIsGrammatical;
    PhasesAreAllowed();
    PhasesMove();
    PhaseIsGrammatical(OPENED);
    PhaseIsGrammatical(FROZE);
    AllowedIsApplied(GENESIS_AUDIT, OPENED);
    AllowedIsApplied(Controller(Collecting, 1), FROZE);
  }

  lemma Opens()
    ensures RULES.Valid() && ScannedEntry(GENESIS_SCAN, OPENED, RULES) == Some(COLLECTING)
  {
    hide RULES, InstrumentDefinition.Valid, ScannedEntry, ReportIsGrammatical, Observed;
    RulesAreValid();
    PhaseReports();
    assert GENESIS_SCAN.ids + {1} == COLLECTING.ids;
    OneEventScans(GENESIS_SCAN, OPENED, Controller(Collecting, 1), GENESIS_BOOK);
  }

  lemma Freezes()
    ensures RULES.Valid() && ScannedEntry(TWO_ORDERS, FROZE, RULES) == Some(READY)
  {
    hide RULES, InstrumentDefinition.Valid, ScannedEntry, ReportIsGrammatical, Observed;
    RulesAreValid();
    PhaseReports();
    assert TWO_ORDERS.ids + {4} == READY.ids;
    OneEventScans(TWO_ORDERS, FROZE, Controller(Frozen, 2), FULL);
  }

  lemma OrderReports()
    ensures ReportIsGrammatical(BOUGHT) && ReportIsGrammatical(SOLD)
    ensures RULES.Valid() && Observed(Controller(Collecting, 1), BOUGHT, RULES) == Some(Controller(Collecting, 1))
    ensures Observed(Controller(Collecting, 1), SOLD, RULES) == Some(Controller(Collecting, 1))
  {
    hide RULES, InstrumentDefinition.Valid, PreflightPrices, BookMayReject, PreflightControl;
    RulesAreValid();
  }

  lemma OrdersJoin()
    ensures RULES.Valid() && AcceptedProjected(GENESIS_BOOK, RULES, BOUGHT.command, BOUGHT.report.events) == Some(ONE_ORDER.book)
    ensures AcceptedProjected(ONE_ORDER.book, RULES, SOLD.command, SOLD.report.events) == Some(FULL)
  {
    hide RULES, InstrumentDefinition.Valid, InstrumentDefinition.ValidateQuantity;
    RulesAreValid();
    assert GENESIS_BOOK.orders[1 := Resting(1, Buy, 4)] == ONE_ORDER.book.orders && GENESIS_BOOK.accepted + {1} == ONE_ORDER.book.accepted;
    assert ONE_ORDER.book.orders[2 := Resting(2, Sell, 4)] == FULL.orders && ONE_ORDER.book.accepted + {2} == FULL.accepted;
    assert Joined(GENESIS_BOOK, RULES, Order(1, Buy), Resting(1, Buy, 4)) == Some(ONE_ORDER.book);
    assert Joined(ONE_ORDER.book, RULES, Order(2, Sell), Resting(2, Sell, 4)) == Some(FULL);
  }

  lemma Buys()
    ensures RULES.Valid() && ScannedEntry(COLLECTING, BOUGHT, RULES) == Some(ONE_ORDER)
  {
    hide RULES, InstrumentDefinition.Valid, ScannedEntry, ReportIsGrammatical, Observed, AcceptedProjected;
    RulesAreValid();
    OrderReports();
    OrdersJoin();
    assert COLLECTING.ids + {2} == ONE_ORDER.ids;
    OneEventScans(COLLECTING, BOUGHT, Controller(Collecting, 1), ONE_ORDER.book);
  }

  lemma Sells()
    ensures RULES.Valid() && ScannedEntry(ONE_ORDER, SOLD, RULES) == Some(TWO_ORDERS)
  {
    hide RULES, InstrumentDefinition.Valid, ScannedEntry, ReportIsGrammatical, Observed, AcceptedProjected;
    RulesAreValid();
    OrderReports();
    OrdersJoin();
    assert ONE_ORDER.ids + {3} == TWO_ORDERS.ids;
    OneEventScans(ONE_ORDER, SOLD, Controller(Collecting, 1), FULL);
  }

  // ----- the uncross

  lemma CrossingIsAllowed()
    ensures RULES.Valid() && Preflight(READY.audit.phase, UNCROSS, RULES) == Allowed
    ensures Applied(READY.audit, UNCROSS, CROSSED.report.events) == Some(DONE.audit)
  {
    hide RULES, InstrumentDefinition.Valid, PreflightPrices, PreflightControl;
    RulesAreValid();
  }

  lemma CrossingIsGrammatical()
    ensures UncrossGrammar(CROSSED.report.events, UNCROSS)
  {
    var events := CROSSED.report.events;
    assert TradedLotsOf(events, 1) == TradedLotsOf(events, 0) + 1;
    assert FromQuantities(1, 1, 1).executableQuantity == 1;
  }

  /** The trade takes one lot from each order of four. */
  lemma CrossingProjects()
    ensures UncrossProjected(FULL.orders, CROSSED.report.events, 1).Some?
    ensures UncrossProjected(FULL.orders, CROSSED.report.events, 1).value.orders == LEFT.orders
  {
    var start := UncrossScan(FULL.orders, map[]);
    assert UncrossProjected(FULL.orders, CROSSED.report.events, 0) == Some(start);
    var both := UncrossScan(FULL.orders, map[1 := 4, 2 := 4]);
    assert Remember(start, 1) == Some(UncrossScan(FULL.orders, map[1 := 4]));
    assert map[1 := 4][2 := 4] == both.sources;
    var bought := map[1 := Resting(1, Buy, 3), 2 := Resting(2, Sell, 4)];
    assert Reduced(FULL.orders, 1, 1, Buy, 1, 1) == Some(bought) by { assert FULL.orders[1 := Resting(1, Buy, 3)] == bought; }
    assert Reduced(bought, 2, 2, Sell, 1, 1) == Some(LEFT.orders) by { assert bought[2 := Resting(2, Sell, 3)] == LEFT.orders; }
  }

  lemma CrossingCompletes()
    ensures RULES.Valid() && AcceptedProjected(FULL.(nextTradeId := 2), RULES, UNCROSS, CROSSED.report.events) == Some(LEFT)
  {
    hide RULES, InstrumentDefinition.Valid, UncrossProjected;
    RulesAreValid();
    CrossingProjects();
  }

  lemma TradeIsNumbered()
    ensures TradeIdsAfter(CROSSED.report.events, 2, 1) == Some(2) && EventsAreBound(CROSSED, 5, 2)
  {
    var events := CROSSED.report.events;
    assert TradeIdsAfter(events, 0, 1) == Some(1);
    assert TradeIdsAfter(events, 1, 1) == Some(2);
  }

  lemma Crosses()
    ensures RULES.Valid() && ScannedEntry(READY, CROSSED, RULES) == Some(DONE)
  {
    hide RULES, InstrumentDefinition.Valid, ScannedEntry, Observed, AcceptedProjected, Preflight, Applied, UncrossGrammar, EventsAreBound, TradeIdsAfter;
    RulesAreValid();
    CrossingIsAllowed();
    AllowedIsApplied(READY.audit, CROSSED);
    CrossingIsGrammatical();
    CrossingCompletes();
    TradeIsNumbered();
    assert READY.ids + {5} == DONE.ids;
    ScanAdvances(READY, CROSSED, RULES, DONE.audit, 2, LEFT);
  }

  // ----- the checkpoint

  const CHECKPOINT := CallAuctionCheckpoint(1, 11, RULES, DONE.audit.phase, 3, 3, 2, [1, 2], [Resting(1, Buy, 3), Resting(2, Sell, 3)], HISTORY)

  lemma HistoryReplays()
    ensures RULES.Valid() && Scanned(HISTORY, RULES) == Some(DONE)
  {
    hide RULES, InstrumentDefinition.Valid, ScannedEntry, Scanned, OPENED, BOUGHT, SOLD, FROZE, CROSSED, COLLECTING, ONE_ORDER, TWO_ORDERS, READY, DONE;
    RulesAreValid();
    Opens();
    Buys();
    Sells();
    Freezes();
    Crosses();
    NothingScanned();
    ScannedAppend([], OPENED, RULES, GENESIS_SCAN);
    assert [] + [OPENED] == [OPENED];
    ScannedAppend([OPENED], BOUGHT, RULES, COLLECTING);
    assert [OPENED] + [BOUGHT] == [OPENED, BOUGHT];
    ScannedAppend([OPENED, BOUGHT], SOLD, RULES, ONE_ORDER);
    assert [OPENED, BOUGHT] + [SOLD] == [OPENED, BOUGHT, SOLD];
    ScannedAppend([OPENED, BOUGHT, SOLD], FROZE, RULES, TWO_ORDERS);
    assert [OPENED, BOUGHT, SOLD] + [FROZE] == [OPENED, BOUGHT, SOLD, FROZE];
    ScannedAppend([OPENED, BOUGHT, SOLD, FROZE], CROSSED, RULES, READY);
    assert [OPENED, BOUGHT, SOLD, FROZE] + [CROSSED] == HISTORY;
  }

  lemma NothingScanned()
    ensures RULES.Valid() && Scanned([], RULES) == Some(GENESIS_SCAN)
  {
    hide RULES, InstrumentDefinition.Valid;
    RulesAreValid();
  }

  /** Validation accepts the checkpoint; its leaves of three are off the increment of two. */
  lemma ValidationMissesTheIncrement()
    ensures CHECKPOINT.definition.Valid() && CheckpointIsValid(CHECKPOINT) && !LeavesFit(CHECKPOINT)
  {
    hide RULES, InstrumentDefinition.Valid, InstrumentDefinition.ValidateLeaves, Scanned;
    RulesAreValid();
    HistoryReplays();
    assert IdSet([1, 2]) == {1, 2} by { assert [1, 2][0] == 1 && [1, 2][1] == 2; }
    var orders := CHECKPOINT.activeOrders;
    assert SnapshotIds(orders) == {1, 2} by { assert orders[0].orderId == 1 && orders[1].orderId == 2; }
    assert orders[0].quantity == 3;
  }
}
