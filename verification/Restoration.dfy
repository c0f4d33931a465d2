/** Capturing a checkpoint and restoring an engine from it. */
module Restoration {
  import opened AbstractBook
  import opened Ascending
  import opened AuctionBook
  import opened Checkpoint
  import opened Clearing
  import opened Domain
  import opened EngineLaws
  import opened EngineModel
  import opened EngineRuns
  import opened EngineTypes
  import opened PhaseAudit
  import opened Projection
  import opened ProjectionLaws
  import ReportGrammar
  import opened RunLaws
  import opened Uncross
  import opened UncrossProjection

  // ----- capture

  ghost function InsertId(ids: seq<OrderId>, id: OrderId): seq<OrderId> {
    if ids == [] then [id] else if ids[|ids| - 1] < id then ids + [id] else InsertId(ids[..|ids| - 1], id) + [ids[|ids| - 1]]
  }

  lemma {:induction false} InsertKeepsIncreasing(ids: seq<OrderId>, id: OrderId)
    requires IncreasingIds(ids) && id !in ids
    ensures IncreasingIds(InsertId(ids, id)) && |InsertId(ids, id)| == |ids| + 1
    ensures forall x :: x in InsertId(ids, id) <==> x in ids || x == id
  {
    if ids != [] && !(ids[|ids| - 1] < id) {
      var n := |ids| - 1;
      assert ids == ids[..n] + [ids[n]];
      InsertKeepsIncreasing(ids[..n], id);
      var inserted := InsertId(ids[..n], id);
      forall i | 0 <= i < |inserted| ensures inserted[i] < ids[n] {
        assert inserted[i] in inserted;
      }
    }
  }

  lemma {:induction false} IdsCanBeListed(ids: set<OrderId>) returns (r: seq<OrderId>)
    ensures IncreasingIds(r) && IdSet(r) == ids
    decreases |ids|
  {
    if ids == {} {
      r := [];
    } else {
      var id :| id in ids;
      var rest := IdsCanBeListed(ids - {id});
      assert id in rest ==> id in IdSet(rest);
      InsertKeepsIncreasing(rest, id);
      r := InsertId(rest, id);
      forall x: OrderId ensures x in IdSet(r) <==> x in ids {
        assert x in IdSet(r) <==> x in r;
        assert x in IdSet(rest) <==> x in rest;
      }
    }
  }

  /** The ordered listing of a set of identities, as an ordered index gives it. */
  ghost function AscendingIds(ids: set<OrderId>): (r: seq<OrderId>)
    ensures IncreasingIds(r) && IdSet(r) == ids
  {
    assert exists r :: IncreasingIds(r) && IdSet(r) == ids by { var r := IdsCanBeListed(ids); }
    var r :| IncreasingIds(r) && IdSet(r) == ids;
    r
  }

  /** The checkpoint an engine captures at a log position. */
  ghost function CheckpointOf(s: EngineState, walMetadataSequence: u64, walSequence: u64): CallAuctionCheckpoint {
    CallAuctionCheckpoint(walMetadataSequence, walSequence, s.book.definition, s.phase, s.book.stateRevision, s.book.nextPrioritySequence,
                          s.book.nextTradeId, AscendingIds(s.book.seen), AscendingOrders(s.book.active, s.book.active.Keys), s.history)
  }

  lemma CapturedAgrees(s: EngineState, walMetadataSequence: u64, walSequence: u64)
    requires s.book.Valid()
    ensures DirectStateAgrees(CheckpointOf(s, walMetadataSequence, walSequence), ScanOf(s))
    ensures AscendingOf(AscendingOrders(s.book.active, s.book.active.Keys), s.book.active, s.book.active.Keys)
  {
    hide BookModel.Valid, AscendingIds, AscendingOrders, CommandIds;
    OrdersAreKeyed(s.book);
    AscendingOrdersAre(s.book.active, s.book.active.Keys);
    hide AscendingOf;
  }

  lemma OrdersAreKeyed(m: BookModel)
    requires m.Valid()
    ensures forall id :: id in m.active ==> m.active[id].orderId == id
  {
    forall id | id in m.active ensures m.active[id].orderId == id { OrderFacts(m, id); }
  }

  /** A checkpoint captured from any run validates exactly when its log position is the boundary
      after the retained history. */
  lemma CapturedValidatesAtItsBoundary(definition: InstrumentDefinition, limits: CallAuctionEngineLimits, inputs: seq<Input>,
                                       walMetadataSequence: u64, walSequence: u64)
    requires definition.Valid() && limits.Valid()
    ensures var s := Run(Genesis(definition, limits), inputs);
            s.book.definition == definition && (CheckpointIsValid(CheckpointOf(s, walMetadataSequence, walSequence)) <==>
              walMetadataSequence != 0 && walMetadataSequence + 2 * |s.history| == walSequence)
  {
    hide *;
    var s := Run(Genesis(definition, limits), inputs);
    EventsDetermineState(definition, limits, inputs);
    EngineFacts(s);
    CapturedAgrees(s, walMetadataSequence, walSequence);
    CapturedIs(s, walMetadataSequence, walSequence);
    ValidityIs(CheckpointOf(s, walMetadataSequence, walSequence));
  }

  lemma CapturedIs(s: EngineState, walMetadataSequence: u64, walSequence: u64)
    ensures CheckpointOf(s, walMetadataSequence, walSequence) ==
              CallAuctionCheckpoint(walMetadataSequence, walSequence, s.book.definition, s.phase, s.book.stateRevision, s.book.nextPrioritySequence,
                s.book.nextTradeId, AscendingIds(s.book.seen), AscendingOrders(s.book.active, s.book.active.Keys), s.history)
  {
    hide AscendingIds, AscendingOrders;
  }

  // ----- capacity

  ghost function TotalEvents(history: History): nat {
    if history == [] then 0 else TotalEvents(history[..|history| - 1]) + |history[|history| - 1].report.events|
  }

  ghost function SavedPrices(orders: seq<CallAuctionOrderSnapshot>, side: Side): set<Price> {
    set k | 0 <= k < |orders| && orders[k].side == side && orders[k].constraint.Limit? :: orders[k].constraint.price
  }

  ghost predicate FitsCapacity(c: CallAuctionCheckpoint, limits: CallAuctionEngineLimits) {
    && |c.history| <= limits.retainedCommands
    && (forall k {:trigger c.history[k]} :: 0 <= k < |c.history| ==> |c.history[k].report.events| <= limits.reportEvents)
    && TotalEvents(c.history) <= limits.retainedEvents
    && |c.acceptedOrderIds| <= limits.book.maxAcceptedOrderIds && |c.activeOrders| <= limits.book.maxActiveOrders
    && |SavedPrices(c.activeOrders, Buy)| <= limits.book.maxPriceLevelsPerSide
    && |SavedPrices(c.activeOrders, Sell)| <= limits.book.maxPriceLevelsPerSide
  }

  lemma {:induction false} TotalGrows(history: History, n: nat)
    requires n <= |history|
    ensures TotalEvents(history[..n]) <= TotalEvents(history)
    decreases |history|
  {
    if n < |history| {
      TotalGrows(history[..|history| - 1], n);
      assert history[..|history| - 1][..n] == history[..n];
    } else {
      assert history[..n] == history;
    }
  }

  /** Counts a checkpoint against the selected limits. */
  method ValidateCapacity(c: CallAuctionCheckpoint, limits: CallAuctionEngineLimits) returns (ok: bool)
    ensures ok <==> FitsCapacity(c, limits)
  {
    if |c.history| > limits.retainedCommands {
      return false;
    }
    for k := 0 to |c.history|
      invariant forall i {:trigger c.history[i]} :: 0 <= i < k ==> |c.history[i].report.events| <= limits.reportEvents
    {
      if |c.history[k].report.events| > limits.reportEvents {
        return false;
      }
    }
    var retained: usize := 0;
    for k := 0 to |c.history|
      invariant retained == TotalEvents(c.history[..k])
    {
      assert c.history[..k + 1][..k] == c.history[..k] && c.history[..k + 1][k] == c.history[k];
      TotalGrows(c.history, k + 1);
      if retained + |c.history[k].report.events| > U64_MAX {
        return false;
      }
      retained := retained + |c.history[k].report.events|;
    }
    assert c.history[..|c.history|] == c.history;
    if retained > limits.retainedEvents || |c.acceptedOrderIds| > limits.book.maxAcceptedOrderIds || |c.activeOrders| > limits.book.maxActiveOrders {
      return false;
    }
    var bids: set<Price>, asks: set<Price> := {}, {};
    for k := 0 to |c.activeOrders|
      invariant bids == set i | 0 <= i < k && c.activeOrders[i].side == Buy && c.activeOrders[i].constraint.Limit? :: c.activeOrders[i].constraint.price
      invariant asks == set i | 0 <= i < k && c.activeOrders[i].side == Sell && c.activeOrders[i].constraint.Limit? :: c.activeOrders[i].constraint.price
    {
      var order := c.activeOrders[k];
      if order.constraint.Limit? {
        match order.side {
          case Buy => bids := bids + {order.constraint.price};
          case Sell => asks := asks + {order.constraint.price};
        }
      }
    }
    assert bids == SavedPrices(c.activeOrders, Buy) && asks == SavedPrices(c.activeOrders, Sell);
    ok := |bids| <= limits.book.maxPriceLevelsPerSide && |asks| <= limits.book.maxPriceLevelsPerSide;
  }

  /** The retained history respects the limits it was retained under. */
  ghost predicate HistoryFits(s: EngineState) {
    && |s.history| <= s.limits.retainedCommands && |s.events| <= s.limits.retainedEvents
    && forall k {:trigger s.history[k]} :: 0 <= k < |s.history| ==> |s.history[k].report.events| <= s.limits.reportEvents
  }

  lemma CapacityLeaves(s: EngineState, decided: PreparedAction, events: nat)
    requires s.limits.Valid() && CapacityError(s, decided).None? && events <= MaximumEvents(decided)
    ensures |s.history| + 1 <= s.limits.retainedCommands && |s.events| + events <= s.limits.retainedEvents && events <= s.limits.reportEvents
  {
  }

  lemma HistoryGrows(s: EngineState, n: EngineState, entry: CallAuctionHistoryEntry)
    requires HistoryFits(s) && n.limits == s.limits && n.history == s.history + [entry] && n.events == s.events + entry.report.events
    requires |s.history| + 1 <= s.limits.retainedCommands && |s.events| + |entry.report.events| <= s.limits.retainedEvents
    requires |entry.report.events| <= s.limits.reportEvents
    ensures HistoryFits(n)
  {
  }

  lemma StepKeepsHistoryFit(s: EngineState, input: Input)
    requires WellFormedEngine(s) && HistoryFits(s)
    ensures HistoryFits(Step(s, input).0)
  {
    hide *;
    EngineFacts(s);
    StepIs(s, input);
    if StepAction(s, input).Some? {
      var action := StepAction(s, input).value;
      CommittedIs(s, input.command, action);
      var decided :| Decide(s, input.bookInstanceId, input.leases, input.command) == Ok(decided) && CapacityError(s, decided).None?
                     && action == Gated(decided, input.external) && GateAllows(input.command, input.external);
      DecisionIsSound(s, input.bookInstanceId, input.leases, input.command, decided);
      GatedIsSound(s, input.command, decided, input.external);
      CapacityLeaves(s, decided, MaximumEvents(action));
      HistoryGrows(s, Step(s, input).0, CallAuctionHistoryEntry(input.command, ReportOf(s, input.command, action)));
    }
  }

  lemma {:induction false} RunKeepsHistoryFit(s: EngineState, inputs: seq<Input>)
    requires WellFormedEngine(s) && HistoryFits(s)
    ensures HistoryFits(Run(s, inputs))
  {
    hide *;
    if inputs == [] {
      RunNothing(s);
    } else {
      RunKeepsHistoryFit(s, inputs[..|inputs| - 1]);
      RunStep(s, inputs);
      StepKeepsHistoryFit(Run(s, inputs[..|inputs| - 1]), inputs[|inputs| - 1]);
    }
  }

  lemma {:induction false} TotalIsStart(history: History)
    ensures TotalEvents(history) == Start(history, |history|)
  {
    if history != [] {
      var n := |history| - 1;
      TotalIsStart(history[..n]);
      StartOfPrefix(history, n, n);
    }
  }

  lemma SavedPricesAre(m: BookModel, orders: seq<CallAuctionOrderSnapshot>, side: Side)
    requires AscendingOf(orders, m.active, m.active.Keys)
    ensures SavedPrices(orders, side) == m.LevelPrices(side)
  {
    forall price ensures price in SavedPrices(orders, side) <==> price in m.LevelPrices(side) {
      if price in SavedPrices(orders, side) {
        var k :| 0 <= k < |orders| && orders[k].side == side && orders[k].constraint.Limit? && orders[k].constraint.price == price;
        assert orders[k].orderId in m.active;
      }
      if price in m.LevelPrices(side) {
        var id :| id in m.active && m.active[id].side == side && m.active[id].constraint.Limit? && m.active[id].constraint.price == price;
        assert id in SnapshotIds(orders);
        var k :| 0 <= k < |orders| && orders[k].orderId == id;
        assert orders[k] == m.active[id];
      }
    }
  }

  lemma BookBounds(m: BookModel)
    requires m.Valid()
    ensures |m.active| <= m.limits.maxActiveOrders && |m.seen| <= m.limits.maxAcceptedOrderIds
    ensures |m.LevelPrices(Buy)| <= m.limits.maxPriceLevelsPerSide && |m.LevelPrices(Sell)| <= m.limits.maxPriceLevelsPerSide
  {
  }

  lemma CapturedFits(s: EngineState, walMetadataSequence: u64, walSequence: u64)
    requires WellFormedEngine(s) && HistoryFits(s) && Chronicle(s.history, s.events)
    ensures FitsCapacity(CheckpointOf(s, walMetadataSequence, walSequence), s.limits)
  {
    hide *;
    EngineFacts(s);
    BookBounds(s.book);
    CapturedIs(s, walMetadataSequence, walSequence);
    CapturedAgrees(s, walMetadataSequence, walSequence);
    var orders := AscendingOrders(s.book.active, s.book.active.Keys);
    SavedPricesAre(s.book, orders, Buy);
    SavedPricesAre(s.book, orders, Sell);
    AscendingSize(orders, s.book.active, s.book.active.Keys);
    IncreasingSize(AscendingIds(s.book.seen));
    TotalIsStart(s.history);
    ChronicleAt(s.history, s.events, |s.history|);
    assert |s.book.active| == |s.book.active.Keys|;
    FitsCapacityIs(CheckpointOf(s, walMetadataSequence, walSequence), s);
  }

  lemma FitsCapacityIs(c: CallAuctionCheckpoint, s: EngineState)
    requires HistoryFits(s) && c.history == s.history && TotalEvents(c.history) == |s.events|
    requires |c.acceptedOrderIds| <= s.limits.book.maxAcceptedOrderIds && |c.activeOrders| <= s.limits.book.maxActiveOrders
    requires |SavedPrices(c.activeOrders, Buy)| <= s.limits.book.maxPriceLevelsPerSide
    requires |SavedPrices(c.activeOrders, Sell)| <= s.limits.book.maxPriceLevelsPerSide
    ensures FitsCapacity(c, s.limits)
  {
    hide TotalEvents, SavedPrices;
  }

  // ----- restoration

  ghost function OrdersOf(orders: seq<CallAuctionOrderSnapshot>): Orders {
    if orders == [] then map[] else OrdersOf(orders[..|orders| - 1])[orders[|orders| - 1].orderId := orders[|orders| - 1]]
  }

  /** The event arena, rewritten report by report. */
  ghost function Flatten(history: History): seq<CallAuctionEvent> {
    if history == [] then [] else Flatten(history[..|history| - 1]) + history[|history| - 1].report.events
  }

  /** The event sequence continues after the last event of the last report. */
  function NextEventSequence(history: History): nat {
    if history == [] || history[|history| - 1].report.events == [] then 1
    else var events := history[|history| - 1].report.events; events[|events| - 1].sequence + 1
  }

  /** The book saved in a checkpoint, under the selected limits. */
  ghost function SavedBook(c: CallAuctionCheckpoint, limits: CallAuctionEngineLimits): BookModel {
    BookModel(c.definition, limits.book, OrdersOf(c.activeOrders), IdSet(c.acceptedOrderIds), c.nextPrioritySequence, c.nextTradeId, c.bookRevision)
  }

  /** The engine a checkpoint restores to, or none if it exceeds the limits, contradicts its
      history, or leaves no sequence or valid book. */
  ghost function Restored(c: CallAuctionCheckpoint, limits: CallAuctionEngineLimits): Option<EngineState>
    requires c.definition.Valid()
  {
    if !FitsCapacity(c, limits) || !CheckpointIsValid(c) then None
    else if |c.history| + 1 > U64_MAX || NextEventSequence(c.history) > U64_MAX || !SavedBook(c, limits).Valid() then None
    else Some(EngineState(limits, SavedBook(c, limits), c.phase, Scanned(c.history, c.definition).value.audit.lastIndicative,
                          |c.history| + 1, NextEventSequence(c.history), c.history, Flatten(c.history)))
  }

  lemma {:induction false} OrdersOfPrefix(orders: seq<CallAuctionOrderSnapshot>, active: Ascending.Active, n: nat)
    requires n <= |orders| && AscendingOf(orders, active, active.Keys)
    ensures OrdersOf(orders[..n]) == map id | id in SnapshotIds(orders[..n]) && id in active :: active[id]
  {
    if n == 0 {
      assert SnapshotIds(orders[..0]) == {};
    } else {
      OrdersOfPrefix(orders, active, n - 1);
      NextSnapshot(orders, active, active.Keys, n - 1);
      assert orders[..n][..n - 1] == orders[..n - 1] && orders[..n][n - 1] == orders[n - 1] && orders[n - 1] == active[orders[n - 1].orderId];
      hide AscendingOf, SnapshotIds;
    }
  }

  lemma OrdersOfSaved(orders: seq<CallAuctionOrderSnapshot>, active: Ascending.Active)
    requires AscendingOf(orders, active, active.Keys)
    ensures OrdersOf(orders) == active
  {
    OrdersOfPrefix(orders, active, |orders|);
    AllSnapshots(orders, active, active.Keys);
    assert orders[..|orders|] == orders;
    hide AscendingOf, SnapshotIds, OrdersOf;
  }

  lemma {:induction false} FlattenIsEvents(history: History, events: seq<CallAuctionEvent>)
    requires Chronicle(history, events)
    ensures Flatten(history) == events && NextEventSequence(history) == |events| + 1
  {
    hide Retained;
    if history != [] {
      var last := history[|history| - 1];
      var first := |events| - |last.report.events|;
      FlattenIsEvents(history[..|history| - 1], events[..first]);
      assert events == events[..first] + events[first..];
      assert Bound(last, |history| - 1, first);
    }
  }

  /** Under the limits it was captured with, a checkpoint taken at its log boundary restores
      exactly the engine it was taken from. */
  lemma RestoringIsExact(definition: InstrumentDefinition, limits: CallAuctionEngineLimits, inputs: seq<Input>, walMetadataSequence: u64, walSequence: u64)
    requires definition.Valid() && limits.Valid()
    requires var s := Run(Genesis(definition, limits), inputs);
             walMetadataSequence != 0 && walMetadataSequence + 2 * |s.history| == walSequence
    ensures var s := Run(Genesis(definition, limits), inputs);
            s.book.definition == definition && Restored(CheckpointOf(s, walMetadataSequence, walSequence), limits) == Some(s)
  {
    hide *;
    var genesis := Genesis(definition, limits);
    var s := Run(genesis, inputs);
    var c := CheckpointOf(s, walMetadataSequence, walSequence);
    GenesisChronicle(definition, limits);
    GenesisHistoryFits(definition, limits);
    RunKeepsChronicle(genesis, inputs);
    RunKeepsHistoryFit(genesis, inputs);
    RunOnlyAppends(genesis, inputs);
    EventsDetermineState(definition, limits, inputs);
    CapturedValidatesAtItsBoundary(definition, limits, inputs, walMetadataSequence, walSequence);
    EngineFacts(s);
    CapturedFits(s, walMetadataSequence, walSequence);
    CapturedAgrees(s, walMetadataSequence, walSequence);
    CapturedIs(s, walMetadataSequence, walSequence);
    OrdersOfSaved(c.activeOrders, s.book.active);
    FlattenIsEvents(s.history, s.events);
    ScanOfIs(s);
    AuditIs(s);
    RestoredIs(c, limits, s);
  }

  lemma GenesisHistoryFits(definition: InstrumentDefinition, limits: CallAuctionEngineLimits)
    requires definition.Valid() && limits.Valid()
    ensures HistoryFits(Genesis(definition, limits)) && Genesis(definition, limits).limits == limits
  {
    hide InstrumentDefinition.Valid, CallAuctionEngineLimits.Valid;
  }

  lemma RestoredIs(c: CallAuctionCheckpoint, limits: CallAuctionEngineLimits, s: EngineState)
    requires c.definition.Valid() && FitsCapacity(c, limits) && CheckpointIsValid(c)
    requires s.limits == limits && s.book.limits == limits.book && s.book.Valid() && c.definition == s.book.definition
    requires OrdersOf(c.activeOrders) == s.book.active && IdSet(c.acceptedOrderIds) == s.book.seen
    requires c.nextPrioritySequence == s.book.nextPrioritySequence && c.nextTradeId == s.book.nextTradeId && c.bookRevision == s.book.stateRevision
    requires Scanned(c.history, c.definition).Some? && Scanned(c.history, c.definition).value.audit == Audit(s.phase, s.lastIndicative)
    requires c.phase == s.phase && c.history == s.history && Flatten(s.history) == s.events && NextEventSequence(s.history) == |s.events| + 1
    requires s.nextCommandSequence == |s.history| + 1 && s.nextEventSequence == |s.events| + 1
    ensures Restored(c, limits) == Some(s)
  {
    hide InstrumentDefinition.Valid, BookModel.Valid, FitsCapacity, CheckpointIsValid, OrdersOf, IdSet, Scanned, Flatten, NextEventSequence;
  }

  lemma {:induction false} ScanAudits(history: History, definition: InstrumentDefinition)
    requires definition.Valid() && Scanned(history, definition).Some?
    ensures Audited(history, definition) == Some(Scanned(history, definition).value.audit)
  {
    hide InstrumentDefinition.Valid, MetadataAgrees, ReportGrammar.ReportIsGrammatical, Observed, SequencesAfter, AcceptedProjected;
    if history != [] {
      ScanAudits(history[..|history| - 1], definition);
    }
  }

  // ----- bisimulation

  /** The same command offered to another instance of the book: same gate verdict, same free leases. */
  ghost predicate SameOffer(a: Input, b: Input) {
    a.command == b.command && a.external == b.external && a.leases == b.leases
  }

  /** Actions that differ only in the book instance their preparation names. */
  ghost predicate SameAction(a: PreparedAction, b: PreparedAction) {
    match (a, b)
    case (UncrossAction(_, _, x), UncrossAction(_, _, y)) => a.(prepared := x.(bookInstanceId := 0)) == b.(prepared := y.(bookInstanceId := 0))
    case _ => a == b
  }

  ghost predicate SameDecision(a: Decision, b: Decision) {
    match (a, b)
    case (Ok(x), Ok(y)) => SameAction(x, y)
    case _ => a == b
  }

  lemma CrossingsAgree(s: EngineState, i: nat, j: nat, leases: usize, command: CallAuctionCommand, c: AuctionClearing)
    requires command.Uncross? && ClearsAt(s.book, c)
    ensures SameDecision(DecideCrossing(s, i, leases, command, c), DecideCrossing(s, j, leases, command, c))
  {
    hide ClearsAt, TradeIdsFit, SelfPairOf, SideFills, PairsOf, PreparedTrades, SideRemainders;
  }

  lemma UncrossDecisionsAgree(s: EngineState, i: nat, j: nat, leases: usize, command: CallAuctionCommand)
    requires command.Uncross? && s.book.Valid() && s.book.definition.Valid()
    ensures SameDecision(DecideUncross(s, i, leases, command), DecideUncross(s, j, leases, command))
  {
    hide BookModel.Valid, InstrumentDefinition.Valid, UncrossRejection, BandError, Discovered, DecideCrossing, ClearsAt, SameAction;
    DiscoveredClears(s, command.priceBand, command.referencePrice, command.pricePolicy);
    var best := Discovered(s, command.priceBand, command.referencePrice, command.pricePolicy);
    SelfSame();
    if best.Some? { CrossingsAgree(s, i, j, leases, command, best.value); }
  }

  lemma SelfSame()
    ensures forall a :: SameAction(a, a)
  {
  }

  lemma DecisionsAgree(s: EngineState, i: nat, j: nat, leases: usize, command: CallAuctionCommand)
    requires s.book.Valid() && s.book.definition.Valid()
    ensures SameDecision(Decide(s, i, leases, command), Decide(s, j, leases, command))
  {
    hide BookModel.Valid, InstrumentDefinition.Valid, DecidePhase, DecideSubmit, DecideCancel, DecideMassCancel, DecideAmend, DecideReplace,
      DecideIndicative, DecideUncross, SameAction, Route;
    SelfSame();
    if command.Uncross? { UncrossDecisionsAgree(s, i, j, leases, command); }
  }

  lemma SameActionsMeasureAlike(s: EngineState, a: PreparedAction, b: PreparedAction)
    requires s.limits.Valid() && SameAction(a, b)
    ensures MaximumEvents(a) == MaximumEvents(b) && CapacityError(s, a) == CapacityError(s, b) && (a.RejectedAction? <==> b.RejectedAction?)
  {
  }

  lemma SameActionsGateAlike(a: PreparedAction, b: PreparedAction, external: Option<CallAuctionRejectReason>)
    requires SameAction(a, b)
    ensures SameAction(Gated(a, external), Gated(b, external))
  {
    SelfSame();
  }

  lemma SameUncrossKinds(auctionId: AuctionId, revision: u64, a: PreparedCallAuctionUncross, b: PreparedCallAuctionUncross)
    requires a.(bookInstanceId := 0) == b.(bookInstanceId := 0) && |a.trades| <= U64_MAX && |a.cancellations| <= U64_MAX
    ensures UncrossKinds(auctionId, revision, a) == UncrossKinds(auctionId, revision, b)
  {
  }

  lemma SameActionsDoAlike(s: EngineState, command: CallAuctionCommand, a: PreparedAction, b: PreparedAction)
    requires SameAction(a, b) && Applicable(s.book, a) && Applicable(s.book, b) && MaximumEvents(a) <= U64_MAX && MaximumEvents(b) <= U64_MAX
    ensures BookAfter(s.book, a) == BookAfter(s.book, b) && PhaseAfter(s.phase, a) == PhaseAfter(s.phase, b)
    ensures IndicativeAfter(s.lastIndicative, a) == IndicativeAfter(s.lastIndicative, b) && OutcomeOf(a) == OutcomeOf(b)
    ensures EventKinds(s, command, a) == EventKinds(s, command, b)
  {
    hide IsPreparation, TradeIdsFit, Uncrossed, UncrossKinds, MassCancelKinds, Admitted, WithoutOrders, WithoutTarget, Amended, Selected, ClearsAt;
    if a.UncrossAction? { SameUncrossKinds(a.auctionId, a.phaseRevision, a.prepared, b.prepared); }
  }

  lemma CommitsAgree(s: EngineState, command: CallAuctionCommand, a: PreparedAction, b: PreparedAction)
    requires SameAction(a, b) && s.limits.Valid() && Committable(s, command, a) && Committable(s, command, b)
    ensures Applicable(s.book, a) && HasRoom(s, a) && |EventKinds(s, command, a)| <= MaximumEvents(a)
    ensures Applicable(s.book, b) && HasRoom(s, b) && |EventKinds(s, command, b)| <= MaximumEvents(b)
    ensures Committed(s, command, a) == Committed(s, command, b) && ReportOf(s, command, a) == ReportOf(s, command, b)
  {
    hide *;
    CommittableFacts(s, command, a);
    CommittableFacts(s, command, b);
    RoomFacts(s, a);
    RoomFacts(s, b);
    SameActionsMeasureAlike(s, a, b);
    SameActionsDoAlike(s, command, a, b);
    CommitDependsOnEffects(s, command, a, b);
  }

  lemma CommitDependsOnEffects(s: EngineState, command: CallAuctionCommand, a: PreparedAction, b: PreparedAction)
    requires Applicable(s.book, a) && HasRoom(s, a) && |EventKinds(s, command, a)| <= MaximumEvents(a)
    requires Applicable(s.book, b) && HasRoom(s, b) && |EventKinds(s, command, b)| <= MaximumEvents(b)
    requires BookAfter(s.book, a) == BookAfter(s.book, b) && PhaseAfter(s.phase, a) == PhaseAfter(s.phase, b)
    requires IndicativeAfter(s.lastIndicative, a) == IndicativeAfter(s.lastIndicative, b) && OutcomeOf(a) == OutcomeOf(b)
    requires EventKinds(s, command, a) == EventKinds(s, command, b)
    ensures Committed(s, command, a) == Committed(s, command, b) && ReportOf(s, command, a) == ReportOf(s, command, b)
  {
    hide Applicable, BookAfter, PhaseAfter, IndicativeAfter, EventKinds, MaximumEvents, OutcomeOf;
  }

  lemma PreparesAgree(s: EngineState, a: Input, b: Input)
    requires WellFormedEngine(s) && s.book.Valid() && s.limits.Valid() && s.book.definition.Valid() && SameOffer(a, b)
    ensures match (Prepare(s, a.bookInstanceId, a.leases, a.command), Prepare(s, b.bookInstanceId, b.leases, b.command))
            case (Ok(Ready(x)), Ok(Ready(y))) => SameAction(x, y)
            case (x, y) => x == y
  {
    hide BookModel.Valid, InstrumentDefinition.Valid, WellFormedEngine, Decide, CapacityError, Retained, SameAction;
    DecisionsAgree(s, a.bookInstanceId, b.bookInstanceId, a.leases, a.command);
    var x, y := Decide(s, a.bookInstanceId, a.leases, a.command), Decide(s, b.bookInstanceId, b.leases, b.command);
    if x.Ok? && y.Ok? { SameActionsMeasureAlike(s, x.value, y.value); }
  }

  lemma StepUnfolds(s: EngineState, input: Input)
    requires WellFormedEngine(s)
    ensures s.book.Valid() && s.limits.Valid() && s.book.definition.Valid()
    ensures match Prepare(s, input.bookInstanceId, input.leases, input.command)
            case Err(error) => Step(s, input) == (s, Err(error))
            case Ok(Replay(report)) => Step(s, input) == (s, Ok(report))
            case Ok(Ready(action)) =>
              if !GateAllows(input.command, input.external) then Step(s, input) == (s, Err(EngineInvariantViolation))
              else
                && Committable(s, input.command, Gated(action, input.external))
                && Step(s, input) ==
                     (Committed(s, input.command, Gated(action, input.external)), Ok(ReportOf(s, input.command, Gated(action, input.external))))
  {
    hide BookModel.Valid, InstrumentDefinition.Valid, CallAuctionEngineLimits.Valid, WellFormedEngine, Prepare, Committable, Gated, GateAllows, Committed, ReportOf,
      PhaseOk, IndicationOk;
    EngineFacts(s);
    match Prepare(s, input.bookInstanceId, input.leases, input.command) {
      case Ok(Ready(action)) => ReadyIsCommittable(s, input, action);
      case _ =>
    }
  }

  lemma SameOfferIs(a: Input, b: Input)
    requires SameOffer(a, b)
    ensures a.command == b.command && a.external == b.external && a.leases == b.leases
  {
  }

  /** A step does not depend on which book instance serves it. */
  lemma StepsAgree(s: EngineState, a: Input, b: Input)
    requires WellFormedEngine(s) && SameOffer(a, b)
    ensures Step(s, a) == Step(s, b)
  {
    hide *;
    SameOfferIs(a, b);
    StepUnfolds(s, a);
    StepUnfolds(s, b);
    PreparesAgree(s, a, b);
    match (Prepare(s, a.bookInstanceId, a.leases, a.command), Prepare(s, b.bookInstanceId, b.leases, b.command)) {
      case (Ok(Ready(x)), Ok(Ready(y))) =>
        if GateAllows(a.command, a.external) {
          SameActionsGateAlike(x, y, a.external);
          CommitsAgree(s, a.command, Gated(x, a.external), Gated(y, a.external));
        }
      case _ =>
    }
  }

  /** The answers of a run, in order. */
  ghost function Answers(s: EngineState, inputs: seq<Input>): seq<Answer>
    requires WellFormedEngine(s)
  {
    if inputs == [] then [] else
    Answers(s, inputs[..|inputs| - 1]) + [Step(Run(s, inputs[..|inputs| - 1]), inputs[|inputs| - 1]).1]
  }

  ghost predicate SameOffers(a: seq<Input>, b: seq<Input>) {
    |a| == |b| && forall k {:trigger a[k]} {:trigger b[k]} :: 0 <= k < |a| ==> SameOffer(a[k], b[k])
  }

  lemma {:induction false} RunsAgree(s: EngineState, a: seq<Input>, b: seq<Input>)
    requires WellFormedEngine(s) && SameOffers(a, b)
    ensures Run(s, a) == Run(s, b) && Answers(s, a) == Answers(s, b)
  {
    hide WellFormedEngine, Step, SameOffer;
    if a != [] {
      var last := |a| - 1;
      RunsAgree(s, a[..last], b[..last]);
      assert SameOffer(a[last], b[last]);
      StepsAgree(Run(s, a[..last]), a[last], b[last]);
    }
  }

  /** Restoring is a bisimulation: the restored engine answers every later sequence of commands,
      exact retries included, with the reports the original gives, and stays equal to it. */
  lemma RestoringIsABisimulation(definition: InstrumentDefinition, limits: CallAuctionEngineLimits, inputs: seq<Input>,
                                 walMetadataSequence: u64, walSequence: u64, later: seq<Input>, offered: seq<Input>)
    requires definition.Valid() && limits.Valid() && SameOffers(later, offered)
    requires var s := Run(Genesis(definition, limits), inputs);
             walMetadataSequence != 0 && walMetadataSequence + 2 * |s.history| == walSequence
    ensures var s := Run(Genesis(definition, limits), inputs);
            s.book.definition == definition
            && var t := Restored(CheckpointOf(s, walMetadataSequence, walSequence), limits);
               t.Some? && WellFormedEngine(t.value) && Answers(t.value, offered) == Answers(s, later) && Run(t.value, offered) == Run(s, later)
  {
    hide *;
    RestoringIsExact(definition, limits, inputs, walMetadataSequence, walSequence);
    RunsAgree(Run(Genesis(definition, limits), inputs), later, offered);
  }
}
