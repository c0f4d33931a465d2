/** Soundness of checkpoint validation: whatever checkpoint passes it, captured or not, restores to a
    well-formed engine, and capturing that engine gives the checkpoint back. */
module RestoredEngines {
  import opened AbstractBook
  import opened Ascending
  import opened AuctionBook
  import opened Checkpoint
  import opened Domain
  import opened EngineLaws
  import opened EngineModel
  import opened EngineTypes
  import opened PhaseAudit
  import opened Projection
  import opened ProjectionLaws
  import opened ReportGrammar
  import opened Restoration
  import opened RunLaws
  import opened Uncross
  import opened UncrossProjection

  // ----- projected books

  ghost predicate ProjectedOrderOk(p: ProjectedBook, definition: InstrumentDefinition, id: OrderId)
    requires definition.Valid() && id in p.orders
  {
    var order := p.orders[id];
    && order.orderId == id && id in p.accepted && 1 <= order.prioritySequence < p.nextPrioritySequence
    && (order.constraint.Limit? ==> definition.ValidatePrice(order.constraint.price).None?)
  }

  /** Everything a valid book requires that replaying reports establishes by itself: all but the
      increment of the leaves, which an uncross report could break. */
  ghost predicate ProjectedOk(p: ProjectedBook, definition: InstrumentDefinition)
    requires definition.Valid()
  {
    && (forall id {:trigger p.orders[id]} :: id in p.orders ==> ProjectedOrderOk(p, definition, id))
    && (forall a, b {:trigger p.orders[a], p.orders[b]} :: a in p.orders && b in p.orders && a != b ==>
          p.orders[a].prioritySequence != p.orders[b].prioritySequence)
    && |p.accepted| <= p.revision && 1 <= p.nextPrioritySequence && 1 <= p.nextTradeId
  }

  /** Orders that left or lost quantity, and nothing else. */
  ghost predicate Diminished(before: Orders, after: Orders) {
    forall id {:trigger after[id]} :: id in after ==> id in before && after[id] == before[id].(quantity := after[id].quantity)
  }

  lemma DiminishedFurther(a: Orders, b: Orders, c: Orders)
    requires Diminished(a, b) && Diminished(b, c)
    ensures Diminished(a, c)
  {
  }

  lemma DiminishedStaysOk(p: ProjectedBook, definition: InstrumentDefinition, orders: Orders)
    requires definition.Valid() && ProjectedOk(p, definition) && Diminished(p.orders, orders)
    ensures ProjectedOk(p.(orders := orders), definition)
  {
    hide InstrumentDefinition.Valid, InstrumentDefinition.ValidatePrice;
    var q := p.(orders := orders);
    forall id | id in q.orders ensures ProjectedOrderOk(q, definition, id) {
      assert ProjectedOrderOk(p, definition, id) by { assert p.orders[id] == p.orders[id]; }
    }
  }

  lemma RevisedStaysOk(p: ProjectedBook, definition: InstrumentDefinition)
    requires definition.Valid() && ProjectedOk(p, definition) && NewRevision(p).Some?
    ensures ProjectedOk(NewRevision(p).value, definition)
    ensures NewRevision(p).value == p.(revision := p.revision + 1)
  {
    hide InstrumentDefinition.Valid, InstrumentDefinition.ValidatePrice;
    var q := NewRevision(p).value;
    forall id | id in q.orders ensures ProjectedOrderOk(q, definition, id) {
      assert ProjectedOrderOk(p, definition, id) by { assert p.orders[id] == p.orders[id]; }
    }
  }

  lemma JoinedStaysOk(p: ProjectedBook, definition: InstrumentDefinition, order: CallAuctionOrder, snapshot: CallAuctionOrderSnapshot)
    requires definition.Valid() && ProjectedOk(p, definition) && Joined(p, definition, order, snapshot).Some?
    ensures ProjectedOk(Joined(p, definition, order, snapshot).value, definition)
  {
    hide InstrumentDefinition.Valid, InstrumentDefinition.ValidatePrice, InstrumentDefinition.ValidateQuantity;
    var q := Joined(p, definition, order, snapshot).value;
    forall id | id in q.orders ensures ProjectedOrderOk(q, definition, id) {
      if id != snapshot.orderId {
        assert ProjectedOrderOk(p, definition, id) by { assert p.orders[id] == q.orders[id]; }
      }
    }
    forall a, b | a in q.orders && b in q.orders && a != b ensures q.orders[a].prioritySequence != q.orders[b].prioritySequence {
      if a != snapshot.orderId { assert ProjectedOrderOk(p, definition, a) by { assert p.orders[a] == q.orders[a]; } }
      if b != snapshot.orderId { assert ProjectedOrderOk(p, definition, b) by { assert p.orders[b] == q.orders[b]; } }
    }
  }

  lemma LeftDiminishes(orders: Orders, order: CallAuctionOrderSnapshot)
    requires Left(orders, order).Some?
    ensures Diminished(orders, Left(orders, order).value)
  {
  }

  lemma {:induction false} CancelsDiminish(orders: Orders, events: Events, n: nat)
    requires n <= |events| && CancelsProjected(orders, events, n).Some?
    ensures Diminished(orders, CancelsProjected(orders, events, n).value)
  {
    hide Diminished, Left;
    if n == 0 {
      DiminishedByNothing(orders);
    } else {
      CancelsDiminish(orders, events, n - 1);
      var before := CancelsProjected(orders, events, n - 1).value;
      LeftDiminishes(before, events[n - 1].kind.cancelled);
      DiminishedFurther(orders, before, CancelsProjected(orders, events, n).value);
    }
  }

  lemma DiminishedByNothing(orders: Orders)
    ensures Diminished(orders, orders)
  {
  }

  lemma ReducedDiminishes(orders: Orders, id: OrderId, accountId: AccountId, side: Side, price: Price, lots: Quantity)
    requires Reduced(orders, id, accountId, side, price, lots).Some?
    ensures Diminished(orders, Reduced(orders, id, accountId, side, price, lots).value)
  {
  }

  lemma RememberedOrders(scan: UncrossScan, id: OrderId)
    ensures Remember(scan, id).Some? ==> Remember(scan, id).value.orders == scan.orders
  {
  }

  lemma TradeDiminishes(scan: UncrossScan, trade: CallAuctionTrade)
    requires TradeProjected(scan, trade).Some?
    ensures Diminished(scan.orders, TradeProjected(scan, trade).value.orders)
  {
    hide Diminished, Remember, Reduced;
    RememberedOrders(scan, trade.buyOrderId);
    var both := Remember(Remember(scan, trade.buyOrderId).value, trade.sellOrderId);
    RememberedOrders(Remember(scan, trade.buyOrderId).value, trade.sellOrderId);
    ReducedDiminishes(both.value.orders, trade.buyOrderId, trade.buyAccountId, Buy, trade.price, trade.quantity);
    var bought := Reduced(both.value.orders, trade.buyOrderId, trade.buyAccountId, Buy, trade.price, trade.quantity).value;
    ReducedDiminishes(bought, trade.sellOrderId, trade.sellAccountId, Sell, trade.price, trade.quantity);
    DiminishedFurther(scan.orders, bought, TradeProjected(scan, trade).value.orders);
  }

  lemma RemainderDiminishes(scan: UncrossScan, cancellation: CallAuctionCancellation)
    requires RemainderProjected(scan, cancellation).Some?
    ensures Diminished(scan.orders, RemainderProjected(scan, cancellation).value.orders)
  {
  }

  lemma {:induction false} UncrossDiminishes(orders: Orders, events: Events, n: nat)
    requires n <= |events| && UncrossProjected(orders, events, n).Some?
    ensures Diminished(orders, UncrossProjected(orders, events, n).value.orders)
  {
    hide Diminished, TradeProjected, RemainderProjected;
    if n == 0 {
      DiminishedByNothing(orders);
    } else {
      UncrossDiminishes(orders, events, n - 1);
      var before := UncrossProjected(orders, events, n - 1).value;
      match events[n - 1].kind {
        case TradeExecuted(trade) => TradeDiminishes(before, trade);
        case RemainderCancelled(cancellation) => RemainderDiminishes(before, cancellation);
        case _ =>
      }
      DiminishedFurther(orders, before.orders, UncrossProjected(orders, events, n).value.orders);
    }
  }

  lemma AmendStaysOk(p: ProjectedBook, definition: InstrumentDefinition, command: CallAuctionCommand, kind: CallAuctionEventKind)
    requires definition.Valid() && command.Amend? && ProjectedOk(p, definition) && AmendProjected(p, definition, command, kind).Some?
    ensures ProjectedOk(AmendProjected(p, definition, command, kind).value, definition)
  {
    hide InstrumentDefinition.Valid, InstrumentDefinition.ValidateLeaves, ProjectedOk, NewRevision;
    RevisedStaysOk(p, definition);
    var q := AmendProjected(p, definition, command, kind).value;
    assert Diminished(p.orders, q.orders);
    DiminishedStaysOk(NewRevision(p).value, definition, q.orders);
  }

  lemma ReplaceStaysOk(p: ProjectedBook, definition: InstrumentDefinition, command: CallAuctionCommand, events: Events)
    requires definition.Valid() && command.Replace? && ProjectedOk(p, definition) && ReplaceProjected(p, definition, command, events).Some?
    ensures ProjectedOk(ReplaceProjected(p, definition, command, events).value, definition)
  {
    hide InstrumentDefinition.Valid, ProjectedOk, Joined, Left, Diminished;
    var target := events[0].kind.cancelled;
    LeftDiminishes(p.orders, target);
    DiminishedStaysOk(p, definition, Left(p.orders, target).value);
    JoinedStaysOk(p.(orders := Left(p.orders, target).value), definition, command.replacement, events[1].kind.accepted);
  }

  lemma MassCancelStaysOk(p: ProjectedBook, definition: InstrumentDefinition, orders: Option<Orders>, last: CallAuctionEventKind)
    requires definition.Valid() && ProjectedOk(p, definition) && MassCancelProjected(p, orders, last).Some? && Diminished(p.orders, orders.value)
    ensures ProjectedOk(MassCancelProjected(p, orders, last).value, definition)
  {
    hide InstrumentDefinition.Valid, ProjectedOk, Diminished, NewRevision;
    if NewRevision(p).Some? {
      RevisedStaysOk(p, definition);
      DiminishedStaysOk(NewRevision(p).value, definition, orders.value);
    }
    DiminishedStaysOk(p, definition, orders.value);
  }

  lemma CompletionStaysOk(p: ProjectedBook, definition: InstrumentDefinition, orders: Option<Orders>, last: CallAuctionEventKind)
    requires definition.Valid() && ProjectedOk(p, definition) && UncrossCompletes(p, orders, last).Some? && Diminished(p.orders, orders.value)
    ensures ProjectedOk(UncrossCompletes(p, orders, last).value, definition)
  {
    hide InstrumentDefinition.Valid, ProjectedOk, Diminished, NewRevision;
    RevisedStaysOk(p, definition);
    DiminishedStaysOk(NewRevision(p).value, definition, orders.value);
  }

  /** Whatever report is accepted, the projected book stays a book. */
  lemma AcceptedStaysOk(p: ProjectedBook, definition: InstrumentDefinition, command: CallAuctionCommand, events: Events)
    requires definition.Valid() && events != [] && ProjectedOk(p, definition) && AcceptedProjected(p, definition, command, events).Some?
    ensures ProjectedOk(AcceptedProjected(p, definition, command, events).value, definition)
  {
    hide InstrumentDefinition.Valid, ProjectedOk, Joined, AmendProjected, ReplaceProjected, IndicativeProjected, Left, CancelsProjected, MassCancelProjected,
      UncrossProjected, UncrossCompletes, NewRevision, Diminished;
    var n := |events| - 1;
    match command {
      case Submit(_, _, _, order, _) => JoinedStaysOk(p, definition, order, events[0].kind.accepted);
      case Amend(_, _, _, _, _, _, _, _, _) => AmendStaysOk(p, definition, command, events[0].kind);
      case Replace(_, _, _, _, _, _, _) => ReplaceStaysOk(p, definition, command, events);
      case Indicative(_, _, _, _, _, _, _, _, _) => IndicativeChangesNothing(p, definition, command, events);
      case Cancel(_, _, _, _, _, _) =>
        LeftDiminishes(p.orders, events[0].kind.cancelled);
        DiminishedStaysOk(p, definition, Left(p.orders, events[0].kind.cancelled).value);
        RevisedStaysOk(p.(orders := Left(p.orders, events[0].kind.cancelled).value), definition);
      case MassCancel(_, _, _, _, _, _) =>
        MassCancelHasOrders(p, CancelsProjected(p.orders, events, n), events[n].kind);
        CancelsDiminish(p.orders, events, n);
        MassCancelStaysOk(p, definition, CancelsProjected(p.orders, events, n), events[n].kind);
      case Uncross(_, _, _, _, _, _, _, _, _, _) =>
        var scan := UncrossProjected(p.orders, events, n);
        var orders := if scan.Some? then Some(scan.value.orders) else None;
        CompletionHasOrders(p, orders, events[n].kind);
        UncrossDiminishes(p.orders, events, n);
        CompletionStaysOk(p, definition, orders, events[n].kind);
      case PhaseControl(_, _, _, _, _, _, _) =>
    }
  }

  lemma IndicativeChangesNothing(p: ProjectedBook, definition: InstrumentDefinition, command: CallAuctionCommand, events: Events)
    requires definition.Valid() && command.Indicative? && IndicativeProjected(p, definition, command, events).Some?
    ensures IndicativeProjected(p, definition, command, events) == Some(p)
    ensures |events| == 1 && events[0].kind.IndicativePublished?
    ensures var state := events[0].kind.state;
            && state.auctionId == command.auctionId && state.phaseRevision == command.expectedPhaseRevision && state.bookRevision == p.revision
            && state.IsValidFor(definition)
  {
    hide InstrumentDefinition.Valid;
  }

  lemma MassCancelHasOrders(p: ProjectedBook, orders: Option<Orders>, last: CallAuctionEventKind)
    requires MassCancelProjected(p, orders, last).Some?
    ensures orders.Some?
  {
  }

  lemma CompletionHasOrders(p: ProjectedBook, orders: Option<Orders>, last: CallAuctionEventKind)
    requires UncrossCompletes(p, orders, last).Some?
    ensures orders.Some?
  {
  }

  // ----- one replayed report

  /** A retained indication is of the active cycle, at the replayed revisions, within the rules. */
  ghost predicate IndicationAgrees(audit: Audit, p: ProjectedBook, definition: InstrumentDefinition)
    requires definition.Valid()
  {
    audit.lastIndicative.Some? ==>
      && audit.phase.activeAuctionId == Some(audit.lastIndicative.value.auctionId)
      && audit.lastIndicative.value.phaseRevision == audit.phase.revision && audit.lastIndicative.value.bookRevision == p.revision
      && audit.lastIndicative.value.IsValidFor(definition)
  }

  ghost predicate ScanOk(scan: Scan, definition: InstrumentDefinition)
    requires definition.Valid()
  {
    PhaseOk(scan.audit.phase) && ProjectedOk(scan.book, definition) && IndicationAgrees(scan.audit, scan.book, definition)
  }

  lemma ObservedKeepsPhase(audit: Audit, entry: CallAuctionHistoryEntry, definition: InstrumentDefinition)
    requires definition.Valid() && PhaseOk(audit.phase) && Observed(audit, entry, definition).Some?
    ensures PhaseOk(Observed(audit, entry, definition).value.phase)
  {
    hide InstrumentDefinition.Valid, InstrumentDefinition.ValidatePrice, BookMayReject, PreflightPrices;
  }

  lemma RejectedKeepsAudit(audit: Audit, entry: CallAuctionHistoryEntry, definition: InstrumentDefinition)
    requires definition.Valid() && entry.report.outcome.Rejected? && Observed(audit, entry, definition).Some?
    ensures Observed(audit, entry, definition) == Some(audit)
  {
    hide InstrumentDefinition.Valid, Preflight, BookMayReject, Applied;
  }

  lemma AcceptedForgets(audit: Audit, entry: CallAuctionHistoryEntry, definition: InstrumentDefinition)
    requires definition.Valid() && entry.report.outcome.Accepted? && Observed(audit, entry, definition).Some?
    ensures !entry.command.Indicative? ==> Observed(audit, entry, definition).value.lastIndicative.None?
    ensures entry.command.Indicative? ==>
              && entry.command.expectedPhaseRevision == audit.phase.revision && audit.phase.activeAuctionId == Some(entry.command.auctionId)
              && |entry.report.events| == 1 && entry.report.events[0].kind.IndicativePublished?
              && Observed(audit, entry, definition) == Some(Audit(audit.phase, Some(entry.report.events[0].kind.state)))
  {
    hide InstrumentDefinition.Valid, InstrumentDefinition.ValidatePrice, BookMayReject, PreflightPrices;
  }

  lemma RenumberedStaysOk(p: ProjectedBook, definition: InstrumentDefinition, nextTradeId: u64)
    requires definition.Valid() && ProjectedOk(p, definition) && nextTradeId >= 1
    ensures ProjectedOk(p.(nextTradeId := nextTradeId), definition)
  {
    hide InstrumentDefinition.Valid, InstrumentDefinition.ValidatePrice;
    var q := p.(nextTradeId := nextTradeId);
    forall id | id in q.orders ensures ProjectedOrderOk(q, definition, id) {
      assert ProjectedOrderOk(p, definition, id) by { assert p.orders[id] == q.orders[id]; }
    }
  }

  lemma {:induction false} TradeIdsRise(events: Events, n: nat, next: u64)
    requires n <= |events| && TradeIdsAfter(events, n, next).Some?
    ensures TradeIdsAfter(events, n, next).value >= next
  {
    if n > 0 { TradeIdsRise(events, n - 1, next); }
  }

  /** What a scanned report gives, part by part. */
  lemma ScannedParts(scan: Scan, entry: CallAuctionHistoryEntry, definition: InstrumentDefinition)
    returns (audit: Audit, numbered: ProjectedBook, book: ProjectedBook)
    requires definition.Valid() && ScannedEntry(scan, entry, definition).Some?
    ensures MetadataAgrees(scan, entry) && entry.report.events != [] && EventsAreBound(entry, scan.nextEvent, |entry.report.events|)
    ensures Observed(scan.audit, entry, definition) == Some(audit)
    ensures TradeIdsAfter(entry.report.events, |entry.report.events|, scan.book.nextTradeId) == Some(numbered.nextTradeId)
    ensures numbered == scan.book.(nextTradeId := numbered.nextTradeId)
    ensures Some(book) == if entry.report.outcome.Accepted? then AcceptedProjected(numbered, definition, entry.command, entry.report.events) else Some(numbered)
    ensures scan.nextCommand < U64_MAX && scan.nextEvent + |entry.report.events| <= U64_MAX
    ensures ScannedEntry(scan, entry, definition) ==
              Some(Scan(scan.ids + {entry.command.commandId}, scan.nextCommand + 1, scan.nextEvent + |entry.report.events|, audit, book))
  {
    hide InstrumentDefinition.Valid, MetadataAgrees, ReportIsGrammatical, Observed, EventsAreBound, TradeIdsAfter, AcceptedProjected;
    MetadataHasEvents(scan, entry);
    audit := Observed(scan.audit, entry, definition).value;
    numbered := scan.book.(nextTradeId := SequencesAfter(entry, scan.nextEvent, scan.book.nextTradeId).value.1);
    book := ScannedEntry(scan, entry, definition).value.book;
  }

  /** A replayed report keeps the replayed state sound. */
  lemma ScannedStaysOk(scan: Scan, entry: CallAuctionHistoryEntry, definition: InstrumentDefinition)
    requires definition.Valid() && ScanOk(scan, definition) && ScannedEntry(scan, entry, definition).Some?
    ensures ScanOk(ScannedEntry(scan, entry, definition).value, definition)
  {
    hide InstrumentDefinition.Valid, PhaseOk, ProjectedOk, ScannedEntry, Observed, AcceptedProjected, TradeIdsAfter;
    var audit, numbered, book := ScannedParts(scan, entry, definition);
    var events := entry.report.events;
    TradeIdsRise(events, |events|, scan.book.nextTradeId);
    ProjectedBounds(scan.book, definition);
    RenumberedStaysOk(scan.book, definition, numbered.nextTradeId);
    ObservedKeepsPhase(scan.audit, entry, definition);
    if entry.report.outcome.Rejected? {
      RejectedKeepsAudit(scan.audit, entry, definition);
    } else {
      AcceptedForgets(scan.audit, entry, definition);
      AcceptedStaysOk(numbered, definition, entry.command, events);
      if entry.command.Indicative? {
        IndicativeIsProjected(numbered, definition, entry.command, events);
        IndicativeChangesNothing(numbered, definition, entry.command, events);
      }
    }
  }

  lemma ProjectedBounds(p: ProjectedBook, definition: InstrumentDefinition)
    requires definition.Valid() && ProjectedOk(p, definition)
    ensures p.nextTradeId >= 1
  {
  }

  lemma IndicativeIsProjected(p: ProjectedBook, definition: InstrumentDefinition, command: CallAuctionCommand, events: Events)
    requires definition.Valid() && events != [] && command.Indicative?
    ensures AcceptedProjected(p, definition, command, events) == IndicativeProjected(p, definition, command, events)
  {
    hide InstrumentDefinition.Valid, IndicativeProjected;
  }

  // ----- a whole replayed history

  lemma ScannedIsBound(scan: Scan, entry: CallAuctionHistoryEntry, index: nat, first: nat)
    requires MetadataAgrees(scan, entry) && EventsAreBound(entry, scan.nextEvent, |entry.report.events|)
    requires scan.nextCommand == index + 1 && scan.nextEvent == first + 1
    ensures Bound(entry, index, first)
  {
  }

  /** A history that replays is the chronicle of its own events, and replays to a sound state. */
  lemma {:induction false} ScannedIsSound(history: History, definition: InstrumentDefinition)
    requires definition.Valid() && Scanned(history, definition).Some?
    ensures var scan := Scanned(history, definition).value;
            && ScanOk(scan, definition) && scan.ids == CommandIds(history)
            && scan.nextCommand == |history| + 1 && scan.nextEvent == |Flatten(history)| + 1
            && Chronicle(history, Flatten(history))
    decreases |history|
  {
    hide InstrumentDefinition.Valid, ScanOk, ScannedEntry, Bound, MetadataAgrees, EventsAreBound, Chronicle, Retained;
    if history == [] {
      GenesisIsOk(definition);
    } else {
      var before, entry := history[..|history| - 1], history[|history| - 1];
      ScannedIsSound(before, definition);
      var scan := Scanned(before, definition).value;
      var audit, numbered, book := ScannedParts(scan, entry, definition);
      ScannedStaysOk(scan, entry, definition);
      ScannedIsBound(scan, entry, |before|, |Flatten(before)|);
      MetadataIsNew(scan, entry);
      RetainedMeansCommandId(before, entry.command.commandId);
      ChronicleGrows(before, Flatten(before), entry);
      assert before + [entry] == history;
    }
  }

  lemma MetadataIsNew(scan: Scan, entry: CallAuctionHistoryEntry)
    requires MetadataAgrees(scan, entry)
    ensures entry.command.commandId !in scan.ids
  {
  }

  lemma GenesisIsOk(definition: InstrumentDefinition)
    requires definition.Valid()
    ensures ScanOk(GENESIS_SCAN, definition) && GENESIS_SCAN.ids == {} && GENESIS_SCAN.nextCommand == 1 && GENESIS_SCAN.nextEvent == 1
    ensures Chronicle([], []) && Flatten([]) == [] && CommandIds([]) == {}
  {
    hide InstrumentDefinition.Valid;
  }

  // ----- what validation leaves to the book's own audit

  /** Saved leaves respect the instrument's maximum and increment. */
  ghost predicate LeavesFit(c: CallAuctionCheckpoint)
    requires c.definition.Valid()
  {
    forall k {:trigger c.activeOrders[k]} :: 0 <= k < |c.activeOrders| ==> c.definition.ValidateLeaves(c.activeOrders[k].quantity).None?
  }

  lemma ValidParts(c: CallAuctionCheckpoint) returns (scan: Scan)
    requires c.definition.Valid() && CheckpointIsValid(c)
    ensures Scanned(c.history, c.definition) == Some(scan) && WalAgrees(c)
    ensures IncreasingIds(c.acceptedOrderIds) && IdSet(c.acceptedOrderIds) == scan.book.accepted
    ensures AscendingOf(c.activeOrders, scan.book.orders, scan.book.orders.Keys)
    ensures c.phase == scan.audit.phase && c.bookRevision == scan.book.revision
    ensures c.nextPrioritySequence == scan.book.nextPrioritySequence && c.nextTradeId == scan.book.nextTradeId
  {
    hide InstrumentDefinition.Valid, WalAgrees, Scanned, IncreasingIds, IdSet, AscendingOf;
    scan := Scanned(c.history, c.definition).value;
  }

  lemma CapacityParts(c: CallAuctionCheckpoint, limits: CallAuctionEngineLimits)
    requires FitsCapacity(c, limits)
    ensures |c.acceptedOrderIds| <= limits.book.maxAcceptedOrderIds && |c.activeOrders| <= limits.book.maxActiveOrders
    ensures |SavedPrices(c.activeOrders, Buy)| <= limits.book.maxPriceLevelsPerSide
    ensures |SavedPrices(c.activeOrders, Sell)| <= limits.book.maxPriceLevelsPerSide
  {
    hide SavedPrices, TotalEvents;
  }

  lemma LeavesOf(c: CallAuctionCheckpoint, orders: Orders)
    requires c.definition.Valid() && AscendingOf(c.activeOrders, orders, orders.Keys)
    ensures LeavesFit(c) <==> forall id {:trigger orders[id]} :: id in orders ==> c.definition.ValidateLeaves(orders[id].quantity).None?
  {
    hide InstrumentDefinition.Valid, InstrumentDefinition.ValidateLeaves;
    if LeavesFit(c) {
      forall id | id in orders ensures c.definition.ValidateLeaves(orders[id].quantity).None? {
        assert id in SnapshotIds(c.activeOrders);
        var k :| 0 <= k < |c.activeOrders| && c.activeOrders[k].orderId == id;
        assert c.activeOrders[k] == orders[id];
      }
    }
  }

  lemma ProjectedBookIsValid(m: BookModel, p: ProjectedBook)
    requires m.definition.Valid() && m.limits.Valid() && ProjectedOk(p, m.definition)
    requires m.active == p.orders && m.seen == p.accepted && m.nextPrioritySequence == p.nextPrioritySequence && m.nextTradeId == p.nextTradeId
    requires m.stateRevision == p.revision && |m.active| <= m.limits.maxActiveOrders && |m.seen| <= m.limits.maxAcceptedOrderIds
    requires |m.LevelPrices(Buy)| <= m.limits.maxPriceLevelsPerSide && |m.LevelPrices(Sell)| <= m.limits.maxPriceLevelsPerSide
    ensures m.Valid() <==> forall id {:trigger p.orders[id]} :: id in p.orders ==> m.definition.ValidateLeaves(p.orders[id].quantity).None?
  {
    hide InstrumentDefinition.Valid, CallAuctionBookLimits.Valid, BookModel.LevelPrices, InstrumentDefinition.ValidateLeaves, InstrumentDefinition.ValidatePrice;
    forall id | id in p.orders
      ensures m.OrderOk(id) <==> m.definition.ValidateLeaves(p.orders[id].quantity).None?
    {
      assert ProjectedOrderOk(p, m.definition, id) by { assert p.orders[id] == m.active[id]; }
    }
  }

  lemma SavedBookIs(c: CallAuctionCheckpoint, limits: CallAuctionEngineLimits)
    ensures SavedBook(c, limits) ==
              BookModel(c.definition, limits.book, OrdersOf(c.activeOrders), IdSet(c.acceptedOrderIds), c.nextPrioritySequence, c.nextTradeId, c.bookRevision)
  {
  }

  lemma EngineLimitsHold(limits: CallAuctionEngineLimits)
    requires limits.Valid()
    ensures limits.book.Valid()
  {
  }

  /** A saved book that replays and fits is a valid book exactly when its leaves fit: every other
      rule of the book follows from the history. */
  lemma SavedBookIsValid(c: CallAuctionCheckpoint, limits: CallAuctionEngineLimits)
    requires c.definition.Valid() && limits.Valid() && FitsCapacity(c, limits) && CheckpointIsValid(c)
    ensures SavedBook(c, limits).Valid() <==> LeavesFit(c)
  {
    hide *;
    var scan := ValidParts(c);
    ScannedIsSound(c.history, c.definition);
    ScanOkIs(scan, c.definition);
    CapacityParts(c, limits);
    EngineLimitsHold(limits);
    SavedBookIs(c, limits);
    OrdersOfSaved(c.activeOrders, scan.book.orders);
    var m := SavedBook(c, limits);
    SavedPricesAre(m, c.activeOrders, Buy);
    SavedPricesAre(m, c.activeOrders, Sell);
    AscendingSize(c.activeOrders, m.active, m.active.Keys);
    assert |m.active| == |m.active.Keys|;
    IncreasingSize(c.acceptedOrderIds);
    ProjectedBookIsValid(m, scan.book);
    LeavesOf(c, scan.book.orders);
  }

  lemma ScanOkIs(scan: Scan, definition: InstrumentDefinition)
    requires definition.Valid()
    ensures ScanOk(scan, definition) <==> PhaseOk(scan.audit.phase) && ProjectedOk(scan.book, definition) && IndicationAgrees(scan.audit, scan.book, definition)
  {
    hide InstrumentDefinition.Valid, PhaseOk, ProjectedOk, IndicationAgrees;
  }

  lemma NextEventIs(history: History)
    requires Chronicle(history, Flatten(history))
    ensures NextEventSequence(history) == |Flatten(history)| + 1
  {
    FlattenIsEvents(history, Flatten(history));
  }

  lemma RestoredCases(c: CallAuctionCheckpoint, limits: CallAuctionEngineLimits)
    requires c.definition.Valid()
    ensures Restored(c, limits).Some? <==>
              && FitsCapacity(c, limits) && CheckpointIsValid(c)
              && |c.history| + 1 <= U64_MAX && NextEventSequence(c.history) <= U64_MAX && SavedBook(c, limits).Valid()
    ensures Restored(c, limits).Some? ==>
              Scanned(c.history, c.definition).Some? &&
              Restored(c, limits).value ==
                EngineState(limits, SavedBook(c, limits), c.phase, Scanned(c.history, c.definition).value.audit.lastIndicative,
                            |c.history| + 1, NextEventSequence(c.history), c.history, Flatten(c.history))
  {
    hide InstrumentDefinition.Valid, FitsCapacity, SavedBook, BookModel.Valid, Scanned, NextEventSequence, Flatten, DirectStateAgrees, WalAgrees;
  }

  /** Exactly the checkpoints that fit the limits, replay, agree with their own history and keep
      their leaves on the increment can be restored. */
  lemma RestorableExactly(c: CallAuctionCheckpoint, limits: CallAuctionEngineLimits)
    requires c.definition.Valid() && limits.Valid()
    ensures Restored(c, limits).Some? <==> FitsCapacity(c, limits) && CheckpointIsValid(c) && LeavesFit(c)
  {
    hide *;
    RestoredCases(c, limits);
    if FitsCapacity(c, limits) && CheckpointIsValid(c) {
      var scan := ValidParts(c);
      ScannedIsSound(c.history, c.definition);
      NextEventIs(c.history);
      SavedBookIsValid(c, limits);
    }
  }

  lemma WellFormedIs(s: EngineState, p: ProjectedBook)
    requires s.limits.Valid() && s.book.Valid() && s.book.limits == s.limits.book && s.book.definition.Valid() && PhaseOk(s.phase)
    requires IndicationAgrees(Audit(s.phase, s.lastIndicative), p, s.book.definition) && p.revision == s.book.stateRevision
    requires s.nextCommandSequence == |s.history| + 1 && s.nextEventSequence == |s.events| + 1
    ensures WellFormedEngine(s)
  {
    hide BookModel.Valid, InstrumentDefinition.Valid, CallAuctionEngineLimits.Valid, PhaseOk;
  }

  /** Whatever restores is an engine: its phase, book and indication are consistent, and its events
      are the chronicle of its history, so that every law of runs holds from it on. */
  lemma RestoredIsWellFormed(c: CallAuctionCheckpoint, limits: CallAuctionEngineLimits, s: EngineState)
    requires c.definition.Valid() && limits.Valid() && Restored(c, limits) == Some(s)
    ensures WellFormedEngine(s) && Chronicle(s.history, s.events) && s.limits == limits && s.book.definition == c.definition
    ensures AscendingOf(c.activeOrders, s.book.active, s.book.active.Keys)
  {
    hide *;
    RestoredCases(c, limits);
    var scan := ValidParts(c);
    ScannedIsSound(c.history, c.definition);
    ScanOkIs(scan, c.definition);
    NextEventIs(c.history);
    SavedBookIs(c, limits);
    OrdersOfSaved(c.activeOrders, scan.book.orders);
    WellFormedIs(s, scan.book);
  }

  // ----- the round trip the other way

  lemma {:induction false} IncreasingIsUnique(a: seq<OrderId>, b: seq<OrderId>)
    requires IncreasingIds(a) && IncreasingIds(b) && IdSet(a) == IdSet(b)
    ensures a == b
    decreases |a|
  {
    hide IncreasingIds, IdSet;
    NoIds(a);
    NoIds(b);
    if a != [] {
      var m, n := |a| - 1, |b| - 1;
      LastIsGreatest(a, b[n]);
      LastIsGreatest(b, a[m]);
      WithoutLast(a);
      WithoutLast(b);
      IncreasingIsUnique(a[..m], b[..n]);
      assert a == a[..m] + [a[m]] && b == b[..n] + [b[n]];
    }
  }

  lemma NoIds(ids: seq<OrderId>)
    ensures IdSet(ids) == {} <==> ids == []
  {
    if ids != [] { assert ids[0] in IdSet(ids); }
  }

  lemma LastIsGreatest(ids: seq<OrderId>, id: OrderId)
    requires IncreasingIds(ids) && ids != []
    ensures ids[|ids| - 1] in IdSet(ids) && (id in IdSet(ids) ==> id <= ids[|ids| - 1])
  {
  }

  lemma WithoutLast(ids: seq<OrderId>)
    requires IncreasingIds(ids) && ids != []
    ensures IncreasingIds(ids[..|ids| - 1]) && IdSet(ids[..|ids| - 1]) == IdSet(ids) - {ids[|ids| - 1]}
  {
    var n := |ids| - 1;
    forall id ensures id in IdSet(ids[..n]) <==> id in IdSet(ids) - {ids[n]} {
      if id in IdSet(ids) && id != ids[n] {
        var i :| 0 <= i < |ids| && ids[i] == id;
        assert ids[..n][i] == id;
      }
    }
  }

  /** Capturing a restored engine at the same log position gives the checkpoint back. */
  lemma CaptureOfRestored(c: CallAuctionCheckpoint, limits: CallAuctionEngineLimits, s: EngineState)
    requires c.definition.Valid() && limits.Valid() && Restored(c, limits) == Some(s)
    ensures CheckpointOf(s, c.walMetadataSequence, c.walSequence) == c
  {
    hide *;
    RestoredIsWellFormed(c, limits, s);
    EngineFacts(s);
    RestoredCases(c, limits);
    SavedBookIs(c, limits);
    var scan := ValidParts(c);
    CapturedIs(s, c.walMetadataSequence, c.walSequence);
    OrdersAreKeyed(s.book);
    AscendingOrdersAre(s.book.active, s.book.active.Keys);
    AscendingIsUnique(AscendingOrders(s.book.active, s.book.active.Keys), c.activeOrders, s.book.active, s.book.active.Keys);
    IncreasingIsUnique(AscendingIds(s.book.seen), c.acceptedOrderIds);
  }
}
