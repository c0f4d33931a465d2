/** The chronological projection of a retained history: orders, identities and counters replayed
    from reports alone, and its equality with the live state on every run. */
module Projection {
  import opened AbstractBook
  import opened Domain
  import opened EngineTypes
  import opened PhaseAudit
  import opened ReportGrammar
  import opened UncrossProjection

  /** What the events so far say of the book. */
  datatype ProjectedBook = ProjectedBook(
    orders: Orders, accepted: set<OrderId>, nextPrioritySequence: u64, nextTradeId: u64, revision: u64)

  const GENESIS_BOOK := ProjectedBook(map[], {}, 1, 1, 0)

  // ----- one accepted report

  ghost function NewRevision(p: ProjectedBook): Option<ProjectedBook> {
    if p.revision == U64_MAX then None else Some(p.(revision := p.revision + 1))
  }

  /** An accepted order joins under its command's own terms, its next priority and a new identity. */
  ghost function Joined(p: ProjectedBook, definition: InstrumentDefinition, order: CallAuctionOrder, snapshot: CallAuctionOrderSnapshot): Option<ProjectedBook>
    requires definition.Valid()
  {
    if snapshot.prioritySequence != p.nextPrioritySequence || snapshot.orderId in p.accepted || snapshot.orderId in p.orders
       || !Carries(snapshot, order) || snapshot.priorityClass != order.priorityClass
       || definition.ValidateQuantity(order.quantity).Some?
       || (order.constraint.Limit? && definition.ValidatePrice(order.constraint.price).Some?)
       || p.nextPrioritySequence == U64_MAX
    then None
    else NewRevision(p.(orders := p.orders[snapshot.orderId := snapshot], accepted := p.accepted + {snapshot.orderId},
                        nextPrioritySequence := p.nextPrioritySequence + 1))
  }

  ghost function Left(orders: Orders, order: CallAuctionOrderSnapshot): Option<Orders> {
    if order.orderId in orders && orders[order.orderId] == order then Some(orders - {order.orderId}) else None
  }

  ghost function AmendProjected(p: ProjectedBook, definition: InstrumentDefinition, command: CallAuctionCommand, kind: CallAuctionEventKind): Option<ProjectedBook>
    requires definition.Valid() && command.Amend?
  {
    if !kind.OrderAmended? || command.orderId !in p.orders then None else
    var previous, order, next := p.orders[command.orderId], kind.amended, NewRevision(p);
    if next.None? || order != previous.(quantity := order.quantity) || previous.accountId != command.accountId
       || previous.quantity != kind.previousQuantity || order.quantity != command.newQuantity || order.quantity >= previous.quantity
       || kind.amendBookRevision != next.value.revision || definition.ValidateLeaves(order.quantity).Some?
       || order.orderId !in p.orders || p.orders[order.orderId] != previous
    then None
    else Some(next.value.(orders := p.orders[order.orderId := order]))
  }

  ghost function ReplaceProjected(p: ProjectedBook, definition: InstrumentDefinition, command: CallAuctionCommand, events: Events): Option<ProjectedBook>
    requires definition.Valid() && command.Replace?
  {
    if |events| != 2 || !events[0].kind.OrderCancelled? || events[0].kind.cancellationReason != ByReplacement || !events[1].kind.OrderAccepted? then None else
    var target := events[0].kind.cancelled;
    if target.orderId != command.targetOrderId || target.accountId != command.accountId || command.replacement.accountId != command.accountId
       || Left(p.orders, target).None?
    then None
    else Joined(p.(orders := Left(p.orders, target).value), definition, command.replacement, events[1].kind.accepted)
  }

  ghost function IndicativeProjected(p: ProjectedBook, definition: InstrumentDefinition, command: CallAuctionCommand, events: Events): Option<ProjectedBook>
    requires definition.Valid() && command.Indicative?
  {
    if |events| != 1 || !events[0].kind.IndicativePublished? then None else
    var state := events[0].kind.state;
    if state.auctionId != command.auctionId || state.phaseRevision != command.expectedPhaseRevision || state.bookRevision != p.revision
       || state.priceBand != command.priceBand || state.referencePrice != command.referencePrice || state.pricePolicy != command.pricePolicy
       || !state.IsValidFor(definition)
    then None
    else Some(p)
  }

  /** The orders left after the first `n` cancellations. */
  ghost function CancelsProjected(orders: Orders, events: Events, n: nat): Option<Orders>
    requires n <= |events|
  {
    if n == 0 then Some(orders) else
    var before := CancelsProjected(orders, events, n - 1);
    if before.None? || !events[n - 1].kind.OrderCancelled? then None else Left(before.value, events[n - 1].kind.cancelled)
  }

  /** A mass cancellation revises the book once, and only if it cancels anything. */
  ghost function MassCancelProjected(p: ProjectedBook, orders: Option<Orders>, last: CallAuctionEventKind): Option<ProjectedBook> {
    if !last.MassCancelCompleted? || orders.None? then None else
    var next := if last.cancelledOrderCount == 0 then Some(p) else NewRevision(p);
    if next.None? || last.massBookRevision != next.value.revision then None else Some(next.value.(orders := orders.value))
  }

  ghost function UncrossCompletes(p: ProjectedBook, orders: Option<Orders>, last: CallAuctionEventKind): Option<ProjectedBook> {
    if orders.None? || NewRevision(p).None? || !last.UncrossCompleted? || last.bookRevision != NewRevision(p).value.revision then None
    else Some(NewRevision(p).value.(orders := orders.value))
  }

  ghost function AcceptedProjected(p: ProjectedBook, definition: InstrumentDefinition, command: CallAuctionCommand, events: Events): Option<ProjectedBook>
    requires definition.Valid() && events != []
  {
    match command
    case PhaseControl(_, _, _, _, _, _, _) => Some(p)
    case Submit(_, _, _, order, _) =>
      if |events| != 1 || !events[0].kind.OrderAccepted? then None else Joined(p, definition, order, events[0].kind.accepted)
    case Amend(_, _, _, _, _, _, _, _, _) => if |events| != 1 then None else AmendProjected(p, definition, command, events[0].kind)
    case Replace(_, _, _, _, _, _, _) => ReplaceProjected(p, definition, command, events)
    case Indicative(_, _, _, _, _, _, _, _, _) => IndicativeProjected(p, definition, command, events)
    case Cancel(_, _, _, _, _, _) =>
      if |events| != 1 || !events[0].kind.OrderCancelled? || Left(p.orders, events[0].kind.cancelled).None? then None
      else NewRevision(p.(orders := Left(p.orders, events[0].kind.cancelled).value))
    case MassCancel(_, _, _, _, _, _) =>
      MassCancelProjected(p, CancelsProjected(p.orders, events, |events| - 1), events[|events| - 1].kind)
    case Uncross(_, _, _, _, _, _, _, _, _, _) =>
      var scan := UncrossProjected(p.orders, events, |events| - 1);
      UncrossCompletes(p, if scan.Some? then Some(scan.value.orders) else None, events[|events| - 1].kind)
  }

  lemma {:induction false} CancelsStop(orders: Orders, events: Events, k: nat, n: nat)
    requires k <= n <= |events| && CancelsProjected(orders, events, k).None?
    ensures CancelsProjected(orders, events, n).None?
  {
    if k < n { CancelsStop(orders, events, k, n - 1); }
  }

  /** An accepted snapshot must carry its command's terms, and the terms obey the definition. */
  method ValidateCheckpointAuctionOrder(definition: InstrumentDefinition, order: CallAuctionOrder, snapshot: CallAuctionOrderSnapshot) returns (ok: bool)
    requires definition.Valid()
    ensures ok <==>
              && Carries(snapshot, order) && snapshot.priorityClass == order.priorityClass && definition.ValidateQuantity(order.quantity).None?
              && (order.constraint.Limit? ==> definition.ValidatePrice(order.constraint.price).None?)
  {
    if snapshot.orderId != order.orderId || snapshot.accountId != order.accountId || snapshot.side != order.side
       || snapshot.constraint != order.constraint || snapshot.quantity != order.quantity || snapshot.priorityClass != order.priorityClass {
      return false;
    }
    if definition.ValidateQuantity(order.quantity).Some? {
      return false;
    }
    match order.constraint {
      case Market => return true;
      case Limit(price) => return definition.ValidatePrice(price).None?;
    }
  }

  /** An accepted order joins under the next priority sequence and revision. */
  method ProjectJoin(p: ProjectedBook, definition: InstrumentDefinition, order: CallAuctionOrder, snapshot: CallAuctionOrderSnapshot) returns (r: Option<ProjectedBook>)
    requires definition.Valid()
    ensures r == Joined(p, definition, order, snapshot)
  {
    hide InstrumentDefinition.Valid, InstrumentDefinition.ValidateQuantity, InstrumentDefinition.ValidatePrice, Carries;
    if snapshot.prioritySequence != p.nextPrioritySequence || snapshot.orderId in p.accepted || snapshot.orderId in p.orders {
      return None;
    }
    var valid := ValidateCheckpointAuctionOrder(definition, order, snapshot);
    if !valid || p.nextPrioritySequence == U64_MAX || p.revision == U64_MAX {
      return None;
    }
    return Some(p.(orders := p.orders[snapshot.orderId := snapshot], accepted := p.accepted + {snapshot.orderId},
                   nextPrioritySequence := p.nextPrioritySequence + 1, revision := p.revision + 1));
  }

  method ProjectAmend(p: ProjectedBook, definition: InstrumentDefinition, command: CallAuctionCommand, kind: CallAuctionEventKind) returns (r: Option<ProjectedBook>)
    requires definition.Valid() && command.Amend?
    ensures r == AmendProjected(p, definition, command, kind)
  {
    hide InstrumentDefinition.Valid, InstrumentDefinition.ValidateLeaves;
    if !kind.OrderAmended? || command.orderId !in p.orders || p.revision == U64_MAX {
      return None;
    }
    var previous, order, revision := p.orders[command.orderId], kind.amended, p.revision + 1;
    if previous.orderId != order.orderId || previous.accountId != command.accountId || previous.accountId != order.accountId
       || previous.side != order.side || previous.constraint != order.constraint || previous.priorityClass != order.priorityClass
       || previous.prioritySequence != order.prioritySequence || previous.quantity != kind.previousQuantity
       || order.quantity != command.newQuantity || order.quantity >= previous.quantity || kind.amendBookRevision != revision
       || definition.ValidateLeaves(order.quantity).Some? || order.orderId !in p.orders || p.orders[order.orderId] != previous {
      return None;
    }
    return Some(p.(orders := p.orders[order.orderId := order], revision := revision));
  }

  /** Takes a cancelled order off the projection, where it must stand exactly as the event says. */
  method ProjectLeave(orders: Orders, order: CallAuctionOrderSnapshot) returns (r: Option<Orders>)
    ensures r == Left(orders, order)
  {
    if order.orderId !in orders || orders[order.orderId] != order {
      return None;
    }
    return Some(orders - {order.orderId});
  }

  method ProjectReplace(p: ProjectedBook, definition: InstrumentDefinition, command: CallAuctionCommand, events: Events) returns (r: Option<ProjectedBook>)
    requires definition.Valid() && command.Replace?
    ensures r == ReplaceProjected(p, definition, command, events)
  {
    hide InstrumentDefinition.Valid, Joined, Left;
    if |events| != 2 || !events[0].kind.OrderCancelled? || events[0].kind.cancellationReason != ByReplacement || !events[1].kind.OrderAccepted? {
      return None;
    }
    var cancelled := events[0].kind.cancelled;
    if cancelled.orderId != command.targetOrderId || cancelled.accountId != command.accountId || command.replacement.accountId != command.accountId {
      return None;
    }
    var left := ProjectLeave(p.orders, cancelled);
    if left.None? {
      return None;
    }
    r := ProjectJoin(p.(orders := left.value), definition, command.replacement, events[1].kind.accepted);
  }

  method ProjectIndicative(p: ProjectedBook, definition: InstrumentDefinition, command: CallAuctionCommand, events: Events) returns (r: Option<ProjectedBook>)
    requires definition.Valid() && command.Indicative?
    ensures r == IndicativeProjected(p, definition, command, events)
  {
    hide InstrumentDefinition.Valid, CallAuctionIndicativeState.IsValidFor;
    if |events| != 1 || !events[0].kind.IndicativePublished? {
      return None;
    }
    var state := events[0].kind.state;
    if state.auctionId != command.auctionId || state.phaseRevision != command.expectedPhaseRevision || state.bookRevision != p.revision
       || state.priceBand != command.priceBand || state.referencePrice != command.referencePrice || state.pricePolicy != command.pricePolicy
       || !state.IsValidFor(definition) {
      return None;
    }
    return Some(p);
  }

  method ProjectMassCancel(p: ProjectedBook, events: Events) returns (r: Option<ProjectedBook>)
    requires events != []
    ensures r == MassCancelProjected(p, CancelsProjected(p.orders, events, |events| - 1), events[|events| - 1].kind)
  {
    hide Left;
    var n := |events| - 1;
    var last := events[n].kind;
    if !last.MassCancelCompleted? {
      return None;
    }
    var orders := p.orders;
    for k := 0 to n
      invariant CancelsProjected(p.orders, events, k) == Some(orders)
    {
      var left: Option<Orders> := None;
      if events[k].kind.OrderCancelled? {
        left := ProjectLeave(orders, events[k].kind.cancelled);
      }
      if left.None? {
        CancelsStop(p.orders, events, k + 1, n);
        return None;
      }
      orders := left.value;
    }
    var revision := p.revision;
    if last.cancelledOrderCount != 0 {
      if revision == U64_MAX {
        return None;
      }
      revision := revision + 1;
    }
    if last.massBookRevision != revision {
      return None;
    }
    return Some(p.(orders := orders, revision := revision));
  }

  method ProjectUncross(p: ProjectedBook, events: Events) returns (r: Option<ProjectedBook>)
    requires events != []
    ensures var scan := UncrossProjected(p.orders, events, |events| - 1);
            r == UncrossCompletes(p, if scan.Some? then Some(scan.value.orders) else None, events[|events| - 1].kind)
  {
    hide UncrossProjected;
    var last := events[|events| - 1].kind;
    var orders := ProjectCheckpointUncross(p.orders, events);
    if orders.None? || p.revision == U64_MAX || !last.UncrossCompleted? || last.bookRevision != p.revision + 1 {
      return None;
    }
    return Some(p.(orders := orders.value, revision := p.revision + 1));
  }

  /** Projects one accepted report of any kind. */
  method ProjectAccepted(p: ProjectedBook, definition: InstrumentDefinition, command: CallAuctionCommand, events: Events) returns (r: Option<ProjectedBook>)
    requires definition.Valid() && events != []
    ensures r == AcceptedProjected(p, definition, command, events)
  {
    hide InstrumentDefinition.Valid, UncrossProjected, Left, CancelsProjected, MassCancelProjected, UncrossCompletes, AmendProjected, ReplaceProjected,
      IndicativeProjected, Joined;
    match command {
      case PhaseControl(_, _, _, _, _, _, _) =>
        r := Some(p);
      case Submit(_, _, _, order, _) =>
        if |events| != 1 || !events[0].kind.OrderAccepted? {
          return None;
        }
        r := ProjectJoin(p, definition, order, events[0].kind.accepted);
      case Amend(_, _, _, _, _, _, _, _, _) =>
        if |events| != 1 {
          return None;
        }
        r := ProjectAmend(p, definition, command, events[0].kind);
      case Replace(_, _, _, _, _, _, _) =>
        r := ProjectReplace(p, definition, command, events);
      case Indicative(_, _, _, _, _, _, _, _, _) =>
        r := ProjectIndicative(p, definition, command, events);
      case Cancel(_, _, _, _, _, _) =>
        if |events| != 1 || !events[0].kind.OrderCancelled? {
          return None;
        }
        var left := ProjectLeave(p.orders, events[0].kind.cancelled);
        if left.None? || p.revision == U64_MAX {
          return None;
        }
        r := Some(p.(orders := left.value, revision := p.revision + 1));
      case MassCancel(_, _, _, _, _, _) =>
        r := ProjectMassCancel(p, events);
      case Uncross(_, _, _, _, _, _, _, _, _, _) =>
        r := ProjectUncross(p, events);
    }
  }

  // ----- the whole history

  /** The next trade identity after the first `n` events, if trades are numbered consecutively. */
  ghost function TradeIdsAfter(events: Events, n: nat, next: u64): Option<u64>
    requires n <= |events|
  {
    if n == 0 then Some(next) else
    match TradeIdsAfter(events, n - 1, next)
    case None => None
    case Some(expected) =>
      if !events[n - 1].kind.TradeExecuted? then Some(expected)
      else if events[n - 1].kind.trade.tradeId == expected && expected < U64_MAX then Some(expected + 1)
      else None
  }

  ghost predicate EventsAreBound(entry: CallAuctionHistoryEntry, first: nat, n: nat)
    requires n <= |entry.report.events|
  {
    forall k {:trigger entry.report.events[k]} :: 0 <= k < n ==>
      && entry.report.events[k].sequence == first + k && entry.report.events[k].commandId == entry.command.commandId
      && entry.report.events[k].occurredAt == entry.command.receivedAt
  }

  /** The event and trade sequences after one report, if it continues both. */
  ghost function SequencesAfter(entry: CallAuctionHistoryEntry, nextEvent: u64, nextTradeId: u64): Option<(u64, u64)> {
    var n := |entry.report.events|;
    if nextEvent + n > U64_MAX || !EventsAreBound(entry, nextEvent, n) || TradeIdsAfter(entry.report.events, n, nextTradeId).None? then None
    else Some((nextEvent + n, TradeIdsAfter(entry.report.events, n, nextTradeId).value))
  }

  lemma {:induction false} TradeIdsStop(events: Events, k: nat, n: nat, next: u64)
    requires k <= n <= |events| && TradeIdsAfter(events, k, next).None?
    ensures TradeIdsAfter(events, n, next).None?
  {
    if k < n { TradeIdsStop(events, k, n - 1, next); }
  }

  method AdvanceSequences(entry: CallAuctionHistoryEntry, nextEvent: u64, nextTradeId: u64) returns (r: Option<(u64, u64)>)
    ensures r == SequencesAfter(entry, nextEvent, nextTradeId)
  {
    var events := entry.report.events;
    var event, trade: u64 := nextEvent, nextTradeId;
    for k := 0 to |events|
      invariant event == nextEvent + k <= U64_MAX && EventsAreBound(entry, nextEvent, k)
      invariant TradeIdsAfter(events, k, nextTradeId) == Some(trade)
    {
      if events[k].sequence != event || events[k].commandId != entry.command.commandId || events[k].occurredAt != entry.command.receivedAt {
        return None;
      }
      if event == U64_MAX {
        return None;
      }
      event := event + 1;
      if events[k].kind.TradeExecuted? {
        if events[k].kind.trade.tradeId != trade || trade == U64_MAX {
          TradeIdsStop(events, k + 1, |events|, nextTradeId);
          return None;
        }
        trade := trade + 1;
      }
    }
    return Some((event, trade));
  }

  /** Everything the history so far establishes. */
  datatype Scan = Scan(ids: set<CommandId>, nextCommand: u64, nextEvent: u64, audit: Audit, book: ProjectedBook)

  const GENESIS_SCAN := Scan({}, 1, 1, GENESIS_AUDIT, GENESIS_BOOK)

  ghost predicate MetadataAgrees(scan: Scan, entry: CallAuctionHistoryEntry) {
    && entry.command.commandId !in scan.ids && entry.report.commandId == entry.command.commandId
    && entry.report.commandSequence == scan.nextCommand && !entry.report.replayed && entry.report.events != []
  }

  /** One retained report checked and projected, or none if anything about it is contradictory. */
  ghost function ScannedEntry(scan: Scan, entry: CallAuctionHistoryEntry, definition: InstrumentDefinition): Option<Scan>
    requires definition.Valid()
  {
    if !MetadataAgrees(scan, entry) || !ReportIsGrammatical(entry) then None else
    var audit := Observed(scan.audit, entry, definition);
    var sequences := SequencesAfter(entry, scan.nextEvent, scan.book.nextTradeId);
    if audit.None? || sequences.None? then None else
    var numbered := scan.book.(nextTradeId := sequences.value.1);
    var book := if entry.report.outcome.Accepted? then AcceptedProjected(numbered, definition, entry.command, entry.report.events) else Some(numbered);
    if book.None? || scan.nextCommand == U64_MAX then None
    else Some(Scan(scan.ids + {entry.command.commandId}, scan.nextCommand + 1, sequences.value.0, audit.value, book.value))
  }

  ghost function Scanned(history: seq<CallAuctionHistoryEntry>, definition: InstrumentDefinition): Option<Scan>
    requires definition.Valid()
  {
    if history == [] then Some(GENESIS_SCAN) else
    match Scanned(history[..|history| - 1], definition)
    case None => None
    case Some(scan) => ScannedEntry(scan, history[|history| - 1], definition)
  }

  lemma ScannedAppend(history: seq<CallAuctionHistoryEntry>, entry: CallAuctionHistoryEntry, definition: InstrumentDefinition, scan: Scan)
    requires definition.Valid() && Scanned(history, definition) == Some(scan)
    ensures Scanned(history + [entry], definition) == ScannedEntry(scan, entry, definition)
  {
    hide InstrumentDefinition.Valid, ScannedEntry;
    assert (history + [entry])[..|history + [entry]| - 1] == history;
  }

  lemma {:induction false} ScanStops(history: seq<CallAuctionHistoryEntry>, definition: InstrumentDefinition, k: nat)
    requires definition.Valid() && k <= |history| && Scanned(history[..k], definition).None?
    ensures Scanned(history, definition).None?
    decreases |history| - k
  {
    hide InstrumentDefinition.Valid, ScannedEntry;
    if k == |history| {
      assert history[..k] == history;
    } else {
      assert history[..k + 1][..k] == history[..k];
      ScanStops(history, definition, k + 1);
    }
  }
}
