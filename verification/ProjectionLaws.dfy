/** Events determine state: on every run, projecting the retained history gives the live orders,
    identities, counters, phase and sequences. */
module ProjectionLaws {
  import opened AbstractBook
  import opened Ascending
  import opened Clearing
  import opened DecidedActions
  import opened Domain
  import opened EngineLaws
  import opened EngineModel
  import opened EngineRuns
  import opened EngineTypes
  import opened GrammarLaws
  import opened MassCancellation
  import opened PhaseAudit
  import opened Projection
  import opened ReportGrammar
  import opened Uncross
  import opened UncrossProjection

  ghost function ProjectionOf(m: BookModel): ProjectedBook {
    ProjectedBook(m.active, m.seen, m.nextPrioritySequence, m.nextTradeId, m.stateRevision)
  }

  ghost function CommandIds(history: seq<CallAuctionHistoryEntry>): set<CommandId> {
    if history == [] then {} else CommandIds(history[..|history| - 1]) + {history[|history| - 1].command.commandId}
  }

  /** What a history scan should find of a live engine. */
  ghost function ScanOf(s: EngineState): Scan {
    Scan(CommandIds(s.history), s.nextCommandSequence, s.nextEventSequence, AuditOf(s), ProjectionOf(s.book))
  }

  // ----- one report of each kind

  lemma AdmissionRules(m: BookModel, order: CallAuctionOrder)
    requires m.definition.Valid() && Admission(m, order).Ok?
    ensures order.orderId !in m.seen && m.definition.ValidateQuantity(order.quantity).None?
    ensures order.constraint.Limit? ==> m.definition.ValidatePrice(order.constraint.price).None?
  {
    hide InstrumentDefinition.Valid, InstrumentDefinition.ValidateQuantity, InstrumentDefinition.ValidatePrice, RoomError;
  }

  lemma AdmissionJoins(m: BookModel, order: CallAuctionOrder)
    requires m.Valid() && m.definition.Valid() && Admission(m, order).Ok? && m.nextPrioritySequence < U64_MAX && m.stateRevision < U64_MAX
    ensures Joined(ProjectionOf(m), m.definition, order, Admission(m, order).value) == Some(ProjectionOf(Admitted(m, Admission(m, order).value)))
  {
    hide BookModel.Valid, InstrumentDefinition.Valid, InstrumentDefinition.ValidateQuantity, InstrumentDefinition.ValidatePrice, Admission, Carries;
    AdmissionFacts(m, order);
    AdmissionRules(m, order);
    AcceptedCarries(order, m.nextPrioritySequence);
  }

  lemma SubmitProjects(m: BookModel, command: CallAuctionCommand, events: Events)
    requires m.Valid() && m.definition.Valid() && command.Submit? && Admission(m, command.order).Ok?
    requires m.nextPrioritySequence < U64_MAX && m.stateRevision < U64_MAX
    requires |events| == 1 && events[0].kind == OrderAccepted(Admission(m, command.order).value)
    ensures AcceptedProjected(ProjectionOf(m), m.definition, command, events) == Some(ProjectionOf(Admitted(m, Admission(m, command.order).value)))
  {
    hide BookModel.Valid, InstrumentDefinition.Valid, Joined, Admission, Admitted;
    AdmissionJoins(m, command.order);
  }

  lemma CancelProjects(m: BookModel, command: CallAuctionCommand, events: Events)
    requires m.Valid() && m.definition.Valid() && command.Cancel? && Cancellation(m, command.accountId, command.orderId).Ok? && m.stateRevision < U64_MAX
    requires |events| == 1 && events[0].kind == OrderCancelled(Cancellation(m, command.accountId, command.orderId).value, UserRequested)
    ensures AcceptedProjected(ProjectionOf(m), m.definition, command, events) ==
              Some(ProjectionOf(WithoutOrders(m, {Cancellation(m, command.accountId, command.orderId).value.orderId})))
  {
    hide BookModel.Valid, InstrumentDefinition.Valid, Cancellation;
    CancellationFacts(m, command.accountId, command.orderId);
    OrderFacts(m, command.orderId);
  }

  lemma AmendProjects(m: BookModel, command: CallAuctionCommand, events: Events)
    requires m.Valid() && m.definition.Valid() && command.Amend? && Amendment(m, command.accountId, command.orderId, command.newQuantity).Ok?
    requires command.orderId in m.active && m.stateRevision < U64_MAX
    requires |events| == 1 && events[0].kind == OrderAmended(m.active[command.orderId].(quantity := command.newQuantity),
                                                              m.active[command.orderId].quantity, m.stateRevision + 1)
    ensures AcceptedProjected(ProjectionOf(m), m.definition, command, events) == Some(ProjectionOf(Amended(m, command.orderId, command.newQuantity)))
  {
    hide BookModel.Valid, InstrumentDefinition.Valid, Amendment, InstrumentDefinition.ValidateLeaves;
    AmendmentFacts(m, command.accountId, command.orderId, command.newQuantity);
    OrderFacts(m, command.orderId);
  }

  lemma ReplaceProjects(m: BookModel, command: CallAuctionCommand, target: CallAuctionOrderSnapshot, accepted: CallAuctionOrderSnapshot, events: Events)
    requires m.Valid() && m.definition.Valid() && command.Replace?
    requires ReplacementOutcome(m, command.accountId, command.targetOrderId, command.replacement) == Ok((target, accepted))
    requires m.nextPrioritySequence < U64_MAX && m.stateRevision < U64_MAX
    requires |events| == 2 && events[0].kind == OrderCancelled(target, ByReplacement) && events[1].kind == OrderAccepted(accepted)
    ensures AcceptedProjected(ProjectionOf(m), m.definition, command, events) == Some(ProjectionOf(Admitted(WithoutTarget(m, target.orderId), accepted)))
  {
    hide BookModel.Valid, InstrumentDefinition.Valid, ReplacementOutcome, Admission, Joined, Admitted, WithoutTarget;
    var left := WithoutTarget(m, command.targetOrderId);
    ReplacementFacts(m, command.accountId, command.targetOrderId, command.replacement);
    OrderFacts(m, command.targetOrderId);
    ReplaceIsAdmitAfterRemove(m, command.accountId, command.targetOrderId, command.replacement);
    WithoutTargetIsValid(m, command.targetOrderId);
    WithoutTargetIs(m, command.targetOrderId);
    AdmissionJoins(left, command.replacement);
  }

  lemma IndicativeProjects(m: BookModel, command: CallAuctionCommand, state: CallAuctionIndicativeState, events: Events)
    requires m.definition.Valid() && command.Indicative? && state.IsValidFor(m.definition)
    requires state.auctionId == command.auctionId && state.phaseRevision == command.expectedPhaseRevision && state.bookRevision == m.stateRevision
    requires state.priceBand == command.priceBand && state.referencePrice == command.referencePrice && state.pricePolicy == command.pricePolicy
    requires |events| == 1 && events[0].kind == IndicativePublished(state)
    ensures AcceptedProjected(ProjectionOf(m), m.definition, command, events) == Some(ProjectionOf(m))
  {
    hide InstrumentDefinition.Valid, CallAuctionIndicativeState.IsValidFor;
  }

  lemma {:induction false} CancelsLeave(active: Orders, ids: set<OrderId>, orders: seq<CallAuctionOrderSnapshot>, events: Events, n: nat)
    requires AscendingOf(orders, active, ids) && Announces(events, orders, |orders|) && n <= |orders|
    ensures CancelsProjected(active, events, n) == Some(active - SnapshotIds(orders[..n]))
  {
    if n == 0 {
      assert SnapshotIds(orders[..0]) == {};
      assert active - {} == active;
    } else {
      CancelsLeave(active, ids, orders, events, n - 1);
      NextSnapshot(orders, active, ids, n - 1);
      assert events[n - 1].kind == OrderCancelled(orders[n - 1], ByMassCancel) && orders[n - 1] == active[orders[n - 1].orderId];
      hide AscendingOf, Announces, SnapshotIds;
      var before, id := SnapshotIds(orders[..n - 1]), orders[n - 1].orderId;
      assert active - before - {id} == active - (before + {id});
    }
  }

  lemma MassCancelProjects(m: BookModel, command: CallAuctionCommand, preflight: CallAuctionMassCancelResult, events: Events)
    requires m.Valid() && m.definition.Valid() && command.MassCancel? && MassCancelOutcome(m, command.accountId, command.scope) == Ok(preflight)
    requires var orders := AscendingOrders(m.active, Selected(m, command.accountId, command.scope));
             && |events| == |orders| + 1 && Announces(events, orders, |orders|)
             && events[|orders|].kind == MassCancelCompleted(command.accountId, command.scope, preflight.cancelledOrderCount,
                                                             preflight.cancelledQuantityLots, preflight.stateRevision)
    ensures Selected(m, command.accountId, command.scope) != {} ==> m.stateRevision < U64_MAX
    ensures AcceptedProjected(ProjectionOf(m), m.definition, command, events) ==
              Some(ProjectionOf(AbstractBook.MassCancelled(m, command.accountId, command.scope)))
  {
    hide *;
    var ids := Selected(m, command.accountId, command.scope);
    MassCancelOutcomeIs(m, command.accountId, command.scope);
    AscendingSelection(m, command.accountId, command.scope);
    var orders := AscendingOrders(m.active, ids);
    AllSnapshots(orders, m.active, ids);
    AscendingSize(orders, m.active, ids);
    CancelsLeave(m.active, ids, orders, events, |orders|);
    MassCancelCloses(m, command, preflight, ids, events);
  }

  lemma MassCancelCloses(m: BookModel, command: CallAuctionCommand, preflight: CallAuctionMassCancelResult, ids: set<OrderId>, events: Events)
    requires m.definition.Valid() && command.MassCancel? && ids == Selected(m, command.accountId, command.scope)
    requires ids != {} ==> m.stateRevision < U64_MAX
    requires preflight.cancelledOrderCount == |ids| && preflight.stateRevision == if ids == {} then m.stateRevision else m.stateRevision + 1
    requires |events| == |ids| + 1 && CancelsProjected(m.active, events, |ids|) == Some(m.active - ids)
    requires events[|ids|].kind == MassCancelCompleted(command.accountId, command.scope, preflight.cancelledOrderCount,
                                                       preflight.cancelledQuantityLots, preflight.stateRevision)
    ensures AcceptedProjected(ProjectionOf(m), m.definition, command, events) ==
              Some(ProjectionOf(AbstractBook.MassCancelled(m, command.accountId, command.scope)))
  {
    hide InstrumentDefinition.Valid, Selected, CancelsProjected;
    assert m.active - {} == m.active;
  }

  lemma UncrossCloses(m: BookModel, command: CallAuctionCommand, prepared: PreparedCallAuctionUncross, events: Events)
    requires m.definition.Valid() && command.Uncross? && UncrossFits(m, command.uncrossPolicy, prepared)
    requires |events| == |prepared.trades| + |prepared.cancellations| + 1
    requires Trading(events, prepared.trades) && Cancelling(events, |prepared.trades|, prepared.cancellations)
    requires events[|events| - 1].kind.UncrossCompleted? && events[|events| - 1].kind.bookRevision == prepared.nextStateRevision
    ensures ClearsAt(m, prepared.plan.clearing) && m.stateRevision < U64_MAX && TradeIdsFit(m, prepared.plan.clearing, prepared.policy.allocation)
    ensures var n := Uncrossed(m, prepared.plan.clearing, prepared.policy);
            AcceptedProjected(ProjectionOf(m).(nextTradeId := n.nextTradeId), m.definition, command, events) == Some(ProjectionOf(n))
  {
    hide *;
    UncrossFitsIs(m, command.uncrossPolicy, prepared);
    UncrossProjects(m, prepared.plan.clearing, command.uncrossPolicy, events);
    UncrossMoves(m, prepared.plan.clearing, command.uncrossPolicy, command, events);
  }

  lemma UncrossMoves(m: BookModel, c: AuctionClearing, policy: CallAuctionUncrossPolicy, command: CallAuctionCommand, events: Events)
    requires m.definition.Valid() && command.Uncross? && ClearsAt(m, c) && m.stateRevision < U64_MAX && TradeIdsFit(m, c, policy.allocation) && events != []
    requires var scan := UncrossProjected(m.active, events, |events| - 1); scan.Some? && scan.value.orders == ActiveAfter(m, c, policy)
    requires events[|events| - 1].kind.UncrossCompleted? && events[|events| - 1].kind.bookRevision == m.stateRevision + 1
    ensures var n := Uncrossed(m, c, policy);
            AcceptedProjected(ProjectionOf(m).(nextTradeId := n.nextTradeId), m.definition, command, events) == Some(ProjectionOf(n))
  {
    hide InstrumentDefinition.Valid, ClearsAt, TradeIdsFit, UncrossProjected, ActiveAfter, PairsOf;
  }

  // ----- trade identities

  lemma {:induction false} NoTradeIds(events: Events, n: nat, k: nat, next: u64, start: u64)
    requires n <= k <= |events| && TradeIdsAfter(events, n, start) == Some(next)
    requires forall i {:trigger events[i]} :: n <= i < k ==> !events[i].kind.TradeExecuted?
    ensures TradeIdsAfter(events, k, start) == Some(next)
  {
    if n < k { NoTradeIds(events, n, k - 1, next, start); }
  }

  lemma {:induction false} TradeIdsRun(events: Events, trades: seq<CallAuctionTrade>, n: nat, start: u64)
    requires Trading(events, trades) && n <= |trades| && start + |trades| <= U64_MAX
    requires forall k {:trigger trades[k]} :: 0 <= k < |trades| ==> trades[k].tradeId == start + k
    ensures TradeIdsAfter(events, n, start) == Some(start + n)
  {
    if n > 0 {
      TradeIdsRun(events, trades, n - 1, start);
      assert events[n - 1].kind == TradeExecuted(trades[n - 1]);
    }
  }

  lemma UncrossTradeIds(m: BookModel, c: AuctionClearing, policy: CallAuctionUncrossPolicy, events: Events)
    requires ClearsAt(m, c) && m.stateRevision < U64_MAX && TradeIdsFit(m, c, policy.allocation)
    requires Trading(events, PreparedTrades(m, c, policy.allocation))
    requires forall i {:trigger events[i]} :: |PreparedTrades(m, c, policy.allocation)| <= i < |events| ==> !events[i].kind.TradeExecuted?
    ensures TradeIdsAfter(events, |events|, m.nextTradeId) == Some(Uncrossed(m, c, policy).nextTradeId)
  {
    hide ClearsAt, PreparedTrades, PairsOf, Trading, ActiveAfter;
    PreparedTradesFit(m, c, policy.allocation);
    var trades := PreparedTrades(m, c, policy.allocation);
    TradeIdsRun(events, trades, |trades|, m.nextTradeId);
    TradingLength(events, trades);
    NoTradeIds(events, |trades|, |events|, m.nextTradeId + |trades|, m.nextTradeId);
  }

  lemma TradingLength(events: Events, trades: seq<CallAuctionTrade>)
    requires Trading(events, trades)
    ensures |trades| <= |events|
  {
  }

  /** The announced kinds of the simple actions. */
  lemma SimpleKinds(s: EngineState, command: CallAuctionCommand, action: PreparedAction, first: nat)
    requires s.book.Valid() && s.book.definition.Valid() && ActionFits(s, command, action)
    requires Applicable(s.book, action) && MaximumEvents(action) <= U64_MAX && first + |EventKinds(s, command, action)| <= U64_MAX + 1
    requires !action.MassCancelAction? && !action.UncrossAction?
    ensures var events := Stamped(EventKinds(s, command, action), command, first);
            && (forall k {:trigger events[k]} :: 0 <= k < |events| ==> !events[k].kind.TradeExecuted?)
            && match action
               case RejectedAction(reason) => |events| == 1
               case PhaseTransition(source, resulting) => |events| == 1
               case SubmitAction(accepted) => |events| == 1 && events[0].kind == OrderAccepted(accepted)
               case CancelAction(order) => |events| == 1 && events[0].kind == OrderCancelled(order, UserRequested)
               case AmendAction(previous, newQuantity) =>
                 |events| == 1 && events[0].kind == OrderAmended(previous.(quantity := newQuantity), previous.quantity, s.book.stateRevision + 1)
               case ReplaceAction(target, accepted) =>
                 |events| == 2 && events[0].kind == OrderCancelled(target, ByReplacement) && events[1].kind == OrderAccepted(accepted)
               case IndicativeAction(state) => |events| == 1 && events[0].kind == IndicativePublished(state)
               case _ => true
  {
    hide BookModel.Valid, InstrumentDefinition.Valid, Admission, Cancellation, Amendment, ReplacementOutcome, Discovered, DecidePhase;
  }

  /** The book's trade identities after an action. */
  lemma SimpleBookAfter(m: BookModel, action: PreparedAction)
    requires Applicable(m, action) && !action.UncrossAction?
    ensures BookAfter(m, action).nextTradeId == m.nextTradeId
  {
    hide Selected;
  }

  lemma SimpleIsProjected(s: EngineState, command: CallAuctionCommand, action: PreparedAction, first: nat)
    requires s.book.Valid() && s.book.definition.Valid() && ActionFits(s, command, action) && !action.RejectedAction?
    requires action.IndicativeAction? ==> action.state.IsValidFor(s.book.definition)
    requires Applicable(s.book, action) && MaximumEvents(action) <= U64_MAX && first + |EventKinds(s, command, action)| <= U64_MAX + 1
    requires !action.MassCancelAction? && !action.UncrossAction? && |EventKinds(s, command, action)| >= 1
    ensures AcceptedProjected(ProjectionOf(s.book), s.book.definition, command, Stamped(EventKinds(s, command, action), command, first)) ==
              Some(ProjectionOf(BookAfter(s.book, action)))
  {
    hide BookModel.Valid, InstrumentDefinition.Valid, Stamped, EventKinds, Admission, Cancellation, Amendment, ReplacementOutcome, Discovered, DecidePhase,
      AcceptedProjected, ProjectionOf, Admitted, Amended, WithoutOrders, WithoutTarget, CallAuctionIndicativeState.IsValidFor, UncrossFits;
    SimpleKinds(s, command, action, first);
    var events := Stamped(EventKinds(s, command, action), command, first);
    match action {
      case PhaseTransition(_, _) => PhaseProjects(s.book, command, events);
      case SubmitAction(_) => SubmitProjects(s.book, command, events);
      case CancelAction(_) => CancelProjects(s.book, command, events);
      case AmendAction(_, _) =>
        AmendmentFacts(s.book, command.accountId, command.orderId, command.newQuantity);
        OrderFacts(s.book, command.orderId);
        AmendProjects(s.book, command, events);
      case ReplaceAction(target, replacement) => ReplaceProjects(s.book, command, target, replacement, events);
      case IndicativeAction(state) => IndicativeProjects(s.book, command, state, events);
    }
  }

  lemma PhaseProjects(m: BookModel, command: CallAuctionCommand, events: Events)
    requires m.definition.Valid() && command.PhaseControl? && events != []
    ensures AcceptedProjected(ProjectionOf(m), m.definition, command, events) == Some(ProjectionOf(m))
  {
    hide InstrumentDefinition.Valid, ProjectionOf;
  }

  /** Replacing the projected trade counter with its own value changes nothing. */
  lemma SameTradeId(m: BookModel)
    ensures ProjectionOf(m).(nextTradeId := m.nextTradeId) == ProjectionOf(m) && ProjectionOf(m).nextTradeId == m.nextTradeId
  {
  }

  ghost predicate ReportProjects(m: BookModel, command: CallAuctionCommand, events: Events, after: BookModel, accepted: bool)
    requires m.definition.Valid() && events != []
  {
    && TradeIdsAfter(events, |events|, m.nextTradeId) == Some(after.nextTradeId)
    && (accepted ==> AcceptedProjected(ProjectionOf(m).(nextTradeId := after.nextTradeId), m.definition, command, events) == Some(ProjectionOf(after)))
    && (!accepted ==> after == m)
  }

  lemma SimpleReport(s: EngineState, command: CallAuctionCommand, action: PreparedAction, first: nat)
    requires s.book.Valid() && s.book.definition.Valid() && ActionFits(s, command, action)
    requires action.IndicativeAction? ==> action.state.IsValidFor(s.book.definition)
    requires Applicable(s.book, action) && MaximumEvents(action) <= U64_MAX && first + |EventKinds(s, command, action)| <= U64_MAX + 1
    requires !action.MassCancelAction? && !action.UncrossAction? && |EventKinds(s, command, action)| >= 1
    ensures ReportProjects(s.book, command, Stamped(EventKinds(s, command, action), command, first), BookAfter(s.book, action), !action.RejectedAction?)
  {
    hide *;
    SimpleKinds(s, command, action, first);
    SimpleBookAfter(s.book, action);
    SameTradeId(s.book);
    var events := Stamped(EventKinds(s, command, action), command, first);
    TradeIdsStart(events, s.book.nextTradeId);
    NoTradeIds(events, 0, |events|, s.book.nextTradeId, s.book.nextTradeId);
    if action.RejectedAction? {
      RejectedBookAfter(s.book, action);
    } else {
      SimpleIsProjected(s, command, action, first);
    }
    ReportProjectsIs(s.book, command, events, BookAfter(s.book, action), !action.RejectedAction?);
  }

  lemma TradeIdsStart(events: Events, next: u64)
    ensures TradeIdsAfter(events, 0, next) == Some(next)
  {
  }

  lemma RejectedBookAfter(m: BookModel, action: PreparedAction)
    requires action.RejectedAction? && Applicable(m, action)
    ensures BookAfter(m, action) == m
  {
  }

  lemma ReportProjectsIs(m: BookModel, command: CallAuctionCommand, events: Events, after: BookModel, accepted: bool)
    requires m.definition.Valid() && events != []
    ensures ReportProjects(m, command, events, after, accepted) <==>
              && TradeIdsAfter(events, |events|, m.nextTradeId) == Some(after.nextTradeId)
              && (accepted ==> AcceptedProjected(ProjectionOf(m).(nextTradeId := after.nextTradeId), m.definition, command, events) == Some(ProjectionOf(after)))
              && (!accepted ==> after == m)
  {
    hide InstrumentDefinition.Valid, TradeIdsAfter, AcceptedProjected, ProjectionOf;
  }

  lemma MassCancelReport(s: EngineState, command: CallAuctionCommand, action: PreparedAction, first: nat)
    requires s.book.Valid() && s.book.definition.Valid() && ActionFits(s, command, action) && action.MassCancelAction?
    requires Applicable(s.book, action) && MaximumEvents(action) <= U64_MAX && first + |EventKinds(s, command, action)| <= U64_MAX + 1
    ensures |EventKinds(s, command, action)| >= 1
    ensures ReportProjects(s.book, command, Stamped(EventKinds(s, command, action), command, first), BookAfter(s.book, action), true)
  {
    hide *;
    var m := s.book;
    MassCancelActionIs(s, command, action);
    AscendingSelection(m, command.accountId, command.scope);
    KindsFit(m, command.accountId, command.scope, action.preflight);
    MassCancelKindsAre(m, command.accountId, command.scope, action.preflight, command, first);
    var events := Stamped(EventKinds(s, command, action), command, first);
    MassCancelProjects(m, command, action.preflight, events);
    SimpleBookAfter(m, action);
    SameTradeId(m);
    TradeIdsStart(events, m.nextTradeId);
    AnnouncedTradesNothing(events, AscendingOrders(m.active, Selected(m, command.accountId, command.scope)));
    NoTradeIds(events, 0, |events|, m.nextTradeId, m.nextTradeId);
    ReportProjectsIs(m, command, events, BookAfter(m, action), true);
  }

  lemma AnnouncedTradesNothing(events: Events, orders: seq<CallAuctionOrderSnapshot>)
    requires Announces(events, orders, |orders|) && |events| == |orders| + 1 && events[|orders|].kind.MassCancelCompleted?
    ensures forall i {:trigger events[i]} :: 0 <= i < |events| ==> !events[i].kind.TradeExecuted?
  {
  }

  lemma MassCancelActionIs(s: EngineState, command: CallAuctionCommand, action: PreparedAction)
    requires s.book.Valid() && s.book.definition.Valid() && ActionFits(s, command, action) && action.MassCancelAction? && Applicable(s.book, action)
    requires MaximumEvents(action) <= U64_MAX
    ensures command.MassCancel? && MassCancelOutcome(s.book, command.accountId, command.scope) == Ok(action.preflight)
    ensures EventKinds(s, command, action) == MassCancelKinds(s.book, command.accountId, command.scope, action.preflight)
    ensures Selected(s.book, command.accountId, command.scope) != {} ==> s.book.stateRevision < U64_MAX
    ensures BookAfter(s.book, action) == AbstractBook.MassCancelled(s.book, command.accountId, command.scope)
  {
    hide BookModel.Valid, InstrumentDefinition.Valid, MassCancelOutcome, MassCancelKinds, Selected, AbstractBook.MassCancelled;
  }

  lemma UncrossReport(s: EngineState, command: CallAuctionCommand, action: PreparedAction, first: nat)
    requires s.book.Valid() && s.book.definition.Valid() && ActionFits(s, command, action) && action.UncrossAction?
    requires Applicable(s.book, action) && MaximumEvents(action) <= U64_MAX && first + |EventKinds(s, command, action)| <= U64_MAX + 1
    requires |EventKinds(s, command, action)| == MaximumEvents(action)
    ensures |EventKinds(s, command, action)| >= 1
    ensures ReportProjects(s.book, command, Stamped(EventKinds(s, command, action), command, first), BookAfter(s.book, action), true)
  {
    hide *;
    var m, prepared := s.book, action.prepared;
    UncrossActionIs(s, command, action);
    UncrossFitsIs(m, command.uncrossPolicy, prepared);
    UncrossKindsAre(action.auctionId, action.phaseRevision, prepared, command, first);
    var events := Stamped(EventKinds(s, command, action), command, first);
    AnnouncesUncross(events, prepared);
    UncrossCloses(m, command, prepared, events);
    UncrossTradeIds(m, prepared.plan.clearing, command.uncrossPolicy, events);
    ReportProjectsIs(m, command, events, BookAfter(m, action), true);
  }

  lemma AnnouncesUncross(events: Events, prepared: PreparedCallAuctionUncross)
    requires |events| == |prepared.trades| + |prepared.cancellations| + 1 && Prints(events, prepared.trades, |prepared.trades|)
    requires forall k {:trigger events[k]} :: |prepared.trades| <= k < |events| - 1 ==>
               events[k].kind == CallAuctionEventKind.RemainderCancelled(prepared.cancellations[k - |prepared.trades|])
    requires events[|events| - 1].kind.UncrossCompleted?
    ensures Trading(events, prepared.trades) && Cancelling(events, |prepared.trades|, prepared.cancellations)
    ensures forall i {:trigger events[i]} :: |prepared.trades| <= i < |events| ==> !events[i].kind.TradeExecuted?
  {
    forall k | 0 <= k < |prepared.cancellations|
      ensures events[|prepared.trades| + k].kind == CallAuctionEventKind.RemainderCancelled(prepared.cancellations[k])
    {
      var event := events[|prepared.trades| + k];
    }
  }

  lemma UncrossActionIs(s: EngineState, command: CallAuctionCommand, action: PreparedAction)
    requires s.book.Valid() && s.book.definition.Valid() && ActionFits(s, command, action) && action.UncrossAction? && Applicable(s.book, action)
    requires MaximumEvents(action) <= U64_MAX && |EventKinds(s, command, action)| == MaximumEvents(action)
    ensures command.Uncross? && UncrossFits(s.book, command.uncrossPolicy, action.prepared)
    ensures |action.prepared.trades| + |action.prepared.cancellations| + 1 == |EventKinds(s, command, action)| <= U64_MAX
    ensures EventKinds(s, command, action) == UncrossKinds(action.auctionId, action.phaseRevision, action.prepared)
    ensures ClearsAt(s.book, action.prepared.plan.clearing) && s.book.stateRevision < U64_MAX
    ensures TradeIdsFit(s.book, action.prepared.plan.clearing, action.prepared.policy.allocation)
    ensures BookAfter(s.book, action) == Uncrossed(s.book, action.prepared.plan.clearing, action.prepared.policy)
  {
    hide BookModel.Valid, InstrumentDefinition.Valid, UncrossFits, UncrossKinds, ClearsAt, TradeIdsFit, PreparationOutcome, Uncrossed;
  }

  /** Every committed report projects onto the book it left. */
  lemma CommitProjects(s: EngineState, command: CallAuctionCommand, action: PreparedAction)
    requires s.book.Valid() && s.book.definition.Valid() && ActionFits(s, command, action) && Committable(s, command, action) && MaximumEvents(action) >= 1
    ensures Applicable(s.book, action) && HasRoom(s, action) && 1 <= |EventKinds(s, command, action)| <= MaximumEvents(action)
    ensures |ReportOf(s, command, action).events| >= 1
    ensures ReportProjects(s.book, command, ReportOf(s, command, action).events, BookAfter(s.book, action), !action.RejectedAction?)
  {
    hide *;
    CommittableFacts(s, command, action);
    CommittedIs(s, command, action);
    RoomIs(s, action);
    match action {
      case MassCancelAction(_, _, _) => MassCancelReport(s, command, action, s.nextEventSequence);
      case UncrossAction(_, _, _) => UncrossReport(s, command, action, s.nextEventSequence);
      case IndicativeAction(_) => CommittedIndication(s, command, action); SimpleReport(s, command, action, s.nextEventSequence);
      case _ => SimpleReport(s, command, action, s.nextEventSequence);
    }
  }
}
