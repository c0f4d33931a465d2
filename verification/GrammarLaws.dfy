/** Every report the engine commits obeys the independent report grammar. */
module GrammarLaws {
  import opened AbstractBook
  import opened Allocation
  import opened Ascending
  import opened BookInterest
  import opened Clearing
  import opened DecidedActions
  import opened Domain
  import opened EngineLaws
  import opened EngineModel
  import opened EngineRuns
  import opened EngineTypes
  import opened MassCancellation
  import opened Pairing
  import PhaseAudit
  import opened ReportGrammar
  import opened SetSums
  import opened Uncross
  import opened UncrossLaws
  import opened UncrossSteps

  // ----- mass cancellation

  /** The first `n` events announce the first `n` orders of a list. */
  ghost predicate Announces(events: Events, orders: seq<CallAuctionOrderSnapshot>, n: nat) {
    && n <= |events| && n <= |orders|
    && forall k {:trigger events[k]} :: 0 <= k < n ==> events[k].kind == OrderCancelled(orders[k], ByMassCancel)
  }

  lemma {:induction false} AnnouncedLots(events: Events, orders: seq<CallAuctionOrderSnapshot>, active: Ascending.Active, ids: set<OrderId>, n: nat)
    requires Announces(events, orders, |orders|) && n <= |orders| && AscendingOf(orders, active, ids)
    ensures SnapshotIds(orders[..n]) <= active.Keys == Lots(active).Keys
    ensures CancelledLotsOf(events, n) == Total(Lots(active), SnapshotIds(orders[..n]))
  {
    if n == 0 {
      assert SnapshotIds(orders[..0]) == {};
    } else {
      AnnouncedLots(events, orders, active, ids, n - 1);
      NextSnapshot(orders, active, ids, n - 1);
      assert events[n - 1].kind == OrderCancelled(orders[n - 1], ByMassCancel) && orders[n - 1] == active[orders[n - 1].orderId];
      hide AscendingOf, Announces, SnapshotIds;
      TotalAdd(Lots(active), SnapshotIds(orders[..n - 1]), orders[n - 1].orderId);
    }
  }

  lemma AnnouncedBody(events: Events, m: BookModel, accountId: AccountId, scope: MassCancelScope, orders: seq<CallAuctionOrderSnapshot>)
    requires Announces(events, orders, |orders|) && AscendingOf(orders, m.active, Selected(m, accountId, scope))
    ensures MassCancelBody(events, |orders|, accountId, scope)
  {
    hide Includes;
    forall k | 0 <= k < |orders| ensures IsMassCancelled(events[k].kind, accountId, scope) {
      assert orders[k].orderId in SnapshotIds(orders);
    }
  }

  lemma MassCancelIsGrammatical(m: BookModel, accountId: AccountId, scope: MassCancelScope, preflight: CallAuctionMassCancelResult, events: Events)
    requires m.Valid() && MassCancelOutcome(m, accountId, scope) == Ok(preflight)
    requires var orders := AscendingOrders(m.active, Selected(m, accountId, scope));
             && |events| == |orders| + 1 && Announces(events, orders, |orders|)
             && events[|orders|].kind == MassCancelCompleted(accountId, scope, preflight.cancelledOrderCount, preflight.cancelledQuantityLots, preflight.stateRevision)
    ensures MassCancelGrammar(events, accountId, scope)
  {
    hide *;
    var ids := Selected(m, accountId, scope);
    MassCancelOutcomeIs(m, accountId, scope);
    AscendingSelection(m, accountId, scope);
    var orders := AscendingOrders(m.active, ids);
    AscendingSize(orders, m.active, ids);
    AllSnapshots(orders, m.active, ids);
    AnnouncedBody(events, m, accountId, scope, orders);
    AnnouncedLots(events, orders, m.active, ids, |orders|);
    NothingSelected(m.active, ids);
    CompletedIsGrammatical(events, accountId, scope, preflight);
  }

  lemma NothingSelected(active: Ascending.Active, ids: set<OrderId>)
    requires ids <= active.Keys
    ensures |ids| == 0 ==> Total(Lots(active), ids) == 0
  {
  }

  lemma CompletedIsGrammatical(events: Events, accountId: AccountId, scope: MassCancelScope, preflight: CallAuctionMassCancelResult)
    requires var n := preflight.cancelledOrderCount;
             && |events| == n + 1 && MassCancelBody(events, n, accountId, scope) && CancelledLotsOf(events, n) == preflight.cancelledQuantityLots
             && events[n].kind == MassCancelCompleted(accountId, scope, n, preflight.cancelledQuantityLots, preflight.stateRevision)
    ensures MassCancelGrammar(events, accountId, scope)
  {
    hide MassCancelBody, CancelledLotsOf;
  }

  // ----- uncross

  ghost function PairLotsUpTo(pairs: seq<Pair>, n: nat): nat
    requires n <= |pairs|
  {
    if n == 0 then 0 else PairLotsUpTo(pairs, n - 1) + pairs[n - 1].lots
  }

  lemma {:induction false} PairLotsSplit(pairs: seq<Pair>, n: nat)
    requires n <= |pairs|
    ensures PairLotsUpTo(pairs, n) + TotalLots(pairs[n..]) == TotalLots(pairs)
  {
    if n == 0 {
      assert pairs[0..] == pairs;
    } else {
      PairLotsSplit(pairs, n - 1);
      assert pairs[n - 1..][1..] == pairs[n..] && pairs[n - 1..][0] == pairs[n - 1];
    }
  }

  /** The first `n` events announce the first `n` trades. */
  ghost predicate Prints(events: Events, trades: seq<CallAuctionTrade>, n: nat) {
    && n <= |events| && n <= |trades|
    && forall k {:trigger events[k]} :: 0 <= k < n ==> events[k].kind == TradeExecuted(trades[k])
  }

  /** Trades of a clearing state: one per pair, consecutively numbered, at the clearing price. */
  ghost predicate TradesFit(trades: seq<CallAuctionTrade>, pairs: seq<Pair>, price: Price, firstId: nat) {
    && |trades| == |pairs|
    && forall k {:trigger trades[k]} :: 0 <= k < |trades| ==>
         trades[k].tradeId == firstId + k && trades[k].price == price && trades[k].quantity == pairs[k].lots
  }

  lemma PreparedTradesFit(m: BookModel, c: AuctionClearing, allocation: AuctionAllocationPolicy)
    requires ClearsAt(m, c) && TradeIdsFit(m, c, allocation)
    ensures TradesFit(PreparedTrades(m, c, allocation), PairsOf(m, c, allocation), c.price, m.nextTradeId)
    ensures TotalLots(PairsOf(m, c, allocation)) == c.executableQuantity
  {
    hide *;
    SideFillsAreActive(m, Buy, c, allocation);
    SideFillsAreActive(m, Sell, c, allocation);
    PreparedTradesAre(m, c, allocation);
    var buys, sells := SideFills(m, Buy, c, allocation), SideFills(m, Sell, c, allocation);
    PairingConserves(buys, sells, 1);
    TradesFitPairs(m.definition, m.active, c.price, buys, sells, PairsOf(m, c, allocation), m.nextTradeId);
  }

  lemma TradesFitPairs(definition: InstrumentDefinition, active: BookInterest.Active, price: Price, buys: Fills, sells: Fills, pairs: seq<Pair>, firstId: nat)
    requires WellPaired(pairs, buys, sells) && ActiveFills(active, buys, Buy) && ActiveFills(active, sells, Sell)
    requires 1 <= firstId && firstId + |pairs| <= U64_MAX
    ensures TradesFit(TradesOf(definition, active, price, buys, sells, pairs, firstId), pairs, price, firstId)
  {
    TradesAreContiguous(definition, active, price, buys, sells, pairs, firstId);
    hide TradesOf;
  }

  lemma {:induction false} PrintedLots(events: Events, trades: seq<CallAuctionTrade>, pairs: seq<Pair>, price: Price, firstId: nat, n: nat)
    requires Prints(events, trades, |trades|) && TradesFit(trades, pairs, price, firstId) && n <= |trades|
    ensures TradedLotsOf(events, n) == PairLotsUpTo(pairs, n)
  {
    if n > 0 {
      PrintedLots(events, trades, pairs, price, firstId, n - 1);
      assert events[n - 1].kind == TradeExecuted(trades[n - 1]);
    }
  }

  lemma PrintedBody(events: Events, trades: seq<CallAuctionTrade>, pairs: seq<Pair>, price: Price, firstId: nat)
    requires Prints(events, trades, |trades|) && TradesFit(trades, pairs, price, firstId)
    ensures TradeBody(events, |trades|, price)
  {
    if |trades| > 0 { assert events[0].kind == TradeExecuted(trades[0]); }
  }

  lemma UncrossIsGrammatical(m: BookModel, command: CallAuctionCommand, prepared: PreparedCallAuctionUncross, events: Events)
    requires command.Uncross? && command.expectedPhaseRevision < U64_MAX && UncrossFits(m, command.uncrossPolicy, prepared)
    requires |prepared.trades| + |prepared.cancellations| <= U64_MAX && |events| == |prepared.trades| + |prepared.cancellations| + 1
    requires Prints(events, prepared.trades, |prepared.trades|)
    requires forall k {:trigger events[k]} :: |prepared.trades| <= k < |events| - 1 ==> events[k].kind.RemainderCancelled?
    requires events[|events| - 1].kind == UncrossCompleted(command.auctionId, prepared.plan.clearing, prepared.policy, |prepared.trades|,
                                                           |prepared.cancellations|, prepared.nextStateRevision, command.expectedPhaseRevision + 1)
    ensures UncrossGrammar(events, command)
  {
    hide *;
    UncrossFitsIs(m, command.uncrossPolicy, prepared);
    var c, trades := prepared.plan.clearing, prepared.trades;
    var pairs := PairsOf(m, c, command.uncrossPolicy.allocation);
    PreparedTradesFit(m, c, command.uncrossPolicy.allocation);
    TradesFitLength(trades, pairs, c.price, m.nextTradeId);
    PrintedBody(events, trades, pairs, c.price, m.nextTradeId);
    PrintedLots(events, trades, pairs, c.price, m.nextTradeId, |trades|);
    PairLotsSplit(pairs, |pairs|);
    NoPairs(pairs);
    ClosedIsGrammatical(events, command, c, |trades|, |prepared.cancellations|, prepared.nextStateRevision);
  }

  lemma UncrossFitsIs(m: BookModel, policy: CallAuctionUncrossPolicy, prepared: PreparedCallAuctionUncross)
    requires UncrossFits(m, policy, prepared)
    ensures var c := prepared.plan.clearing;
            && ClearsAt(m, c) && m.stateRevision < U64_MAX && TradeIdsFit(m, c, policy.allocation) && prepared.policy == policy
            && prepared.trades == PreparedTrades(m, c, policy.allocation) && prepared.cancellations == Cancellations(m, c, policy)
            && prepared.nextStateRevision == m.stateRevision + 1
  {
    hide ClearsAt, TradeIdsFit, PreparedTrades, Cancellations;
  }

  lemma NoPairs(pairs: seq<Pair>)
    ensures TotalLots(pairs[|pairs|..]) == 0
  {
  }

  lemma ClosedIsGrammatical(events: Events, command: CallAuctionCommand, c: AuctionClearing, trades: u64, cancellations: u64, bookRevision: u64)
    requires command.Uncross? && command.expectedPhaseRevision < U64_MAX && |events| == trades + cancellations + 1
    requires TradeBody(events, trades, c.price) && TradedLotsOf(events, trades) == c.executableQuantity
    requires forall k {:trigger events[k]} :: trades <= k < |events| - 1 ==> events[k].kind.RemainderCancelled?
    requires events[|events| - 1].kind == UncrossCompleted(command.auctionId, c, command.uncrossPolicy, trades, cancellations, bookRevision,
                                                           command.expectedPhaseRevision + 1)
    ensures UncrossGrammar(events, command)
  {
    hide TradeBody, TradedLotsOf;
  }

  lemma TradesFitLength(trades: seq<CallAuctionTrade>, pairs: seq<Pair>, price: Price, firstId: nat)
    requires TradesFit(trades, pairs, price, firstId)
    ensures |trades| == |pairs|
  {
  }

  // ----- every command

  lemma EntryIsGrammatical(s: EngineState, command: CallAuctionCommand, action: PreparedAction, first: nat)
    requires s.book.Valid() && s.book.definition.Valid() && ActionFits(s, command, action)
    requires Applicable(s.book, action) && MaximumEvents(action) <= U64_MAX && first + |EventKinds(s, command, action)| <= U64_MAX + 1
    requires !action.MassCancelAction? && !action.UncrossAction? && !action.RejectedAction? && !action.IndicativeAction?
    ensures AcceptedGrammar(command, Stamped(EventKinds(s, command, action), command, first))
  {
    hide BookModel.Valid, InstrumentDefinition.Valid, Stamped, Admission, Cancellation, Amendment, ReplacementOutcome, Admitted, Amended;
    match action {
      case SubmitAction(_) => AdmissionFacts(s.book, command.order); AcceptedCarries(command.order, s.book.nextPrioritySequence);
      case CancelAction(_) => CancellationFacts(s.book, command.accountId, command.orderId); OrderFacts(s.book, command.orderId);
      case AmendAction(_, _) =>
        AmendmentFacts(s.book, command.accountId, command.orderId, command.newQuantity);
        OrderFacts(s.book, command.orderId);
        AmendedIs(s.book, command.orderId, command.newQuantity);
      case ReplaceAction(_, _) =>
        ReplacementFacts(s.book, command.accountId, command.targetOrderId, command.replacement);
        OrderFacts(s.book, command.targetOrderId);
        AcceptedCarries(command.replacement, s.book.nextPrioritySequence);
      case _ =>
    }
  }

  lemma AcceptedCarries(order: CallAuctionOrder, prioritySequence: u64)
    ensures Carries(AcceptedSnapshot(order, prioritySequence), order)
  {
  }

  /** The kinds of an uncross, position by position. */
  lemma UncrossKindsAre(auctionId: AuctionId, phaseRevision: u64, prepared: PreparedCallAuctionUncross, command: CallAuctionCommand, first: nat)
    requires |prepared.trades| + |prepared.cancellations| + 1 <= U64_MAX && first + |prepared.trades| + |prepared.cancellations| <= U64_MAX
    ensures |UncrossKinds(auctionId, phaseRevision, prepared)| == |prepared.trades| + |prepared.cancellations| + 1
    ensures var events := Stamped(UncrossKinds(auctionId, phaseRevision, prepared), command, first);
            && |events| == |prepared.trades| + |prepared.cancellations| + 1 && Prints(events, prepared.trades, |prepared.trades|)
            && (forall k {:trigger events[k]} :: |prepared.trades| <= k < |events| - 1 ==>
                  events[k].kind == CallAuctionEventKind.RemainderCancelled(prepared.cancellations[k - |prepared.trades|]))
            && events[|events| - 1].kind == UncrossCompleted(auctionId, prepared.plan.clearing, prepared.policy, |prepared.trades|,
                                                             |prepared.cancellations|, prepared.nextStateRevision, phaseRevision)
  {
  }

  lemma MassCancelKindsAre(m: BookModel, account: AccountId, scope: MassCancelScope, preflight: CallAuctionMassCancelResult, command: CallAuctionCommand, first: nat)
    requires Selected(m, account, scope) <= m.active.Keys
    requires first + |AscendingOrders(m.active, Selected(m, account, scope))| <= U64_MAX
    ensures var orders := AscendingOrders(m.active, Selected(m, account, scope));
            && |MassCancelKinds(m, account, scope, preflight)| == |orders| + 1
            && var events := Stamped(MassCancelKinds(m, account, scope, preflight), command, first);
               && |events| == |orders| + 1 && Announces(events, orders, |orders|)
               && events[|orders|].kind == MassCancelCompleted(account, scope, preflight.cancelledOrderCount, preflight.cancelledQuantityLots, preflight.stateRevision)
  {
    hide Selected;
  }

  lemma UncrossEntry(s: EngineState, command: CallAuctionCommand, action: PreparedAction, first: nat)
    requires s.book.Valid() && s.book.definition.Valid() && ActionFits(s, command, action) && action.UncrossAction?
    requires Applicable(s.book, action) && MaximumEvents(action) <= U64_MAX && first + |EventKinds(s, command, action)| <= U64_MAX + 1
    requires |EventKinds(s, command, action)| == MaximumEvents(action)
    ensures AcceptedGrammar(command, Stamped(EventKinds(s, command, action), command, first))
  {
    hide BookModel.Valid, InstrumentDefinition.Valid, UncrossFits, UncrossKinds, Applicable, Prints;
    UncrossKindsAre(action.auctionId, action.phaseRevision, action.prepared, command, first);
    UncrossIsGrammatical(s.book, command, action.prepared, Stamped(UncrossKinds(action.auctionId, action.phaseRevision, action.prepared), command, first));
  }

  lemma MassCancelEntry(s: EngineState, command: CallAuctionCommand, action: PreparedAction, first: nat)
    requires s.book.Valid() && s.book.definition.Valid() && ActionFits(s, command, action) && action.MassCancelAction?
    requires Applicable(s.book, action) && MaximumEvents(action) <= U64_MAX && first + |EventKinds(s, command, action)| <= U64_MAX + 1
    ensures AcceptedGrammar(command, Stamped(EventKinds(s, command, action), command, first))
  {
    hide BookModel.Valid, InstrumentDefinition.Valid, MassCancelKinds, Applicable, Announces, MassCancelOutcome, Selected, AscendingOrders;
    AscendingSelection(s.book, command.accountId, command.scope);
    KindsFit(s.book, command.accountId, command.scope, action.preflight);
    MassCancelKindsAre(s.book, command.accountId, command.scope, action.preflight, command, first);
    MassCancelIsGrammatical(s.book, command.accountId, command.scope, action.preflight,
      Stamped(MassCancelKinds(s.book, command.accountId, command.scope, action.preflight), command, first));
  }

  lemma KindsFit(m: BookModel, account: AccountId, scope: MassCancelScope, preflight: CallAuctionMassCancelResult)
    requires Selected(m, account, scope) <= m.active.Keys
    ensures |MassCancelKinds(m, account, scope, preflight)| == |AscendingOrders(m.active, Selected(m, account, scope))| + 1
  {
    hide Selected;
  }

  lemma IndicativeEntry(s: EngineState, command: CallAuctionCommand, action: PreparedAction, first: nat)
    requires s.book.Valid() && s.book.definition.Valid() && ActionFits(s, command, action) && action.IndicativeAction?
    requires action.state.IsValidFor(s.book.definition) && first <= U64_MAX
    requires Applicable(s.book, action) && MaximumEvents(action) <= U64_MAX && first + |EventKinds(s, command, action)| <= U64_MAX + 1
    ensures AcceptedGrammar(command, Stamped(EventKinds(s, command, action), command, first))
  {
    hide BookModel.Valid, InstrumentDefinition.Valid, InstrumentDefinition.ValidatePrice, Discovered;
  }

  /** The report of every committed action is grammatical. */
  lemma CommitIsGrammatical(s: EngineState, command: CallAuctionCommand, action: PreparedAction)
    requires WellFormedEngine(s) && s.book.Valid() && s.book.definition.Valid() && ActionFits(s, command, action) && Committable(s, command, action)
    requires MaximumEvents(action) >= 1
    ensures Applicable(s.book, action) && HasRoom(s, action) && |EventKinds(s, command, action)| <= MaximumEvents(action)
    ensures ReportIsGrammatical(CallAuctionHistoryEntry(command, ReportOf(s, command, action)))
  {
    hide *;
    EngineFacts(s);
    CommittableFacts(s, command, action);
    CommittedIs(s, command, action);
    RoomIs(s, action);
    var report, first := ReportOf(s, command, action), s.nextEventSequence;
    match action {
      case RejectedAction(reason) => RejectedEntry(s, command, reason, first);
      case MassCancelAction(_, _, _) => MassCancelEntry(s, command, action, first);
      case UncrossAction(_, _, _) => UncrossEntry(s, command, action, first);
      case IndicativeAction(_) => PhaseAudit.CommittedIndication(s, command, action); IndicativeEntry(s, command, action, first);
      case _ => EntryIsGrammatical(s, command, action, first);
    }
    OutcomeIs(action);
    ReportGrammarIs(CallAuctionHistoryEntry(command, report));
  }

  lemma OutcomeIs(action: PreparedAction)
    ensures OutcomeOf(action) == match action case RejectedAction(reason) => Rejected(reason) case _ => Accepted
  {
  }

  lemma RoomIs(s: EngineState, action: PreparedAction)
    requires HasRoom(s, action)
    ensures s.nextEventSequence + MaximumEvents(action) <= U64_MAX
  {
  }

  lemma RejectedEntry(s: EngineState, command: CallAuctionCommand, reason: CallAuctionRejectReason, first: nat)
    requires Applicable(s.book, RejectedAction(reason)) && MaximumEvents(RejectedAction(reason)) <= U64_MAX && first <= U64_MAX
    ensures |EventKinds(s, command, RejectedAction(reason))| == 1
    ensures var events := Stamped(EventKinds(s, command, RejectedAction(reason)), command, first);
            |events| == 1 && events[0].kind == CommandRejected(reason)
  {
  }

  lemma ReportGrammarIs(entry: CallAuctionHistoryEntry)
    requires !entry.report.replayed && |entry.report.events| >= 1
    requires match entry.report.outcome
             case Rejected(reason) => |entry.report.events| == 1 && entry.report.events[0].kind == CommandRejected(reason)
             case Accepted => AcceptedGrammar(entry.command, entry.report.events)
    ensures ReportIsGrammatical(entry)
  {
    hide AcceptedGrammar;
  }
}
