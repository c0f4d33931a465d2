/** The independent grammar of retained reports: which event sequences answer which command. */
module ReportGrammar {
  import opened AbstractBook
  import opened Domain
  import opened EngineTypes

  type Events = seq<CallAuctionEvent>

  // ----- mass cancellation

  /** One cancellation of a mass cancellation of this account and scope. */
  ghost predicate IsMassCancelled(kind: CallAuctionEventKind, accountId: AccountId, scope: MassCancelScope) {
    && kind.OrderCancelled? && kind.cancellationReason == ByMassCancel
    && kind.cancelled.accountId == accountId && Includes(scope, kind.cancelled.side)
  }

  ghost function CancelledLotsOf(events: Events, n: nat): nat
    requires n <= |events|
  {
    if n == 0 then 0 else
    CancelledLotsOf(events, n - 1) + if events[n - 1].kind.OrderCancelled? then events[n - 1].kind.cancelled.quantity else 0
  }

  lemma {:induction false} CancelledLotsGrow(events: Events, m: nat, n: nat)
    requires m <= n <= |events|
    ensures CancelledLotsOf(events, m) <= CancelledLotsOf(events, n)
  {
    if m < n { CancelledLotsGrow(events, m, n - 1); }
  }

  /** The first `n` events cancel orders of the selection in ascending identity order. */
  ghost predicate MassCancelBody(events: Events, n: nat, accountId: AccountId, scope: MassCancelScope)
    requires n <= |events|
  {
    && (forall k {:trigger events[k]} :: 0 <= k < n ==> IsMassCancelled(events[k].kind, accountId, scope))
    && forall j, k {:trigger events[j], events[k]} :: 0 <= j < k < n ==> events[j].kind.cancelled.orderId < events[k].kind.cancelled.orderId
  }

  /** A body closed by its exact count and total. */
  ghost predicate MassCancelGrammar(events: Events, accountId: AccountId, scope: MassCancelScope) {
    && events != []
    && var n := |events| - 1;
       var last := events[n].kind;
       && last.MassCancelCompleted? && last.accountId == accountId && last.scope == scope && last.cancelledOrderCount == n
       && MassCancelBody(events, n, accountId, scope) && CancelledLotsOf(events, n) == last.cancelledQuantityLots
  }

  method MassCancelGrammarIsValid(events: Events, accountId: AccountId, scope: MassCancelScope) returns (ok: bool)
    ensures ok <==> MassCancelGrammar(events, accountId, scope)
  {
    if events == [] {
      return false;
    }
    var n := |events| - 1;
    var last := events[n].kind;
    if !last.MassCancelCompleted? || last.accountId != accountId || last.scope != scope || n != last.cancelledOrderCount {
      return false;
    }
    var previousOrderId: Option<OrderId>, quantityLots: u128 := None, 0;
    for k := 0 to n
      invariant MassCancelBody(events, k, accountId, scope) && quantityLots == CancelledLotsOf(events, k)
      invariant previousOrderId == if k == 0 then None else Some(events[k - 1].kind.cancelled.orderId)
    {
      var kind := events[k].kind;
      if !kind.OrderCancelled? || kind.cancellationReason != ByMassCancel || kind.cancelled.accountId != accountId
         || (scope.OneSide? && kind.cancelled.side != scope.side) || (previousOrderId.Some? && previousOrderId.value >= kind.cancelled.orderId) {
        return false;
      }
      if quantityLots + kind.cancelled.quantity > U128_MAX {
        CancelledLotsGrow(events, k + 1, n);
        return false;
      }
      quantityLots := quantityLots + kind.cancelled.quantity;
      previousOrderId := Some(kind.cancelled.orderId);
    }
    ok := quantityLots == last.cancelledQuantityLots;
  }

  // ----- uncross

  ghost function TradedLotsOf(events: Events, n: nat): nat
    requires n <= |events|
  {
    if n == 0 then 0 else
    TradedLotsOf(events, n - 1) + if events[n - 1].kind.TradeExecuted? then events[n - 1].kind.trade.quantity else 0
  }

  lemma {:induction false} TradedLotsGrow(events: Events, m: nat, n: nat)
    requires m <= n <= |events|
    ensures TradedLotsOf(events, m) <= TradedLotsOf(events, n)
  {
    if m < n { TradedLotsGrow(events, m, n - 1); }
  }

  /** The first `n` events are trades at one price under consecutive identities. */
  ghost predicate TradeBody(events: Events, n: nat, price: Price)
    requires n <= |events|
  {
    n > 0 ==> events[0].kind.TradeExecuted? && forall k {:trigger events[k]} :: 0 <= k < n ==>
      && events[k].kind.TradeExecuted? && events[k].kind.trade.price == price
      && events[k].kind.trade.tradeId == events[0].kind.trade.tradeId + k
  }

  /** Trades that sum to the executable quantity, then cancelled remainders, then the completion
      that counts both. */
  ghost predicate UncrossGrammar(events: Events, command: CallAuctionCommand)
    requires command.Uncross?
  {
    && command.expectedPhaseRevision < U64_MAX && events != []
    && var n := |events| - 1;
       var last := events[n].kind;
       && last.UncrossCompleted? && n == last.tradeCount + last.cancellationCount
       && TradeBody(events, last.tradeCount, last.clearing.price)
       && TradedLotsOf(events, last.tradeCount) == last.clearing.executableQuantity
       && (forall k {:trigger events[k]} :: last.tradeCount <= k < n ==> events[k].kind.RemainderCancelled?)
       && last.uncrossedAuctionId == command.auctionId && last.policy == command.uncrossPolicy
       && last.phaseRevision == command.expectedPhaseRevision + 1
  }

  method UncrossGrammarIsValid(events: Events, command: CallAuctionCommand) returns (ok: bool)
    requires command.Uncross?
    ensures ok <==> UncrossGrammar(events, command)
  {
    if command.expectedPhaseRevision == U64_MAX || events == [] {
      return false;
    }
    var n := |events| - 1;
    var last := events[n].kind;
    if !last.UncrossCompleted? || n != last.tradeCount + last.cancellationCount {
      return false;
    }
    var tradeQuantity: u128, previousTradeId: Option<TradeId> := 0, None;
    for k := 0 to last.tradeCount
      invariant TradeBody(events, k, last.clearing.price) && tradeQuantity == TradedLotsOf(events, k)
      invariant previousTradeId == if k == 0 then None else Some(events[k - 1].kind.trade.tradeId)
    {
      var kind := events[k].kind;
      if !kind.TradeExecuted? || kind.trade.price != last.clearing.price {
        return false;
      }
      if previousTradeId.Some? && previousTradeId.value + 1 != kind.trade.tradeId {
        return false;
      }
      if tradeQuantity + kind.trade.quantity > U128_MAX {
        TradedLotsGrow(events, k + 1, last.tradeCount);
        return false;
      }
      tradeQuantity := tradeQuantity + kind.trade.quantity;
      previousTradeId := Some(kind.trade.tradeId);
    }
    for k := last.tradeCount to n
      invariant forall j {:trigger events[j]} :: last.tradeCount <= j < k ==> events[j].kind.RemainderCancelled?
    {
      if !events[k].kind.RemainderCancelled? {
        return false;
      }
    }
    ok := tradeQuantity == last.clearing.executableQuantity && last.uncrossedAuctionId == command.auctionId
          && last.policy == command.uncrossPolicy && last.phaseRevision == command.expectedPhaseRevision + 1;
  }

  // ----- every command

  /** An accepted order carries what its command asked for. */
  ghost predicate Carries(snapshot: CallAuctionOrderSnapshot, order: CallAuctionOrder) {
    && snapshot.orderId == order.orderId && snapshot.accountId == order.accountId && snapshot.side == order.side
    && snapshot.constraint == order.constraint && snapshot.quantity == order.quantity
  }

  ghost predicate AcceptedGrammar(command: CallAuctionCommand, events: Events) {
    match command
    case PhaseControl(_, _, _, auctionId, expectedRevision, target, _) =>
      && expectedRevision < U64_MAX && |events| == 1 && events[0].kind.PhaseChanged? && events[0].kind.auctionId == auctionId
      && events[0].kind.current == target && events[0].kind.revision == expectedRevision + 1
    case Submit(_, _, _, order, _) => |events| == 1 && events[0].kind.OrderAccepted? && Carries(events[0].kind.accepted, order)
    case Cancel(_, _, _, accountId, orderId, _) =>
      && |events| == 1 && events[0].kind.OrderCancelled? && events[0].kind.cancellationReason == UserRequested
      && events[0].kind.cancelled.orderId == orderId && events[0].kind.cancelled.accountId == accountId
    case MassCancel(_, _, _, accountId, scope, _) => MassCancelGrammar(events, accountId, scope)
    case Amend(_, _, _, _, _, accountId, orderId, newQuantity, _) =>
      && |events| == 1 && events[0].kind.OrderAmended? && events[0].kind.amended.orderId == orderId && events[0].kind.amended.accountId == accountId
      && events[0].kind.amended.quantity == newQuantity && events[0].kind.previousQuantity > newQuantity && events[0].kind.amendBookRevision != 0
    case Replace(_, _, _, accountId, target, replacement, _) =>
      && |events| == 2 && events[0].kind.OrderCancelled? && events[0].kind.cancellationReason == ByReplacement && events[1].kind.OrderAccepted?
      && events[0].kind.cancelled.orderId == target && events[0].kind.cancelled.accountId == accountId
      && replacement.accountId == accountId && Carries(events[1].kind.accepted, replacement)
    case Indicative(_, _, _, auctionId, expectedRevision, band, reference, policy, _) =>
      && |events| == 1 && events[0].kind.IndicativePublished?
      && var state := events[0].kind.state;
         && state.auctionId == auctionId && state.phaseRevision == expectedRevision && state.priceBand == band
         && state.referencePrice == reference && state.pricePolicy == policy && state.IsStructurallyValid()
    case Uncross(_, _, _, _, _, _, _, _, _, _) => UncrossGrammar(events, command)
  }

  ghost predicate ReportIsGrammatical(entry: CallAuctionHistoryEntry) {
    && !entry.report.replayed && entry.report.events != []
    && match entry.report.outcome
       case Rejected(reason) => |entry.report.events| == 1 && entry.report.events[0].kind == CommandRejected(reason)
       case Accepted => AcceptedGrammar(entry.command, entry.report.events)
  }

  method CachedReportGrammarIsValid(entry: CallAuctionHistoryEntry) returns (ok: bool)
    ensures ok <==> ReportIsGrammatical(entry)
  {
    hide MassCancelGrammar, UncrossGrammar;
    var events := entry.report.events;
    if entry.report.replayed || events == [] {
      return false;
    }
    if entry.report.outcome.Rejected? {
      return |events| == 1 && events[0].kind == CommandRejected(entry.report.outcome.reason);
    }
    var first := events[0].kind;
    match entry.command {
      case PhaseControl(_, _, _, auctionId, expectedRevision, target, _) =>
        ok := expectedRevision < U64_MAX && |events| == 1 && first.PhaseChanged? && first.auctionId == auctionId
              && first.current == target && first.revision == expectedRevision + 1;
      case Submit(_, _, _, order, _) =>
        ok := |events| == 1 && first.OrderAccepted? && first.accepted.orderId == order.orderId && first.accepted.accountId == order.accountId
              && first.accepted.side == order.side && first.accepted.constraint == order.constraint && first.accepted.quantity == order.quantity;
      case Cancel(_, _, _, accountId, orderId, _) =>
        ok := |events| == 1 && first.OrderCancelled? && first.cancellationReason == UserRequested
              && first.cancelled.orderId == orderId && first.cancelled.accountId == accountId;
      case MassCancel(_, _, _, accountId, scope, _) =>
        ok := MassCancelGrammarIsValid(events, accountId, scope);
      case Amend(_, _, _, _, _, accountId, orderId, newQuantity, _) =>
        ok := |events| == 1 && first.OrderAmended? && first.amended.orderId == orderId && first.amended.accountId == accountId
              && first.amended.quantity == newQuantity && first.previousQuantity > newQuantity && first.amendBookRevision != 0;
      case Replace(_, _, _, accountId, target, replacement, _) =>
        ok := |events| == 2 && first.OrderCancelled? && first.cancellationReason == ByReplacement && events[1].kind.OrderAccepted?
              && first.cancelled.orderId == target && first.cancelled.accountId == accountId
              && replacement.accountId == accountId
              && var accepted := events[1].kind.accepted;
                 && accepted.orderId == replacement.orderId && accepted.accountId == replacement.accountId && accepted.side == replacement.side
                 && accepted.constraint == replacement.constraint && accepted.quantity == replacement.quantity;
      case Indicative(_, _, _, auctionId, expectedRevision, band, reference, policy, _) =>
        ok := |events| == 1 && first.IndicativePublished? && first.state.auctionId == auctionId && first.state.phaseRevision == expectedRevision
              && first.state.priceBand == band && first.state.referencePrice == reference && first.state.pricePolicy == policy
              && first.state.IsStructurallyValid();
      case Uncross(_, _, _, _, _, _, _, _, _, _) =>
        ok := UncrossGrammarIsValid(events, entry.command);
    }
  }
}
