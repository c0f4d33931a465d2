/** Laws of single engine steps: every decided action is applicable, keeps the engine well formed,
    and emits exactly the events it reserved, never more than one report may hold. */
module EngineLaws {
  import opened AbstractBook
  import opened Allocation
  import opened Ascending
  import opened Clearing
  import opened Discovery
  import opened Domain
  import opened EngineModel
  import opened EngineTypes
  import opened MassCancellation
  import opened Pairing
  import opened Uncross
  import opened UncrossLaws

  ghost predicate PhaseOk(phase: CallAuctionPhaseSnapshot) {
    && (phase.phase == Closed <==> phase.activeAuctionId.None?)
    && (phase.activeAuctionId.Some? ==> phase.activeAuctionId == phase.lastAuctionId && phase.revision >= 1)
  }

  /** A retained indication is the current cycle's, at the current revisions, within the rules. */
  ghost predicate IndicationOk(s: EngineState)
    requires s.book.definition.Valid()
  {
    s.lastIndicative.Some? ==>
      && s.phase.activeAuctionId == Some(s.lastIndicative.value.auctionId)
      && s.lastIndicative.value.phaseRevision == s.phase.revision && s.lastIndicative.value.bookRevision == s.book.stateRevision
      && s.lastIndicative.value.IsValidFor(s.book.definition)
  }

  ghost predicate WellFormedEngine(s: EngineState) {
    && s.limits.Valid() && s.book.Valid() && s.book.limits == s.limits.book && s.book.definition.Valid()
    && PhaseOk(s.phase) && IndicationOk(s)
    && s.nextCommandSequence == |s.history| + 1 && s.nextEventSequence == |s.events| + 1
  }

  ghost function Genesis(definition: InstrumentDefinition, limits: CallAuctionEngineLimits): (s: EngineState)
    requires definition.Valid() && limits.Valid()
    ensures WellFormedEngine(s)
  {
    EngineState(limits, EmptyBook(definition, limits.book), GENESIS_PHASE, None, 1, 1, [], [])
  }

  lemma EngineFacts(s: EngineState)
    requires WellFormedEngine(s)
    ensures s.limits.Valid() && s.book.Valid() && s.book.limits == s.limits.book && s.book.definition.Valid()
    ensures PhaseOk(s.phase) && IndicationOk(s)
    ensures s.nextCommandSequence == |s.history| + 1 && s.nextEventSequence == |s.events| + 1
    ensures |s.book.active| <= s.book.limits.maxActiveOrders && 2 * s.book.limits.maxActiveOrders + 1 <= s.limits.reportEvents
  {
    MaximumHolds(s.book);
  }

  /** What makes a decided action safe to commit. */
  ghost predicate SoundAction(s: EngineState, command: CallAuctionCommand, action: PreparedAction)
    requires s.book.definition.Valid()
  {
    hide BookModel.Valid, InstrumentDefinition.Valid, ClearsAt, IsPreparation, TradeIdsFit;
    && Applicable(s.book, action)
    && BookAfter(s.book, action).Valid() && BookAfter(s.book, action).limits == s.book.limits
    && BookAfter(s.book, action).definition == s.book.definition
    && MaximumEvents(action) <= 2 * s.book.limits.maxActiveOrders + 1 <= s.limits.reportEvents
    && |EventKinds(s, command, action)| == MaximumEvents(action)
    && PhaseOk(PhaseAfter(s.phase, action))
    && (action.IndicativeAction? ==>
          && s.phase.activeAuctionId == Some(action.state.auctionId) && action.state.phaseRevision == s.phase.revision
          && action.state.bookRevision == s.book.stateRevision && action.state.IsValidFor(s.book.definition))
  }

  lemma RejectionIsSound(s: EngineState, command: CallAuctionCommand, reason: CallAuctionRejectReason)
    requires WellFormedEngine(s)
    ensures SoundAction(s, command, RejectedAction(reason))
  {
    hide BookModel.Valid, InstrumentDefinition.Valid, IndicationOk;
  }

  lemma PhaseDecisionIsSound(s: EngineState, command: CallAuctionCommand, action: PreparedAction)
    requires WellFormedEngine(s) && command.PhaseControl? && DecidePhase(s.phase, command) == Ok(action)
    ensures SoundAction(s, command, action)
  {
    hide BookModel.Valid, InstrumentDefinition.Valid, IndicationOk;
  }

  lemma SubmitDecisionIsSound(s: EngineState, command: CallAuctionCommand, action: PreparedAction)
    requires WellFormedEngine(s) && command.Submit? && DecideSubmit(s, command) == Ok(action)
    ensures SoundAction(s, command, action)
  {
    hide BookModel.Valid, InstrumentDefinition.Valid, IndicationOk, Admission, CollectionRejection, Admitted;
    if action.SubmitAction? {
      AdmissionFacts(s.book, command.order);
      AdmitKeepsValid(s.book, command.order);
      AdmittedIs(s.book, action.accepted);
    }
  }

  lemma CancelDecisionIsSound(s: EngineState, command: CallAuctionCommand, action: PreparedAction)
    requires WellFormedEngine(s) && command.Cancel? && DecideCancel(s, command) == Ok(action)
    ensures SoundAction(s, command, action)
  {
    hide BookModel.Valid, InstrumentDefinition.Valid, IndicationOk, Cancellation, WithoutOrders;
    CancellationFacts(s.book, command.accountId, command.orderId);
    if action.CancelAction? {
      RemoveKeepsValid(s.book, {action.cancelled.orderId});
      WithoutOrdersIs(s.book, {action.cancelled.orderId});
    }
  }

  lemma AmendDecisionIsSound(s: EngineState, command: CallAuctionCommand, action: PreparedAction)
    requires WellFormedEngine(s) && command.Amend? && DecideAmend(s, command) == Ok(action)
    ensures SoundAction(s, command, action)
  {
    hide BookModel.Valid, InstrumentDefinition.Valid, IndicationOk, Amendment, CollectionRejection, Amended;
    AmendmentFacts(s.book, command.accountId, command.orderId, command.newQuantity);
    if action.AmendAction? {
      OrderFacts(s.book, command.orderId);
      AmendKeepsValid(s.book, command.accountId, command.orderId, command.newQuantity);
      AmendedIs(s.book, command.orderId, command.newQuantity);
    }
  }

  lemma ReplaceDecisionIsSound(s: EngineState, command: CallAuctionCommand, action: PreparedAction)
    requires WellFormedEngine(s) && command.Replace? && DecideReplace(s, command) == Ok(action)
    ensures SoundAction(s, command, action)
  {
    hide BookModel.Valid, InstrumentDefinition.Valid, IndicationOk, ReplacementOutcome, CollectionRejection, Admitted, Admission, WithoutTarget, AcceptedSnapshot;
    if action.ReplaceAction? {
      ReplacementFacts(s.book, command.accountId, command.targetOrderId, command.replacement);
      OrderFacts(s.book, command.targetOrderId);
      ReplaceIsAdmitAfterRemove(s.book, command.accountId, command.targetOrderId, command.replacement);
      ReplaceKeepsValid(s.book, command.accountId, command.targetOrderId, command.replacement);
      WithoutTargetIsValid(s.book, command.targetOrderId);
      WithoutTargetIs(s.book, command.targetOrderId);
      AdmissionFacts(WithoutTarget(s.book, command.targetOrderId), command.replacement);
      AdmittedIs(WithoutTarget(s.book, command.targetOrderId), action.replacement);
    }
  }

  lemma MassCancelIsSound(s: EngineState, command: CallAuctionCommand, account: AccountId, scope: MassCancelScope, preflight: CallAuctionMassCancelResult)
    requires s.book.definition.Valid() && PhaseOk(s.phase)
    requires Selected(s.book, account, scope) != {} ==> s.book.stateRevision < U64_MAX
    requires var n := AbstractBook.MassCancelled(s.book, account, scope); n.Valid() && n.limits == s.book.limits && n.definition == s.book.definition
    requires preflight.cancelledOrderCount <= s.book.limits.maxActiveOrders && 2 * s.book.limits.maxActiveOrders + 1 <= s.limits.reportEvents
    requires Selected(s.book, account, scope) <= s.book.active.Keys
    requires |AscendingOrders(s.book.active, Selected(s.book, account, scope))| == preflight.cancelledOrderCount
    ensures SoundAction(s, command, MassCancelAction(account, scope, preflight))
  {
    hide BookModel.Valid, InstrumentDefinition.Valid, AbstractBook.MassCancelled, Selected;
  }

  lemma MassCancelDecision(s: EngineState, command: CallAuctionCommand, action: PreparedAction)
    requires s.book.Valid() && command.MassCancel? && DecideMassCancel(s, command) == Ok(action)
    ensures MassCancelOutcome(s.book, command.accountId, command.scope).Ok?
    ensures action == MassCancelAction(command.accountId, command.scope, MassCancelOutcome(s.book, command.accountId, command.scope).value)
  {
    hide BookModel.Valid, MassCancelOutcome;
  }

  lemma MassCancelDecisionIsSound(s: EngineState, command: CallAuctionCommand, action: PreparedAction)
    requires WellFormedEngine(s) && command.MassCancel? && DecideMassCancel(s, command) == Ok(action)
    ensures SoundAction(s, command, action)
  {
    hide *;
    EngineFacts(s);
    MassCancelDecision(s, command, action);
    MassCancelOutcomeIs(s.book, command.accountId, command.scope);
    MassCancelKeepsValid(s.book, command.accountId, command.scope);
    SelectionFits(s.book, command.accountId, command.scope);
    MassCancelledRules(s.book, command.accountId, command.scope);
    AscendingSelection(s.book, command.accountId, command.scope);
    AscendingSize(AscendingOrders(s.book.active, Selected(s.book, command.accountId, command.scope)), s.book.active, Selected(s.book, command.accountId, command.scope));
    MassCancelIsSound(s, command, command.accountId, command.scope, action.preflight);
  }

  lemma MassCancelledRules(m: BookModel, accountId: AccountId, scope: MassCancelScope)
    requires Selected(m, accountId, scope) != {} ==> m.stateRevision < U64_MAX
    ensures AbstractBook.MassCancelled(m, accountId, scope).limits == m.limits
    ensures AbstractBook.MassCancelled(m, accountId, scope).definition == m.definition
  {
  }

  lemma AscendingSize(s: seq<CallAuctionOrderSnapshot>, active: Ascending.Active, ids: set<OrderId>)
    requires AscendingOf(s, active, ids)
    ensures |s| == |ids|
  {
    assert Gathered(s, active, ids);
    GatheredSize(s, active, ids);
  }

  lemma BandRules(m: BookModel, band: AuctionPriceBand, reference: Price, price: Price)
    requires m.Valid() && m.definition.Valid() && PriceRuleRejection(m.definition, band, reference).None?
    requires Uncross.Grid(m).Valid() && IsCandidate(price, Uncross.Grid(m), band)
    ensures m.definition.ValidatePrice(price).None? && m.definition.ValidatePrice(band.minimum).None?
    ensures m.definition.ValidatePrice(band.maximum).None? && m.definition.ValidatePrice(reference).None?
  {
    hide BookModel.Valid;
  }

  lemma IndicativeIsSound(s: EngineState, command: CallAuctionCommand, state: CallAuctionIndicativeState)
    requires s.book.Valid() && s.book.definition.Valid() && PhaseOk(s.phase) && 2 * s.book.limits.maxActiveOrders + 1 <= s.limits.reportEvents
    requires s.phase.activeAuctionId == Some(state.auctionId) && state.phaseRevision == s.phase.revision
    requires state.bookRevision == s.book.stateRevision && state.IsValidFor(s.book.definition)
    ensures SoundAction(s, command, IndicativeAction(state))
  {
    hide BookModel.Valid, InstrumentDefinition.Valid, CallAuctionIndicativeState.IsValidFor;
  }

  lemma IndicativeDecision(s: EngineState, command: CallAuctionCommand, action: PreparedAction)
    requires s.book.Valid() && s.book.definition.Valid() && command.Indicative? && DecideIndicative(s, command) == Ok(action)
    ensures match IndicativeRejection(s.phase, s.book.definition, command)
            case Some(reason) => action == RejectedAction(reason)
            case None => action == IndicativeAction(CallAuctionIndicativeState(command.auctionId, s.phase.revision, s.book.stateRevision, command.priceBand,
              command.referencePrice, command.pricePolicy, Discovered(s, command.priceBand, command.referencePrice, command.pricePolicy)))
  {
    hide BookModel.Valid, InstrumentDefinition.Valid, IndicativeRejection, BandError, Discovered;
  }

  lemma IndicationAllowed(phase: CallAuctionPhaseSnapshot, definition: InstrumentDefinition, command: CallAuctionCommand)
    requires definition.Valid() && command.Indicative? && PhaseOk(phase) && IndicativeRejection(phase, definition, command).None?
    ensures phase.activeAuctionId == Some(command.auctionId) && phase.revision == command.expectedPhaseRevision && phase.revision >= 1
    ensures PriceRuleRejection(definition, command.priceBand, command.referencePrice).None?
  {
    hide PriceRuleRejection;
  }

  lemma PublishedIsValid(s: EngineState, state: CallAuctionIndicativeState)
    requires s.book.definition.Valid() && state.phaseRevision >= 1
    requires s.book.definition.ValidatePrice(state.priceBand.minimum).None? && s.book.definition.ValidatePrice(state.priceBand.maximum).None?
    requires s.book.definition.ValidatePrice(state.referencePrice).None?
    requires state.clearing.Some? ==>
               && state.clearing.value.executableQuantity > 0 && state.priceBand.minimum <= state.clearing.value.price <= state.priceBand.maximum
               && s.book.definition.ValidatePrice(state.clearing.value.price).None?
    ensures state.IsValidFor(s.book.definition)
  {
    hide InstrumentDefinition.ValidatePrice;
  }

  lemma IndicativeDecisionIsSound(s: EngineState, command: CallAuctionCommand, action: PreparedAction)
    requires WellFormedEngine(s) && command.Indicative? && DecideIndicative(s, command) == Ok(action)
    ensures SoundAction(s, command, action)
  {
    hide *;
    EngineFacts(s);
    IndicativeDecision(s, command, action);
    if IndicativeRejection(s.phase, s.book.definition, command).Some? {
      RejectionIsSound(s, command, action.reason);
    } else {
      var band, reference := command.priceBand, command.referencePrice;
      IndicationAllowed(s.phase, s.book.definition, command);
      DiscoveredClears(s, band, reference, command.pricePolicy);
      var best := Discovered(s, band, reference, command.pricePolicy);
      PriceRules(s.book.definition, band, reference);
      if best.Some? {
        ClearingFacts(s.book, best.value);
        GridIsValid(s.book);
        BandRules(s.book, band, reference, best.value.price);
        CandidateIsInBand(best.value.price, Uncross.Grid(s.book), band);
      }
      PublishedIsValid(s, action.state);
      IndicativeIsSound(s, command, action.state);
    }
  }

  lemma GridIsValid(m: BookModel)
    requires m.definition.Valid()
    ensures Uncross.Grid(m).Valid()
  {
  }

  lemma CandidateIsInBand(price: Price, grid: AuctionPriceGrid, band: AuctionPriceBand)
    requires grid.Valid() && IsCandidate(price, grid, band)
    ensures band.minimum <= price <= band.maximum
  {
  }

  lemma PriceRules(definition: InstrumentDefinition, band: AuctionPriceBand, reference: Price)
    requires definition.Valid() && PriceRuleRejection(definition, band, reference).None?
    ensures definition.ValidatePrice(band.minimum).None? && definition.ValidatePrice(band.maximum).None? && definition.ValidatePrice(reference).None?
  {
  }

  lemma UncrossIsSound(s: EngineState, command: CallAuctionCommand, auctionId: AuctionId, revision: u64, prepared: PreparedCallAuctionUncross)
    requires s.book.Valid() && s.book.definition.Valid() && IsPreparation(s.book, prepared)
    requires TradeIdsFit(s.book, prepared.plan.clearing, prepared.policy.allocation)
    requires var n := Uncrossed(s.book, prepared.plan.clearing, prepared.policy); n.Valid() && n.limits == s.book.limits && n.definition == s.book.definition
    requires |prepared.trades| + |prepared.cancellations| + 1 <= 2 * s.book.limits.maxActiveOrders && PhaseOk(s.phase)
    requires 2 * s.book.limits.maxActiveOrders + 1 <= s.limits.reportEvents
    ensures SoundAction(s, command, UncrossAction(auctionId, revision, prepared))
  {
    hide BookModel.Valid, InstrumentDefinition.Valid, IsPreparation, TradeIdsFit, Uncrossed, ClearsAt;
  }

  /** How an uncross decision was reached. */
  lemma UncrossDecision(s: EngineState, bookInstanceId: nat, leases: usize, command: CallAuctionCommand, action: PreparedAction)
    requires s.book.Valid() && s.book.definition.Valid() && command.Uncross? && DecideUncross(s, bookInstanceId, leases, command) == Ok(action)
    ensures action.RejectedAction? || action.UncrossAction?
    ensures action.UncrossAction? ==>
              && UncrossRejection(s.phase, command).None? && action.auctionId == command.auctionId
              && s.phase.revision < U64_MAX && action.phaseRevision == s.phase.revision + 1
              && Discovered(s, command.priceBand, command.referencePrice, command.pricePolicy).Some?
              && var c := Discovered(s, command.priceBand, command.referencePrice, command.pricePolicy).value;
                 && ClearsAt(s.book, c) && s.book.stateRevision < U64_MAX
                 && PreparationOutcome(s.book, bookInstanceId, c, command.uncrossPolicy) == Ok(action.prepared)
  {
    hide BookModel.Valid, InstrumentDefinition.Valid, UncrossRejection, BandError, Discovered, DecideCrossing, ClearsAt;
    DiscoveredClears(s, command.priceBand, command.referencePrice, command.pricePolicy);
    var best := Discovered(s, command.priceBand, command.referencePrice, command.pricePolicy);
    if best.Some? && DecideCrossing(s, bookInstanceId, leases, command, best.value) == Ok(action) {
      CrossingDecision(s, bookInstanceId, leases, command, best.value, action);
    }
  }

  lemma CrossingDecision(s: EngineState, bookInstanceId: nat, leases: usize, command: CallAuctionCommand, c: AuctionClearing, action: PreparedAction)
    requires command.Uncross? && ClearsAt(s.book, c) && DecideCrossing(s, bookInstanceId, leases, command, c) == Ok(action)
    ensures action == RejectedAction(SelfTradeRefused) || action.UncrossAction?
    ensures action == RejectedAction(SelfTradeRefused) ==> command.uncrossPolicy.selfTrade == Abort
    ensures action.UncrossAction? ==>
              && action.auctionId == command.auctionId && s.phase.revision < U64_MAX && action.phaseRevision == s.phase.revision + 1
              && s.book.stateRevision < U64_MAX && PreparationOutcome(s.book, bookInstanceId, c, command.uncrossPolicy) == Ok(action.prepared)
  {
    hide ClearsAt, SideFills, SideRemainders, PairsOf, PreparedTrades, SelfPairOf;
  }

  lemma FrozenForUncross(phase: CallAuctionPhaseSnapshot, command: CallAuctionCommand)
    requires command.Uncross? && UncrossRejection(phase, command).None?
    ensures phase.phase == Frozen && phase.revision == command.expectedPhaseRevision && phase.activeAuctionId == Some(command.auctionId)
  {
  }

  lemma UncrossDecisionIsSound(s: EngineState, bookInstanceId: nat, leases: usize, command: CallAuctionCommand, action: PreparedAction)
    requires WellFormedEngine(s) && command.Uncross? && DecideUncross(s, bookInstanceId, leases, command) == Ok(action)
    ensures SoundAction(s, command, action)
    ensures action.UncrossAction? ==>
              && s.phase.phase == Frozen && action.phaseRevision == s.phase.revision + 1 && action.auctionId == command.auctionId
              && PreparedFor(s, action.prepared, bookInstanceId, command)
  {
    hide *;
    EngineFacts(s);
    UncrossDecision(s, bookInstanceId, leases, command, action);
    if action.RejectedAction? {
      RejectionIsSound(s, command, action.reason);
    } else {
      var c := Discovered(s, command.priceBand, command.referencePrice, command.pricePolicy).value;
      FrozenForUncross(s.phase, command);
      PreparationShape(s.book, bookInstanceId, c, command.uncrossPolicy, action.prepared);
      UncrossKeepsValid(s.book, c, command.uncrossPolicy);
      UncrossedRules(s.book, c, command.uncrossPolicy);
      PreparedForIs(s, action.prepared, bookInstanceId, command);
      UncrossIsSound(s, command, action.auctionId, action.phaseRevision, action.prepared);
    }
  }

  lemma PreparedForIs(s: EngineState, prepared: PreparedCallAuctionUncross, bookInstanceId: nat, command: CallAuctionCommand)
    requires command.Uncross? && s.book.Valid()
    ensures PreparedFor(s, prepared, bookInstanceId, command) <==>
              && Discovered(s, command.priceBand, command.referencePrice, command.pricePolicy) == Some(prepared.plan.clearing)
              && prepared.policy == command.uncrossPolicy && prepared.bookInstanceId == bookInstanceId && IsPreparation(s.book, prepared)
  {
  }

  /** `prepared` is what this book prepares at the discovered clearing state of the command's band. */
  ghost predicate PreparedFor(s: EngineState, prepared: PreparedCallAuctionUncross, bookInstanceId: nat, command: CallAuctionCommand)
    requires command.Uncross? && s.book.Valid()
  {
    && Discovered(s, command.priceBand, command.referencePrice, command.pricePolicy) == Some(prepared.plan.clearing)
    && prepared.policy == command.uncrossPolicy && prepared.bookInstanceId == bookInstanceId && IsPreparation(s.book, prepared)
  }

  lemma UncrossedRules(m: BookModel, c: AuctionClearing, policy: CallAuctionUncrossPolicy)
    requires ClearsAt(m, c) && m.stateRevision < U64_MAX && TradeIdsFit(m, c, policy.allocation)
    ensures Uncrossed(m, c, policy).limits == m.limits && Uncrossed(m, c, policy).definition == m.definition
  {
    hide ClearsAt, PairsOf;
  }

  /** A successful preparation is current, and its trades and cancellations are bounded by the book. */
  lemma PreparationShape(m: BookModel, bookInstanceId: nat, c: AuctionClearing, policy: CallAuctionUncrossPolicy, t: PreparedCallAuctionUncross)
    requires ClearsAt(m, c) && m.stateRevision < U64_MAX && PreparationOutcome(m, bookInstanceId, c, policy) == Ok(t)
    ensures t.plan.clearing == c && t.policy == policy && t.bookInstanceId == bookInstanceId && IsPreparation(m, t)
    ensures TradeIdsFit(m, c, policy.allocation) && t.nextStateRevision == m.stateRevision + 1
    ensures |t.trades| == |PairsOf(m, c, policy.allocation)|
    ensures |t.cancellations| == |SideRemainders(m, Buy, c, policy)| + |SideRemainders(m, Sell, c, policy)|
    ensures 1 <= |t.trades| && |t.trades| + |t.cancellations| + 1 <= 2 * |m.active|
  {
    hide *;
    TradesAreBounded(m, c, policy);
    OutcomeShape(m, bookInstanceId, c, policy, t);
    PreparedTradeCount(m, c, policy.allocation);
  }

  lemma OutcomeShape(m: BookModel, bookInstanceId: nat, c: AuctionClearing, policy: CallAuctionUncrossPolicy, t: PreparedCallAuctionUncross)
    requires ClearsAt(m, c) && m.stateRevision < U64_MAX && PreparationOutcome(m, bookInstanceId, c, policy) == Ok(t)
    ensures t.plan.clearing == c && t.policy == policy && t.bookInstanceId == bookInstanceId && IsPreparation(m, t)
    ensures TradeIdsFit(m, c, policy.allocation) && t.nextStateRevision == m.stateRevision + 1
    ensures t.trades == PreparedTrades(m, c, policy.allocation)
    ensures t.cancellations == SideRemainders(m, Buy, c, policy) + SideRemainders(m, Sell, c, policy)
  {
    hide ClearsAt, SideFills, SideRemainders, SelfPairOf, PairsOf, PreparedTrades;
  }

  lemma PreparedTradeCount(m: BookModel, c: AuctionClearing, allocation: AuctionAllocationPolicy)
    requires ClearsAt(m, c) && TradeIdsFit(m, c, allocation)
    ensures |PreparedTrades(m, c, allocation)| == |PairsOf(m, c, allocation)|
    ensures forall k {:trigger PreparedTrades(m, c, allocation)[k]} :: 0 <= k < |PreparedTrades(m, c, allocation)| ==>
              PreparedTrades(m, c, allocation)[k].tradeId == m.nextTradeId + k && PreparedTrades(m, c, allocation)[k].price == c.price
  {
    SideFillsAreActive(m, Buy, c, allocation);
    SideFillsAreActive(m, Sell, c, allocation);
    ClearingFacts(m, c);
    hide ClearsAt, SideFills, ActiveFills, RestingOrders, BookModel.Valid, WithinLeaves;
    var buys, sells := SideFills(m, Buy, c, allocation), SideFills(m, Sell, c, allocation);
    PairsAreInRange(Start(buys, sells), buys, sells);
    TradesAreContiguous(m.definition, m.active, c.price, buys, sells, PairsOf(m, c, allocation), m.nextTradeId);
    hide TradesOf, Pairs;
  }
}
