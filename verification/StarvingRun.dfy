/** When the protected event lane holds: for books of three orders at most under every policy, and
    for every larger bound not, by a run that a terminal command of a frozen auction ends. */
module StarvingRun {
  import opened AbstractBook
  import opened Allocation
  import opened Arithmetic
  import opened BookInterest
  import opened Clearing
  import opened Discovery
  import opened Domain
  import opened EngineLaws
  import opened EngineModel
  import opened EngineRuns
  import opened EngineTypes
  import opened MassCancellation
  import opened Pairing
  import opened RunLaws
  import opened Sums
  import opened Uncross
  import opened UncrossLaws

  /** Order bounds whose least event limit leaves room in 64 bits for one event more. */
  ghost predicate Sized(n: nat) {
    4 <= n && 3 * n + 4 <= U64_MAX
  }

  /** One lot per increment, one admissible price. */
  const RULES := InstrumentDefinition(1, 1, 1, 1, 1, 1, 1, U64_MAX)
  const KEEP_REMAINDERS := CallAuctionUncrossPolicy(ProRataTime, RetainAll, Permit)

  ghost function Room(n: nat): CallAuctionBookLimits
    requires n <= U64_MAX
  {
    CallAuctionBookLimits(n, 1, n, 1)
  }

  /** The least limits for `n` orders that leave command slots to spare. */
  ghost function Bounds(n: nat): (limits: CallAuctionEngineLimits)
    requires Sized(n)
    ensures limits.Valid() && limits.book == Room(n)
    ensures limits.OrdinaryCommandCapacity() == n + 1 && limits.OrdinaryEventCapacity() == n + 1
    ensures limits.retainedCommands == 2 * n + 3 && limits.retainedEvents == 3 * n + 3 && limits.reportEvents == 2 * n + 1
  {
    CallAuctionEngineLimits(Room(n), 2 * n + 3, n + 2, 3 * n + 3, 2 * n + 2, 2 * n + 1)
  }

  lemma RulesAreValid()
    ensures RULES.Valid() && RULES.instrumentId == 1 && RULES.version == 1 && RULES.incrementLots == 1 && RULES.tickSize == 1
    ensures forall lots: Quantity :: RULES.ValidateQuantity(lots).None?
    ensures RULES.minimumPrice == 1 && RULES.maximumPrice == 1
  {
  }

  // ----- the orders: `n - 1` buyers of two lots and one seller of `n - 1`

  ghost function SideOf(n: nat, id: OrderId): Side {
    if id < n then Buy else Sell
  }

  ghost function LotsOf(n: nat, id: OrderId): Quantity
    requires 4 <= n <= U64_MAX
  {
    if id < n then 2 else n - 1
  }

  ghost function Command(n: nat, id: OrderId): CallAuctionOrder
    requires 4 <= n <= U64_MAX
  {
    CallAuctionOrder(id, id, 1, 1, SideOf(n, id), AuctionOrderConstraint.Market, LotsOf(n, id), 0)
  }

  ghost function Resting(n: nat, id: OrderId): CallAuctionOrderSnapshot
    requires 4 <= n <= U64_MAX
  {
    CallAuctionOrderSnapshot(id, id, SideOf(n, id), AuctionOrderConstraint.Market, LotsOf(n, id), 0, id)
  }

  /** Identities above `low` and up to `high`. */
  ghost function IdsIn(low: nat, high: nat): (ids: set<OrderId>)
    requires low <= high <= U64_MAX
    ensures |ids| == high - low && forall id: OrderId :: id in ids <==> low < id <= high
    decreases high
  {
    if low == high then {} else
    var last: OrderId := high;
    IdsIn(low, high - 1) + {last}
  }

  ghost function ActiveUpTo(n: nat, k: nat): Active
    requires 4 <= n <= U64_MAX && k <= n
  {
    map id | id in IdsIn(0, k) :: Resting(n, id)
  }

  ghost function BookUpTo(n: nat, k: nat): BookModel
    requires 4 <= n < U64_MAX && k <= n
  {
    BookModel(RULES, Room(n), ActiveUpTo(n, k), IdsIn(0, k), k + 1, 1, k)
  }

  lemma BookUpToIs(n: nat, k: nat)
    requires 4 <= n < U64_MAX && k <= n
    ensures BookUpTo(n, k) == BookModel(RULES, Room(n), ActiveUpTo(n, k), IdsIn(0, k), k + 1, 1, k)
    ensures Room(n) == CallAuctionBookLimits(n, 1, n, 1)
    ensures ActiveUpTo(n, k).Keys == IdsIn(0, k) && |ActiveUpTo(n, k)| == |IdsIn(0, k)| == k
    ensures forall id :: id in ActiveUpTo(n, k) ==> ActiveUpTo(n, k)[id] == Resting(n, id)
    ensures forall id: OrderId :: id in IdsIn(0, k) <==> id <= k
  {
    assert ActiveUpTo(n, k).Keys == IdsIn(0, k);
    assert |ActiveUpTo(n, k)| == |ActiveUpTo(n, k).Keys|;
  }

  lemma NextAdmission(n: nat, k: OrderId)
    requires 4 <= n < U64_MAX && k <= n && RULES.Valid()
    ensures Admission(BookUpTo(n, k - 1), Command(n, k)) == Ok(Resting(n, k))
  {
    hide RULES, InstrumentDefinition.Valid, InstrumentDefinition.ValidateQuantity, BookUpTo, ActiveUpTo, BookModel.LevelPrices, IdsIn;
    RulesAreValid();
    BookUpToIs(n, k - 1);
  }

  lemma IdsGrow(k: OrderId)
    ensures IdsIn(0, k) == IdsIn(0, k - 1) + {k}
  {
    hide IdsIn;
  }

  lemma ActiveGrows(n: nat, k: OrderId)
    requires 4 <= n < U64_MAX && k <= n
    ensures ActiveUpTo(n, k) == ActiveUpTo(n, k - 1)[k := Resting(n, k)]
  {
    hide *;
    BookUpToIs(n, k - 1);
    BookUpToIs(n, k);
    IdsGrow(k);
  }

  lemma NextBook(n: nat, k: OrderId)
    requires 4 <= n < U64_MAX && k <= n && RULES.Valid()
    ensures Admitted(BookUpTo(n, k - 1), Resting(n, k)) == BookUpTo(n, k)
  {
    hide ActiveUpTo, IdsIn, RULES;
    IdsGrow(k);
    ActiveGrows(n, k);
  }

  lemma RestingIs(n: nat, id: OrderId)
    requires 4 <= n <= U64_MAX
    ensures Resting(n, id) == CallAuctionOrderSnapshot(id, id, SideOf(n, id), AuctionOrderConstraint.Market, LotsOf(n, id), 0, id)
    ensures SideOf(n, id) == (if id < n then Buy else Sell) && LotsOf(n, id) == if id < n then 2 else n - 1
  {
  }

  // ----- the steps of a run

  ghost predicate Fresh(history: History, used: nat) {
    forall id: CommandId :: id > used ==> Retained(history, id).None?
  }

  /** A state of the run: how much history and how many events it has used. */
  ghost predicate Stage(s: EngineState, n: nat, commands: nat, events: nat) {
    && Sized(n) && WellFormedEngine(s) && s.limits == Bounds(n) && s.book.definition == RULES
    && |s.history| == commands && |s.events| == events && Fresh(s.history, commands)
  }

  lemma StageFacts(s: EngineState, n: nat, commands: nat, events: nat)
    requires Stage(s, n, commands, events)
    ensures Sized(n) && WellFormedEngine(s) && s.limits == Bounds(n) && s.book.definition == RULES && s.book.Valid() && s.limits.Valid()
    ensures |s.history| == commands && |s.events| == events
    ensures forall id: CommandId :: id > commands ==> Retained(s.history, id).None?
    ensures s.nextCommandSequence == commands + 1 && s.nextEventSequence == events + 1 && s.book.definition.Valid()
  {
    EngineFacts(s);
  }

  ghost function At(command: CallAuctionCommand): Input {
    Input(command, None, 0, 1)
  }

  lemma StepCommits(s: EngineState, input: Input, action: PreparedAction)
    requires WellFormedEngine(s) && s.book.Valid() && s.limits.Valid() && input.external.None?
    requires Retained(s.history, input.command.commandId).None? && CapacityError(s, action).None?
    requires Decide(s, input.bookInstanceId, input.leases, input.command) == Ok(action)
    ensures StepAction(s, input) == Some(action)
  {
    hide WellFormedEngine, BookModel.Valid, CallAuctionEngineLimits.Valid, Retained, CapacityError, Decide;
  }

  /** A decided action with room for it moves the run on by one command. */
  lemma MovesOn(s: EngineState, n: nat, commands: nat, events: nat, command: CallAuctionCommand, action: PreparedAction)
    requires Stage(s, n, commands, events) && s.book.Valid() && s.limits.Valid() && command.commandId == commands + 1
    requires Decide(s, 0, 1, command) == Ok(action) && CapacityError(s, action).None?
    ensures WellFormedEngine(s) && Applicable(s.book, action)
    ensures var t := Step(s, At(command)).0;
            && Stage(t, n, commands + 1, events + MaximumEvents(action))
            && t.book == BookAfter(s.book, action) && t.phase == PhaseAfter(s.phase, action)
  {
    hide *;
    StageFacts(s, n, commands, events);
    AtIs(command);
    StepCommits(s, At(command), action);
    StepIs(s, At(command));
    CommittedIs(s, command, action);
    CommittableFacts(s, command, action);
    var t := Step(s, At(command)).0;
    var entry := CallAuctionHistoryEntry(command, ReportOf(s, command, action));
    forall id: CommandId | id > commands + 1 ensures Retained(t.history, id).None? {
      RetainedGrows(s.history, entry, id);
    }
    StageIs(t, n, commands + 1, events + MaximumEvents(action));
  }

  lemma AtIs(command: CallAuctionCommand)
    ensures At(command) == Input(command, None, 0, 1)
  {
  }

  lemma StageIs(s: EngineState, n: nat, commands: nat, events: nat)
    requires Sized(n) && WellFormedEngine(s) && s.limits == Bounds(n) && s.book.definition == RULES
    requires |s.history| == commands && |s.events| == events
    requires forall id: CommandId :: id > commands ==> Retained(s.history, id).None?
    ensures Stage(s, n, commands, events)
  {
    hide WellFormedEngine;
  }

  /** When an action of the run has room, and when it finds the event lane used up. */
  lemma RoomIs(s: EngineState, n: nat, commands: nat, events: nat, action: PreparedAction)
    requires Stage(s, n, commands, events) && MaximumEvents(action) <= 2 * n + 1 && s.limits.Valid() && commands < 2 * n + 3
    ensures (commands < n + 1 || IsTerminal(action)) && events + MaximumEvents(action) <= (if IsTerminal(action) then 3 * n + 3 else n + 1) ==>
              CapacityError(s, action).None?
    ensures IsTerminal(action) && 3 * n + 3 < events + MaximumEvents(action) <= U64_MAX ==> CapacityError(s, action) == Some(CapacityExhausted(RetainedEvents))
  {
    hide *;
    StageFacts(s, n, commands, events);
    SizedIs(n);
    CapacityErrorIs(s, action);
  }

  lemma CapacityErrorIs(s: EngineState, action: PreparedAction)
    requires s.limits.Valid()
    ensures CapacityError(s, action) ==
              var final := |s.events| + MaximumEvents(action);
              if |s.history| >= s.limits.retainedCommands then Some(CapacityExhausted(CommandHistory))
              else if |s.history| >= s.limits.OrdinaryCommandCapacity() && !IsTerminal(action) then Some(CapacityExhausted(AdmissionCommandHistory))
              else if MaximumEvents(action) > s.limits.reportEvents then Some(CapacityExhausted(ReportEvents))
              else if final > U64_MAX then Some(SequenceExhausted)
              else if final > s.limits.retainedEvents then Some(CapacityExhausted(RetainedEvents))
              else if final > s.limits.OrdinaryEventCapacity() && !IsTerminal(action) then Some(CapacityExhausted(AdmissionEventHistory))
              else if s.nextCommandSequence == U64_MAX || s.nextEventSequence + MaximumEvents(action) > U64_MAX then Some(SequenceExhausted)
              else None
  {
  }

  lemma {:induction false} RunExtends(s: EngineState, inputs: seq<Input>, input: Input)
    requires WellFormedEngine(s)
    ensures Run(s, inputs + [input]) == Step(Run(s, inputs), input).0
  {
    hide Step, WellFormedEngine;
    assert (inputs + [input])[..|inputs|] == inputs;
  }

  // ----- collecting the orders

  const COLLECTING := CallAuctionPhaseSnapshot(Collecting, 1, Some(1), Some(1))
  const FROZEN := CallAuctionPhaseSnapshot(Frozen, 2, Some(1), Some(1))

  ghost function Moving(id: CommandId, revision: u64, target: CallAuctionPhase): CallAuctionCommand {
    PhaseControl(id, 1, 1, 1, revision, target, 0)
  }

  ghost function Submitting(n: nat, k: OrderId): CallAuctionCommand
    requires 4 <= n <= U64_MAX && k < U64_MAX
  {
    Submit(k + 1, 1, 1, Command(n, k), 0)
  }

  /** Opens the cycle and submits the first `k` orders. */
  ghost function Entering(n: nat, k: nat): seq<Input>
    requires Sized(n) && k <= n
  {
    if k == 0 then [At(Moving(1, 0, Collecting))] else Entering(n, k - 1) + [At(Submitting(n, k))]
  }

  lemma Opens(n: nat)
    requires Sized(n) && RULES.Valid()
    ensures var s := Run(Genesis(RULES, Bounds(n)), Entering(n, 0));
            Stage(s, n, 1, 1) && s.book == BookUpTo(n, 0) && s.phase == COLLECTING
  {
    hide *;
    var genesis := Genesis(RULES, Bounds(n));
    GenesisStage(n);
    var command := Moving(1, 0, Collecting);
    var action := PhaseTransition(GENESIS_PHASE, COLLECTING);
    StageFacts(genesis, n, 0, 0);
    OpeningDecision(genesis);
    PhaseCosts(GENESIS_PHASE, COLLECTING);
    SizedIs(n);
    RoomIs(genesis, n, 0, 0, action);
    MovingIs(1, 0, Collecting);
    MovesOn(genesis, n, 0, 0, command, action);
    PhaseMoves(genesis, action);
    EnteringIs(n, 0);
    RunExtends(genesis, [], At(command));
    RunNothing(genesis);
    assert [] + [At(command)] == [At(command)];
  }

  lemma RunNothing(s: EngineState)
    requires WellFormedEngine(s)
    ensures Run(s, []) == s
  {
  }

  lemma MovingIs(id: CommandId, revision: u64, target: CallAuctionPhase)
    ensures Moving(id, revision, target) == PhaseControl(id, 1, 1, 1, revision, target, 0)
  {
  }

  lemma SizedIs(n: nat)
    ensures Sized(n) <==> 4 <= n && 3 * n + 4 <= U64_MAX
    ensures Sized(n) ==> 3 * n + 6 <= U64_MAX
  {
  }

  lemma EnteringIs(n: nat, k: nat)
    requires Sized(n) && k <= n
    ensures Entering(n, k) == if k == 0 then [At(Moving(1, 0, Collecting))] else Entering(n, k - 1) + [At(Submitting(n, k))]
  {
  }

  lemma GenesisStage(n: nat)
    requires Sized(n) && RULES.Valid()
    ensures var s := Genesis(RULES, Bounds(n));
            Stage(s, n, 0, 0) && s.book == BookUpTo(n, 0) && s.phase == GENESIS_PHASE
  {
    hide RULES, InstrumentDefinition.Valid, CallAuctionEngineLimits.Valid, WellFormedEngine;
    var s := Genesis(RULES, Bounds(n));
    BookUpToIs(n, 0);
    assert ActiveUpTo(n, 0) == map[] && IdsIn(0, 0) == {};
  }

  lemma OpeningDecision(s: EngineState)
    requires s.book.Valid() && s.book.definition == RULES && s.phase == GENESIS_PHASE
    ensures Decide(s, 0, 1, Moving(1, 0, Collecting)) == Ok(PhaseTransition(GENESIS_PHASE, COLLECTING))
  {
    hide BookModel.Valid;
  }

  lemma PhaseCosts(source: CallAuctionPhaseSnapshot, resulting: CallAuctionPhaseSnapshot)
    ensures MaximumEvents(PhaseTransition(source, resulting)) == 1
    ensures IsTerminal(PhaseTransition(source, resulting)) <==> resulting.phase != Collecting
  {
  }

  lemma PhaseMoves(s: EngineState, action: PreparedAction)
    requires action.PhaseTransition? && Applicable(s.book, action)
    ensures BookAfter(s.book, action) == s.book && PhaseAfter(s.phase, action) == action.resulting
  {
  }

  lemma SubmitDecision(s: EngineState, n: nat, k: OrderId)
    requires Sized(n) && k <= n && s.book.Valid() && s.book.definition == RULES && s.phase == COLLECTING
    requires RULES.Valid() && Admission(s.book, Command(n, k)) == Ok(Resting(n, k))
    ensures Decide(s, 0, 1, Submitting(n, k)) == Ok(SubmitAction(Resting(n, k)))
  {
    hide BookModel.Valid, Admission, InstrumentDefinition.Valid;
  }

  lemma SubmitEffect(s: EngineState, n: nat, k: OrderId)
    requires 4 <= n <= U64_MAX
    ensures MaximumEvents(SubmitAction(Resting(n, k))) == 1 && !IsTerminal(SubmitAction(Resting(n, k)))
    ensures Applicable(s.book, SubmitAction(Resting(n, k))) ==>
              && s.book.nextPrioritySequence < U64_MAX && s.book.stateRevision < U64_MAX
              && BookAfter(s.book, SubmitAction(Resting(n, k))) == Admitted(s.book, Resting(n, k))
              && PhaseAfter(s.phase, SubmitAction(Resting(n, k))) == s.phase
  {
  }

  /** After `k` submissions the run has used `k + 1` commands and as many events, and the book holds
      the first `k` orders. */
  lemma {:induction false} Enters(n: nat, k: nat)
    requires Sized(n) && k <= n && RULES.Valid()
    ensures var s := Run(Genesis(RULES, Bounds(n)), Entering(n, k));
            Stage(s, n, k + 1, k + 1) && s.book == BookUpTo(n, k) && s.phase == COLLECTING
  {
    hide *;
    if k == 0 {
      Opens(n);
    } else {
      Enters(n, k - 1);
      var genesis := Genesis(RULES, Bounds(n));
      var s := Run(genesis, Entering(n, k - 1));
      SizedIs(n);
      StageFacts(s, n, k, k);
      NextAdmission(n, k);
      NextBook(n, k);
      SubmitDecision(s, n, k);
      SubmitEffect(s, n, k);
      var action := SubmitAction(Resting(n, k));
      RoomIs(s, n, k, k, action);
      SubmittingIs(n, k);
      MovesOn(s, n, k, k, Submitting(n, k), action);
      EnteringIs(n, k);
      RunExtends(genesis, Entering(n, k - 1), At(Submitting(n, k)));
    }
  }

  lemma SubmittingIs(n: nat, k: OrderId)
    requires 4 <= n <= U64_MAX && k < U64_MAX
    ensures Submitting(n, k) == Submit(k + 1, 1, 1, Command(n, k), 0)
  {
  }

  // ----- the crossing: one trade per buyer, and only the seller fills

  ghost function Buyers(n: nat): (orders: seq<AuctionOrder>)
    requires 4 <= n <= U64_MAX
    ensures |orders| == n - 1
    ensures forall i {:trigger orders[i]} :: 0 <= i < n - 1 ==> orders[i] == AuctionOrder(i + 1, AuctionOrderConstraint.Market, 2, 0, i + 1)
  {
    seq(n - 1, i requires 0 <= i < n - 1 => AuctionOrder(i + 1, AuctionOrderConstraint.Market, 2, 0, i + 1))
  }

  ghost function Sellers(n: nat): (orders: seq<AuctionOrder>)
    requires 4 <= n <= U64_MAX
    ensures |orders| == 1 && orders[0] == AuctionOrder(n, AuctionOrderConstraint.Market, n - 1, 0, n)
  {
    [AuctionOrder(n, AuctionOrderConstraint.Market, n - 1, 0, n)]
  }

  lemma BuyersAreListed(n: nat)
    requires 4 <= n < U64_MAX
    ensures SideIds(ActiveUpTo(n, n), Buy) == IdsIn(0, n - 1)
    ensures Lists(Buyers(n), ActiveUpTo(n, n), SideIds(ActiveUpTo(n, n), Buy), Buy)
  {
    hide ActiveUpTo, Buyers, BookUpTo, IdsIn;
    BookUpToIs(n, n);
    var orders, active := Buyers(n), ActiveUpTo(n, n);
    forall id: OrderId | id <= n - 1 ensures id in Ids(orders) {
      assert orders[id - 1].orderId == id;
    }
    assert Ids(orders) == IdsIn(0, n - 1);
  }

  lemma SellersAreListed(n: nat)
    requires 4 <= n < U64_MAX
    ensures Lists(Sellers(n), ActiveUpTo(n, n), SideIds(ActiveUpTo(n, n), Sell), Sell)
  {
    hide ActiveUpTo, Sellers, BookUpTo, IdsIn;
    BookUpToIs(n, n);
    var orders, active := Sellers(n), ActiveUpTo(n, n);
    var last: OrderId := n;
    assert SideIds(active, Sell) == {last};
    assert Ids(orders) == {last} by { assert orders[0].orderId in Ids(orders); }
  }

  lemma SidesAre(m: BookModel, n: nat)
    requires 4 <= n < U64_MAX && m.Valid() && m.active == ActiveUpTo(n, n)
    ensures SideOrders(m.active, Buy) == Buyers(n) && SideOrders(m.active, Sell) == Sellers(n)
  {
    hide *;
    SideIsListed(m, Buy);
    SideIsListed(m, Sell);
    BuyersAreListed(n);
    SellersAreListed(n);
    ListIsUnique(SideOrders(m.active, Buy), Buyers(n), m.active, SideIds(m.active, Buy), Buy);
    ListIsUnique(SideOrders(m.active, Sell), Sellers(n), m.active, SideIds(m.active, Sell), Sell);
  }

  lemma {:induction false} BuyersAddUp(n: nat, k: nat)
    requires 4 <= n <= U64_MAX && k <= n - 1
    ensures EligibleCum(Buyers(n), Buy, 1, k) == 2 * k && Cum(Buyers(n), k) == 2 * k
  {
    hide Buyers;
    if k > 0 { BuyersAddUp(n, k - 1); }
  }

  lemma SellersAddUp(n: nat)
    requires 4 <= n <= U64_MAX
    ensures EligibleQuantity(Sellers(n), Sell, 1) == n - 1
  {
    hide Sellers;
    assert EligibleCum(Sellers(n), Sell, 1, 0) == 0;
  }

  ghost function State(n: nat): AuctionClearing
    requires 4 <= n < U64_MAX
  {
    FromQuantities(1, 2 * (n - 1), n - 1)
  }

  lemma StateIs(n: nat)
    requires 4 <= n < U64_MAX
    ensures State(n) == FromQuantities(1, 2 * (n - 1), n - 1)
    ensures State(n).price == 1 && State(n).executableQuantity == n - 1 && WellFormed(State(n))
  {
  }

  /** At the one price twice the seller's lots are wanted. */
  lemma Clears(m: BookModel, n: nat)
    requires 4 <= n < U64_MAX && m.Valid() && m.active == ActiveUpTo(n, n) && m.definition == RULES
    ensures Fits(m.active) && BookState(m.active, 1) == State(n) && ClearsAt(m, State(n))
  {
    hide *;
    StateIs(n);
    var price := State(n).price;
    BuyersAreListed(n);
    SellersAreListed(n);
    ListInterest(Buyers(n), m.active, Buy, price);
    ListInterest(Sellers(n), m.active, Sell, price);
    BuyersAddUp(n, n - 1);
    SellersAddUp(n);
    InterestFits(m);
    EligibleIs(Buyers(n));
    BookStateIs(m);
  }

  lemma EligibleIs(orders: seq<AuctionOrder>)
    ensures EligibleQuantity(orders, Buy, 1) == EligibleCum(orders, Buy, 1, |orders|)
  {
  }

  lemma BookStateIs(m: BookModel)
    requires m.Valid() && Fits(m.active) && m.definition == RULES
    ensures BookState(m.active, 1) == FromQuantities(1, Interest(m.active, Buy, 1), Interest(m.active, Sell, 1))
    ensures BookState(m.active, 1).executableQuantity > 0 ==> ClearsAt(m, BookState(m.active, 1))
  {
    hide BookModel.Valid, Fits, Interest;
  }

  lemma TierIs(n: nat)
    requires 4 <= n <= U64_MAX
    ensures ProRataSplit(Buyers(n), Buy, 1, 0, n - 1) == Split(0, n - 1, n - 1)
  {
    hide Buyers;
    BuyersAddUp(n, n - 1);
    var orders := Buyers(n);
    var end := TierEnd(orders, orders[0], Buy, 1, 1);
    assert end == n - 1;
    assert Cum(orders, 0) == 0;
  }

  lemma {:induction false} SumOfTwos(s: seq<nat>)
    requires forall i :: 0 <= i < |s| ==> s[i] == 2
    ensures Sum(s) == 2 * |s|
  {
    if s != [] { SumOfTwos(s[1..]); }
  }

  /** Positive numbers that add up to their count are all one. */
  lemma {:induction false} AllOnes(s: seq<nat>)
    requires forall i :: 0 <= i < |s| ==> s[i] >= 1
    ensures Sum(s) >= |s|
    ensures Sum(s) == |s| ==> forall i {:trigger s[i]} :: 0 <= i < |s| ==> s[i] == 1
  {
    if s != [] {
      AllOnes(s[1..]);
      if Sum(s) == |s| {
        forall i | 0 <= i < |s| ensures s[i] == 1 {
          if i > 0 { assert s[1..][i - 1] == s[i]; }
        }
      }
    }
  }

  lemma HalfShare(count: nat)
    requires count > 0
    ensures 2 * count / (2 * count) == 1 && Quotient(count, 1) == count
  {
  }

  /** One lot each. */
  lemma BuyerShares(n: nat, shares: seq<nat>)
    requires 4 <= n <= U64_MAX && ProRataExact(shares, Buyers(n), n - 1, 1, Split(0, n - 1, n - 1))
    ensures |shares| == n - 1 && forall i {:trigger shares[i]} :: 0 <= i < n - 1 ==> shares[i] == 1
  {
    hide Buyers, Cum, OneTier, Residual, Quantities, Quotient, Sum;
    var orders, quanta := Buyers(n), Quanta(Buyers(n), 1);
    assert shares[0..n - 1] == shares && orders[0..n - 1] == orders;
    HalfShare(2);
    HalfShare(n - 1);
    assert forall i :: 0 <= i < n - 1 ==> Quotient(orders[i].quantity, 1) == 2;
    SumOfTwos(quanta);
    assert MarginalExact(shares, orders, n - 1, 1);
    forall i | 0 <= i < n - 1 ensures shares[i] >= 1 {
      assert quanta[i] * (n - 1) / Sum(quanta) == 1;
    }
    AllOnes(shares);
  }

  lemma SellerShares(n: nat, shares: seq<nat>)
    requires 4 <= n <= U64_MAX && IsAllocation(shares, Sellers(n), Sell, 1, n - 1)
    ensures shares == [n - 1]
  {
    hide Sellers;
    assert shares[1..] == [] && Sum(shares) == shares[0] + Sum(shares[1..]);
  }

  lemma SharesAre(m: BookModel, n: nat)
    requires 4 <= n < U64_MAX && m.Valid() && m.active == ActiveUpTo(n, n) && m.definition == RULES && m.limits == Room(n)
    ensures ClearsAt(m, State(n)) && m.definition.Valid()
    ensures SideShares(m, Sell, State(n), ProRataTime) == [n - 1]
    ensures var shares := SideShares(m, Buy, State(n), ProRataTime);
            |shares| == n - 1 && forall i {:trigger shares[i]} :: 0 <= i < n - 1 ==> shares[i] == 1
  {
    hide *;
    var c := State(n);
    StateIs(n);
    RulesAreValid();
    Clears(m, n);
    SidesAre(m, n);
    BookAllocates(m, c, ProRataTime);
    SellerShares(n, SideShares(m, Sell, c, ProRataTime));
    GridIsValid(m);
    CanAllocateIsReady(Buyers(n), Sellers(n), Grid(m), c, ProRataTime, 1, m.limits.maxActiveOrders);
    ProRataIsExact(Buyers(n), Buy, 1, n - 1, 1);
    TierIs(n);
    SharesForIs(m, n);
    BuyerShares(n, SideShares(m, Buy, c, ProRataTime));
  }

  lemma SharesForIs(m: BookModel, n: nat)
    requires 4 <= n < U64_MAX && m.definition.Valid() && m.definition.incrementLots == 1 && SideOrders(m.active, Buy) == Buyers(n)
    ensures SideShares(m, Buy, State(n), ProRataTime) == ProRataShares(Buyers(n), Buy, 1, n - 1, 1)
  {
    hide Buyers, SideOrders, ProRataShares, InstrumentDefinition.Valid;
  }

  /** Every fill of the longer list is in a pair of its own. */
  lemma {:induction false} EveryBuyIsPaired(c: Cursor, buys: Fills, sells: Fills)
    requires Balanced(c, buys, sells)
    ensures c.buy + |PairsFrom(c, buys, sells)| >= |buys|
    decreases Steps(c, buys, sells)
  {
    if Live(c, buys, sells) {
      AdvanceKeepsBalance(c, buys, sells);
      EveryBuyIsPaired(Advance(c, buys, sells), buys, sells);
    } else {
      BalancedStop(c, buys, sells);
    }
  }

  lemma PairsAreCounted(buys: Fills, sells: Fills)
    requires LotsFrom(buys, 0) == LotsFrom(sells, 0) && buys != [] && |sells| == 1
    ensures |Pairs(buys, sells)| == |buys|
  {
    StartIsBalanced(buys, sells);
    EveryBuyIsPaired(Pairing.Start(buys, sells), buys, sells);
    PairingConserves(buys, sells, 1);
  }

  lemma {:induction false} FillsAreCounted(orders: seq<AuctionOrder>, shares: seq<nat>, k: nat)
    requires k <= |orders| && WithinLeaves(shares, orders) && forall i {:trigger shares[i]} :: 0 <= i < |shares| ==> shares[i] > 0
    ensures |FillsOf(orders, shares, k)| == k
  {
    if k > 0 { FillsAreCounted(orders, shares, k - 1); }
  }

  lemma {:induction false} NothingIsCancelled(active: Active, orders: seq<AuctionOrder>, shares: seq<nat>, k: nat)
    requires k <= |orders| && WithinLeaves(shares, orders) && RestingOrders(active, orders)
    ensures Remainders(active, orders, shares, RetainAll, k) == []
  {
    if k > 0 { NothingIsCancelled(active, orders, shares, k - 1); }
  }

  lemma SideCrosses(m: BookModel, side: Side, c: AuctionClearing)
    requires ClearsAt(m, c) && m.definition.Valid()
    requires forall i {:trigger SideShares(m, side, c, ProRataTime)[i]} :: 0 <= i < |SideShares(m, side, c, ProRataTime)| ==> SideShares(m, side, c, ProRataTime)[i] > 0
    ensures |SideFills(m, side, c, ProRataTime)| == |SideOrders(m.active, side)|
    ensures SideRemainders(m, side, c, KEEP_REMAINDERS) == []
  {
    hide ClearsAt, SideShares, SideOrders, FillsOf, Remainders, ActiveFills, RestingOrders, WithinLeaves;
    SideFillsAreActive(m, side, c, ProRataTime);
    FillsAreCounted(SideOrders(m.active, side), SideShares(m, side, c, ProRataTime), |SideOrders(m.active, side)|);
    NothingIsCancelled(m.active, SideOrders(m.active, side), SideShares(m, side, c, ProRataTime), |SideOrders(m.active, side)|);
  }

  /** The crossing makes one trade per buyer and cancels nothing. */
  lemma CrossingIs(m: BookModel, n: nat)
    requires 4 <= n < U64_MAX && m.Valid() && m.active == ActiveUpTo(n, n) && m.definition == RULES && m.limits == Room(n)
    ensures ClearsAt(m, State(n)) && |PairsOf(m, State(n), ProRataTime)| == n - 1
    ensures SideRemainders(m, Buy, State(n), KEEP_REMAINDERS) == [] && SideRemainders(m, Sell, State(n), KEEP_REMAINDERS) == []
  {
    hide *;
    var c := State(n);
    SharesAre(m, n);
    SidesAre(m, n);
    SideCrosses(m, Buy, c);
    SideCrosses(m, Sell, c);
    SideFillsAreActive(m, Buy, c, ProRataTime);
    SideFillsAreActive(m, Sell, c, ProRataTime);
    PairsAreCounted(SideFills(m, Buy, c, ProRataTime), SideFills(m, Sell, c, ProRataTime));
    PairsOfIs(m, c);
  }

  lemma PairsOfIs(m: BookModel, c: AuctionClearing)
    requires ClearsAt(m, c)
    ensures PairsOf(m, c, ProRataTime) == Pairs(SideFills(m, Buy, c, ProRataTime), SideFills(m, Sell, c, ProRataTime))
  {
    hide ClearsAt, SideFills, Pairs;
  }

  /** Every buyer keeps a lot; the seller is gone. */
  lemma Remaining(m: BookModel, n: nat, id: OrderId)
    requires 4 <= n < U64_MAX && m.Valid() && m.active == ActiveUpTo(n, n) && m.definition == RULES && m.limits == Room(n)
    ensures ClearsAt(m, State(n))
    ensures var after := ActiveAfter(m, State(n), KEEP_REMAINDERS);
            && (id in after <==> id < n)
            && (id in after ==> after[id].accountId == id)
  {
    hide *;
    var c := State(n);
    BookUpToIs(n, n);
    SharesAre(m, n);
    SidesAre(m, n);
    RemainingOrder(m, c, KEEP_REMAINDERS, id);
    KeepsIs(m, c, id);
    if id in m.active {
      RestingIs(n, id);
      ExecutedIsShare(m, c, ProRataTime, id);
    }
  }

  lemma KeepsIs(m: BookModel, c: AuctionClearing, id: OrderId)
    requires ClearsAt(m, c)
    ensures KEEP_REMAINDERS.allocation == ProRataTime
    ensures id in m.active ==> (Remains(m, c, KEEP_REMAINDERS, id) <==> Executed(m, c, ProRataTime, id) < m.active[id].quantity)
  {
    hide ClearsAt, Executed;
  }

  // ----- freezing and uncrossing

  const BAND := AuctionPriceBand(1, 1)
  const POLICY := AuctionPricePolicy(Ignore, LowerPrice)

  ghost function Crossing(n: nat): CallAuctionCommand
    requires Sized(n)
  {
    Uncross(n + 3, 1, 1, 1, 2, BAND, 1, POLICY, KEEP_REMAINDERS, 0)
  }

  lemma FreezeDecision(s: EngineState, id: CommandId)
    requires s.book.Valid() && s.book.definition == RULES && s.phase == COLLECTING
    ensures Decide(s, 0, 1, Moving(id, 1, Frozen)) == Ok(PhaseTransition(COLLECTING, FROZEN))
  {
    hide BookModel.Valid;
  }

  lemma Freezes(n: nat)
    requires Sized(n) && RULES.Valid()
    ensures var s := Run(Genesis(RULES, Bounds(n)), Entering(n, n) + [At(Moving(n + 2, 1, Frozen))]);
            Stage(s, n, n + 2, n + 2) && s.book == BookUpTo(n, n) && s.phase == FROZEN
  {
    hide *;
    Enters(n, n);
    SizedIs(n);
    var genesis := Genesis(RULES, Bounds(n));
    var s := Run(genesis, Entering(n, n));
    var command, action := Moving(n + 2, 1, Frozen), PhaseTransition(COLLECTING, FROZEN);
    StageFacts(s, n, n + 1, n + 1);
    FreezeDecision(s, n + 2);
    PhaseCosts(COLLECTING, FROZEN);
    PhasesAre();
    RoomIs(s, n, n + 1, n + 1, action);
    MovingIs(n + 2, 1, Frozen);
    MovesOn(s, n, n + 1, n + 1, command, action);
    PhaseMoves(s, action);
    RunExtends(genesis, Entering(n, n), At(command));
  }

  lemma PhasesAre()
    ensures COLLECTING.phase == Collecting && FROZEN.phase == Frozen
  {
  }

  /** Over a band of one price discovery can only find the state at that price. */
  lemma DiscoveryIs(s: EngineState, n: nat)
    requires Sized(n) && s.book.Valid() && s.book.active == ActiveUpTo(n, n) && s.book.definition == RULES
    ensures Discovered(s, BAND, 1, POLICY) == Some(State(n))
  {
    Clears(s.book, n);
    StateIs(n);
    InterestFits(s.book);
    hide BookModel.Valid, Fits, BookState, State, ActiveUpTo;
    var best := Discovered(s, BAND, 1, POLICY);
    assert IsBookDiscovery(best, s.book.active, Uncross.Grid(s.book), BAND, 1, POLICY);
    assert IsCandidate(1, Uncross.Grid(s.book), BAND);
    hide IsBetterThan;
    assert best.Some?;
  }

  lemma UncrossIsDecided(s: EngineState, n: nat) returns (action: PreparedAction)
    requires Sized(n) && s.book.Valid() && s.phase == FROZEN && s.book.definition.Valid()
    requires s.book == BookUpTo(n, n) && Discovered(s, BAND, 1, POLICY) == Some(State(n))
    requires ClearsAt(s.book, State(n)) && TradeIdsFit(s.book, State(n), ProRataTime)
    ensures Decide(s, 0, 1, Crossing(n)) == Ok(action) && action.UncrossAction?
  {
    hide BookModel.Valid, InstrumentDefinition.Valid, Discovered, ClearsAt, TradeIdsFit, State, SideFills, SideRemainders, PairsOf, PreparedTrades, SelfPairOf, ActiveUpTo, IdsIn;
    var m, c := s.book, State(n);
    action := UncrossAction(1, 3, PreparationOutcome(m, 0, c, KEEP_REMAINDERS).value);
  }

  /** After the crossing and `j` mass cancellations the buyers above `j` are left. */
  ghost predicate Winding(s: EngineState, n: nat, j: nat) {
    && Stage(s, n, n + 3 + j, 2 * n + 2 + 2 * j) && s.book.stateRevision == n + 1 + j
    && (forall id: OrderId :: id in s.book.active <==> j < id < n)
    && forall id: OrderId :: id in s.book.active ==> s.book.active[id].accountId == id
  }

  /** The crossing, and then one mass cancellation for each of the first `j` buyers. */
  ghost function Winds(n: nat, j: nat): seq<Input>
    requires Sized(n) && j < n
  {
    if j == 0 then Entering(n, n) + [At(Moving(n + 2, 1, Frozen))] + [At(Crossing(n))] else Winds(n, j - 1) + [At(Cancelling(n, j))]
  }

  ghost function Cancelling(n: nat, id: AccountId): CallAuctionCommand
    requires Sized(n) && id < n
  {
    MassCancel(n + 3 + id, 1, 1, id, All, 0)
  }

  lemma CrossingCommandIs(n: nat)
    requires Sized(n)
    ensures Crossing(n) == Uncross(n + 3, 1, 1, 1, 2, BAND, 1, POLICY, KEEP_REMAINDERS, 0)
  {
  }

  lemma WindsIs(n: nat, j: nat)
    requires Sized(n) && j < n
    ensures Winds(n, j) ==
              if j == 0 then Entering(n, n) + [At(Moving(n + 2, 1, Frozen))] + [At(Crossing(n))] else Winds(n, j - 1) + [At(Cancelling(n, j))]
  {
  }

  lemma CancellingIs(n: nat, id: AccountId)
    requires Sized(n) && id < n
    ensures Cancelling(n, id) == MassCancel(n + 3 + id, 1, 1, id, All, 0)
  {
  }

  /** What the crossing costs and leaves. */
  lemma CrossingEffect(s: EngineState, n: nat, action: PreparedAction)
    requires Sized(n) && WellFormedEngine(s) && s.book.Valid() && s.book == BookUpTo(n, n) && Decide(s, 0, 1, Crossing(n)) == Ok(action) && action.UncrossAction?
    requires Discovered(s, BAND, 1, POLICY) == Some(State(n))
    ensures MaximumEvents(action) == n && IsTerminal(action)
    ensures Applicable(s.book, action)
    ensures ClearsAt(s.book, State(n)) && BookAfter(s.book, action).active == ActiveAfter(s.book, State(n), KEEP_REMAINDERS)
    ensures BookAfter(s.book, action).stateRevision == s.book.stateRevision + 1
  {
    hide *;
    SizedIs(n);
    var m, c := s.book, State(n);
    EngineFacts(s);
    BookUpToIs(n, n);
    CrossingIs(m, n);
    KeepsIs(m, c, 1);
    CrossingCommandIs(n);
    UncrossIsRouted(s, Crossing(n), action);
    UncrossDecision(s, 0, 1, Crossing(n), action);
    PreparationShape(m, 0, c, KEEP_REMAINDERS, action.prepared);
    UncrossEffect(m, c, action);
  }

  lemma UncrossIsRouted(s: EngineState, command: CallAuctionCommand, action: PreparedAction)
    requires s.book.Valid() && command.Uncross? && Decide(s, 0, 1, command) == Ok(action) && action.UncrossAction?
    ensures DecideUncross(s, 0, 1, command) == Ok(action)
  {
    hide BookModel.Valid, DecideUncross;
  }

  lemma UncrossEffect(m: BookModel, c: AuctionClearing, action: PreparedAction)
    requires ClearsAt(m, c) && m.stateRevision < U64_MAX && action.UncrossAction? && IsPreparation(m, action.prepared)
    requires action.prepared.plan.clearing == c && action.prepared.policy == KEEP_REMAINDERS && TradeIdsFit(m, c, ProRataTime)
    ensures KEEP_REMAINDERS.allocation == ProRataTime
    ensures IsTerminal(action) && MaximumEvents(action) == |action.prepared.trades| + |action.prepared.cancellations| + 1
    ensures Applicable(m, action)
    ensures BookAfter(m, action).active == ActiveAfter(m, c, KEEP_REMAINDERS) && BookAfter(m, action).stateRevision == m.stateRevision + 1
  {
    hide ClearsAt, IsPreparation, TradeIdsFit, ActiveAfter, PairsOf;
  }

  lemma Crosses(n: nat)
    requires Sized(n) && RULES.Valid()
    ensures Winding(Run(Genesis(RULES, Bounds(n)), Winds(n, 0)), n, 0)
  {
    hide *;
    SizedIs(n);
    Freezes(n);
    var genesis, before := Genesis(RULES, Bounds(n)), Entering(n, n) + [At(Moving(n + 2, 1, Frozen))];
    var s := Run(genesis, before);
    StageFacts(s, n, n + 2, n + 2);
    BookUpToIs(n, n);
    DiscoveryIs(s, n);
    CrossingIs(s.book, n);
    CrossingCommandIs(n);
    TradeIdsAreFew(s.book, State(n));
    var action := UncrossIsDecided(s, n);
    CrossingEffect(s, n, action);
    RoomIs(s, n, n + 2, n + 2, action);
    MovesOn(s, n, n + 2, n + 2, Crossing(n), action);
    WindsIs(n, 0);
    RunExtends(genesis, before, At(Crossing(n)));
    var t := Step(s, At(Crossing(n))).0;
    forall id: OrderId ensures (id in t.book.active <==> 0 < id < n) && (id in t.book.active ==> t.book.active[id].accountId == id) {
      Remaining(s.book, n, id);
    }
    WindingIs(t, n, 0);
  }

  lemma TradeIdsAreFew(m: BookModel, c: AuctionClearing)
    requires ClearsAt(m, c) && m.nextTradeId == 1
    ensures |PairsOf(m, c, ProRataTime)| < U64_MAX ==> TradeIdsFit(m, c, ProRataTime)
  {
    hide ClearsAt, PairsOf;
  }

  lemma WindingIs(s: EngineState, n: nat, j: nat)
    ensures Winding(s, n, j) <==>
              && Stage(s, n, n + 3 + j, 2 * n + 2 + 2 * j) && s.book.stateRevision == n + 1 + j
              && (forall id: OrderId :: id in s.book.active <==> j < id < n)
              && forall id: OrderId :: id in s.book.active ==> s.book.active[id].accountId == id
  {
    hide Stage;
  }

  // ----- the mass cancellations

  lemma NextSelection(m: BookModel, n: nat, id: OrderId)
    requires id < n && forall other: OrderId :: other in m.active <==> id <= other < n
    requires forall other: OrderId :: other in m.active ==> m.active[other].accountId == other
    ensures Selected(m, id, All) == {id}
  {
  }

  lemma CancelsOne(s: EngineState, id: OrderId, preflight: CallAuctionMassCancelResult)
    requires s.book.stateRevision < U64_MAX && Selected(s.book, id, All) == {id} && preflight.cancelledOrderCount == 1
    ensures var action := MassCancelAction(id, All, preflight);
            && MaximumEvents(action) == 2 && IsTerminal(action) && Applicable(s.book, action)
            && BookAfter(s.book, action).active == s.book.active - {id} && BookAfter(s.book, action).stateRevision == s.book.stateRevision + 1
  {
    hide Selected;
  }

  lemma MassCancelIsDecided(s: EngineState, n: nat, id: OrderId)
    requires Sized(n) && id < n && s.book.Valid() && s.book.definition == RULES && MassCancelOutcome(s.book, id, All).Ok?
    ensures Decide(s, 0, 1, Cancelling(n, id)) == Ok(MassCancelAction(id, All, MassCancelOutcome(s.book, id, All).value))
  {
    hide BookModel.Valid, MassCancelOutcome;
  }

  /** The next buyer's mass cancellation is accepted by the book and costs two events. */
  lemma NextCancel(s: EngineState, n: nat, j: nat) returns (action: PreparedAction)
    requires Winding(s, n, j) && j + 1 < n && s.book.Valid()
    ensures Sized(n) && Decide(s, 0, 1, Cancelling(n, j + 1)) == Ok(action)
    ensures MaximumEvents(action) == 2 && IsTerminal(action) && Applicable(s.book, action)
    ensures BookAfter(s.book, action).active == s.book.active - {(j + 1) as OrderId} && BookAfter(s.book, action).stateRevision == s.book.stateRevision + 1
  {
    hide *;
    WindingIs(s, n, j);
    StageFacts(s, n, n + 3 + j, 2 * n + 2 + 2 * j);
    SizedIs(n);
    var id: OrderId := j + 1;
    NextSelection(s.book, n, id);
    MassCancelOutcomeIs(s.book, id, All);
    MassCancelIsDecided(s, n, id);
    action := MassCancelAction(id, All, MassCancelOutcome(s.book, id, All).value);
    CancelsOne(s, id, MassCancelOutcome(s.book, id, All).value);
  }

  /** Two events a buyer: the lane still pays for the first half of them. */
  lemma {:induction false} WindsOn(n: nat, j: nat)
    requires Sized(n) && RULES.Valid() && 2 * j <= n + 1
    ensures j < n && Winding(Run(Genesis(RULES, Bounds(n)), Winds(n, j)), n, j)
  {
    hide *;
    SizedIs(n);
    if j == 0 {
      Crosses(n);
    } else {
      WindsOn(n, j - 1);
      var genesis := Genesis(RULES, Bounds(n));
      var s := Run(genesis, Winds(n, j - 1));
      WindingIs(s, n, j - 1);
      StageFacts(s, n, n + 2 + j, 2 * n + 2 * j);
      var action := NextCancel(s, n, j - 1);
      RoomIs(s, n, n + 2 + j, 2 * n + 2 * j, action);
      CancellingIs(n, j);
      MovesOn(s, n, n + 2 + j, 2 * n + 2 * j, Cancelling(n, j), action);
      WindsIs(n, j);
      RunExtends(genesis, Winds(n, j - 1), At(Cancelling(n, j)));
      WindingIs(Step(s, At(Cancelling(n, j))).0, n, j);
    }
  }

  /** A terminal command that the engine accepts but for want of retained events. */
  ghost predicate Starves(definition: InstrumentDefinition, limits: CallAuctionEngineLimits, inputs: seq<Input>, input: Input, action: PreparedAction) {
    && definition.Valid() && limits.Valid()
    && var s := Run(Genesis(definition, limits), inputs);
       && s.book.Valid() && s.limits.Valid() && Decide(s, input.bookInstanceId, input.leases, input.command) == Ok(action) && IsTerminal(action)
       && CapacityError(s, action) == Some(CapacityExhausted(RetainedEvents))
  }

  /** A run whose next mass cancellation is refused: the crossing trades with every buyer and fills
      only the seller, so the lane pays for half of the cancellations it should cover. */
  lemma SomeRunStarves(n: nat) returns (inputs: seq<Input>, input: Input, action: PreparedAction)
    requires Sized(n)
    ensures Bounds(n).book.maxActiveOrders == n && Starves(RULES, Bounds(n), inputs, input, action)
  {
    hide *;
    SizedIs(n);
    RulesAreValid();
    var j := (n + 1) / 2;
    WindsOn(n, j);
    inputs := Winds(n, j);
    var s := Run(Genesis(RULES, Bounds(n)), inputs);
    WindingIs(s, n, j);
    StageFacts(s, n, n + 3 + j, 2 * n + 2 + 2 * j);
    action := NextCancel(s, n, j);
    RoomIs(s, n, n + 3 + j, 2 * n + 2 + 2 * j, action);
    input := At(Cancelling(n, j + 1));
    AtIs(Cancelling(n, j + 1));
    StarvesIs(RULES, Bounds(n), inputs, input, action);
    RoomHolds(n);
  }

  lemma RoomHolds(n: nat)
    requires Sized(n)
    ensures Bounds(n).book.maxActiveOrders == n
  {
  }

  lemma StarvesIs(definition: InstrumentDefinition, limits: CallAuctionEngineLimits, inputs: seq<Input>, input: Input, action: PreparedAction)
    requires definition.Valid() && limits.Valid()
    ensures Starves(definition, limits, inputs, input, action) <==>
              var s := Run(Genesis(definition, limits), inputs);
              && s.book.Valid() && s.limits.Valid() && Decide(s, input.bookInstanceId, input.leases, input.command) == Ok(action) && IsTerminal(action)
              && CapacityError(s, action) == Some(CapacityExhausted(RetainedEvents))
  {
    hide InstrumentDefinition.Valid, CallAuctionEngineLimits.Valid, BookModel.Valid, Decide, CapacityError;
  }

  /** No run under any limits for `n` orders ever lacks retained events for a terminal command. */
  ghost predicate NeverStarves(n: nat) {
    forall definition, limits: CallAuctionEngineLimits, inputs, input, action ::
      limits.book.maxActiveOrders == n ==> !Starves(definition, limits, inputs, input, action)
  }

  lemma SmallBooksNeverStarve(definition: InstrumentDefinition, limits: CallAuctionEngineLimits, inputs: seq<Input>, input: Input, action: PreparedAction)
    requires limits.book.maxActiveOrders <= 3 || 3 * limits.book.maxActiveOrders + 4 > U64_MAX
    ensures !Starves(definition, limits, inputs, input, action)
  {
    hide *;
    if Starves(definition, limits, inputs, input, action) {
      StarvesHolds(definition, limits, inputs, input, action);
      StarvesIs(definition, limits, inputs, input, action);
      var s := Run(Genesis(definition, limits), inputs);
      if limits.book.maxActiveOrders <= 3 {
        forall any: Input ensures Affordable(limits, any) { AffordableIs(limits, any); }
        TerminalEventsNeverStarve(definition, limits, inputs, input, action);
      } else {
        RunOnlyAppends(Genesis(definition, limits), inputs);
        SequenceComesFirst(s, action);
      }
    }
  }

  lemma StarvesHolds(definition: InstrumentDefinition, limits: CallAuctionEngineLimits, inputs: seq<Input>, input: Input, action: PreparedAction)
    requires Starves(definition, limits, inputs, input, action)
    ensures definition.Valid() && limits.Valid() && Genesis(definition, limits).limits == limits
  {
  }

  lemma SequenceComesFirst(s: EngineState, action: PreparedAction)
    requires s.limits.Valid() && 3 * s.limits.book.maxActiveOrders + 4 > U64_MAX
    ensures CapacityError(s, action) != Some(CapacityExhausted(RetainedEvents))
  {
  }

  /** The event lane holds for every run under every policy exactly for bounds of three orders at
      most; past that a run starves, unless the bound leaves no 64-bit limit it could exceed. */
  lemma EventLaneHoldsExactly(n: nat)
    ensures NeverStarves(n) <==> n <= 3 || 3 * n + 4 > U64_MAX
  {
    hide Starves, Bounds;
    if n <= 3 || 3 * n + 4 > U64_MAX {
      forall definition, limits: CallAuctionEngineLimits, inputs, input, action | limits.book.maxActiveOrders == n
        ensures !Starves(definition, limits, inputs, input, action)
      {
        SmallBooksNeverStarve(definition, limits, inputs, input, action);
      }
    } else {
      var inputs, input, action := SomeRunStarves(n);
    }
  }
}
