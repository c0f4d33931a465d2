/** Who executes first, read off the orders of a book: by market and limit, price, class and time. */
module PriorityLaws {
  import opened AbstractBook
  import opened Allocation
  import opened Arithmetic
  import opened BookInterest
  import opened Clearing
  import opened Domain
  import opened SetSums
  import opened Sums
  import opened Uncross

  ghost predicate TierBefore(x: CallAuctionOrderSnapshot, y: CallAuctionOrderSnapshot) {
    TierFirst(x.constraint, x.priorityClass, y.constraint, y.priorityClass, y.side)
  }

  ghost predicate SameTier(x: CallAuctionOrderSnapshot, y: CallAuctionOrderSnapshot) {
    x.constraint == y.constraint && x.priorityClass == y.priorityClass
  }

  /** `x` is ahead of `y` on their side: in an earlier tier, or in the same tier and accepted earlier. */
  ghost predicate ComesFirst(x: CallAuctionOrderSnapshot, y: CallAuctionOrderSnapshot) {
    TierBefore(x, y) || (SameTier(x, y) && x.prioritySequence < y.prioritySequence)
  }

  /** Orders of one side in tiers executed before that of `y`. */
  ghost function AheadIds(active: Active, y: CallAuctionOrderSnapshot): set<OrderId> {
    set id | id in active && active[id].side == y.side && TierBefore(active[id], y)
  }

  ghost function TierIds(active: Active, y: CallAuctionOrderSnapshot): set<OrderId> {
    set id | id in active && active[id].side == y.side && SameTier(active[id], y)
  }

  // ----- positions

  lemma EarlierStandsEarlier(m: BookModel, a: OrderId, b: OrderId)
    requires m.Valid() && a in m.active && b in m.active && m.active[a].side == m.active[b].side && ComesFirst(m.active[a], m.active[b])
    ensures Position(m, a) < Position(m, b)
  {
    var side := m.active[a].side;
    SideIsListed(m, side);
    var orders := SideOrders(m.active, side);
    InPriorityMeans(orders, side);
    var i, j := Position(m, a), Position(m, b);
    hide BookModel.Valid, SideOrders, InPriority;
    assert orders[i] == AsAuctionOrder(m.active[a]) && orders[j] == AsAuctionOrder(m.active[b]);
    assert j != i;
  }

  /** Under price-time no order executes before every order ahead of it has executed in full. */
  lemma PriceTimeServesInOrder(m: BookModel, c: AuctionClearing, a: OrderId, b: OrderId)
    requires ClearsAt(m, c) && a in m.active && b in m.active && m.active[a].side == m.active[b].side && ComesFirst(m.active[a], m.active[b])
    ensures Executed(m, c, PriceTime, b) > 0 ==> Executed(m, c, PriceTime, a) == m.active[a].quantity
  {
    ClearingFacts(m, c);
    BookAllocates(m, c, PriceTime);
    ExecutedIsShare(m, c, PriceTime, a);
    ExecutedIsShare(m, c, PriceTime, b);
    EarlierStandsEarlier(m, a, b);
    hide ClearsAt, SideShares, SideOrders, Executed, IsAllocation, CanAllocate, ComesFirst;
  }

  /** Under either policy no order executes before every earlier tier has executed in full. */
  lemma TiersAreServedInOrder(m: BookModel, c: AuctionClearing, allocation: AuctionAllocationPolicy, a: OrderId, b: OrderId)
    requires ClearsAt(m, c) && a in m.active && b in m.active && m.active[a].side == m.active[b].side && TierBefore(m.active[a], m.active[b])
    ensures Executed(m, c, allocation, b) > 0 ==> Executed(m, c, allocation, a) == m.active[a].quantity
  {
    ClearingFacts(m, c);
    BookAllocates(m, c, allocation);
    ExecutedIsShare(m, c, allocation, a);
    ExecutedIsShare(m, c, allocation, b);
    EarlierStandsEarlier(m, a, b);
    var side := m.active[a].side;
    var orders, shares := SideOrders(m.active, side), SideShares(m, side, c, allocation);
    hide ClearsAt, SideShares, SideOrders, Executed, CanAllocate, IsEligible, Sum;
    assert IsAllocation(shares, orders, side, c.price, c.executableQuantity);
    assert !SameAllocationTier(orders[Position(m, a)], orders[Position(m, b)]);
  }

  // ----- pro-rata, tier by tier

  ghost predicate TierFirstOf(x: AuctionOrder, y: AuctionOrder, side: Side) {
    TierFirst(x.constraint, x.priorityClass, y.constraint, y.priorityClass, side)
  }

  ghost predicate OneTierOf(x: AuctionOrder, y: AuctionOrder) {
    x.constraint == y.constraint && x.priorityClass == y.priorityClass
  }

  /** The tier of position `i` is the stretch from `a` to `b`. */
  ghost predicate TierSpans(orders: seq<AuctionOrder>, side: Side, i: nat, a: nat, b: nat) {
    && a <= i < b <= |orders|
    && forall j {:trigger orders[j]} :: 0 <= j < |orders| ==>
         (TierFirstOf(orders[j], orders[i], side) <==> j < a) && (OneTierOf(orders[j], orders[i]) <==> a <= j < b)
  }

  lemma TierBelow(orders: seq<AuctionOrder>, side: Side, i: nat) returns (a: nat)
    requires RunsInOrder(orders, side) && i < |orders|
    ensures a <= i && (forall j :: a <= j <= i ==> OneTierOf(orders[j], orders[i])) && (a > 0 ==> TierFirstOf(orders[a - 1], orders[i], side))
  {
    a := i;
    while a > 0 && OneTierOf(orders[a - 1], orders[i])
      invariant a <= i && forall j :: a <= j <= i ==> OneTierOf(orders[j], orders[i])
    {
      a := a - 1;
    }
  }

  lemma TierAbove(orders: seq<AuctionOrder>, side: Side, i: nat) returns (b: nat)
    requires RunsInOrder(orders, side) && i < |orders|
    ensures i < b <= |orders| && (forall j :: i <= j < b ==> OneTierOf(orders[j], orders[i]))
    ensures b < |orders| ==> TierFirstOf(orders[i], orders[b], side)
  {
    b := i + 1;
    while b < |orders| && OneTierOf(orders[b], orders[i])
      invariant i < b <= |orders| && forall j :: i <= j < b ==> OneTierOf(orders[j], orders[i])
    {
      b := b + 1;
    }
  }

  lemma TiersAreApart(x: AuctionOrder, y: AuctionOrder, z: AuctionOrder, side: Side)
    ensures TierFirstOf(x, y, side) && TierFirstOf(y, z, side) ==> TierFirstOf(x, z, side)
    ensures TierFirstOf(x, y, side) && OneTierOf(y, z) ==> TierFirstOf(x, z, side)
    ensures OneTierOf(x, y) && TierFirstOf(y, z, side) ==> TierFirstOf(x, z, side)
    ensures !(TierFirstOf(x, y, side) && (TierFirstOf(y, x, side) || OneTierOf(x, y)))
    ensures OneTierOf(x, y) <==> OneTierOf(y, x)
  {
  }

  lemma TierAround(orders: seq<AuctionOrder>, side: Side, i: nat) returns (a: nat, b: nat)
    requires RunsInOrder(orders, side) && i < |orders|
    ensures TierSpans(orders, side, i, a, b)
  {
    a := TierBelow(orders, side, i);
    b := TierAbove(orders, side, i);
    hide TierFirst;
    forall j | 0 <= j < |orders|
      ensures (TierFirstOf(orders[j], orders[i], side) <==> j < a) && (OneTierOf(orders[j], orders[i]) <==> a <= j < b)
    {
      TiersAreApart(orders[j], orders[i], orders[i], side);
      if j < a {
        TiersAreApart(orders[j], orders[a - 1], orders[i], side);
      } else if j >= b {
        TiersAreApart(orders[i], orders[b], orders[j], side);
        TiersAreApart(orders[i], orders[j], orders[i], side);
      }
    }
  }

  ghost predicate Boundary(orders: seq<AuctionOrder>, k: nat) {
    k <= |orders| && (0 < k < |orders| ==> !OneTierOf(orders[k - 1], orders[k]))
  }

  /** The pro-rata walk stops between tiers. */
  lemma {:induction false} SplitsBetweenTiers(orders: seq<AuctionOrder>, side: Side, price: Price, at: nat, remaining: nat)
    requires Boundary(orders, at)
    ensures var s := ProRataSplit(orders, side, price, at, remaining); Boundary(orders, s.start) && Boundary(orders, s.end)
    decreases |orders| - at
  {
    if remaining > 0 && at < |orders| && IsEligible(orders[at], side, price) {
      var end := TierEnd(orders, orders[at], side, price, at + 1);
      CumMonotone(orders, at, end);
      assert SameAllocationTier(orders[at], orders[end - 1]);
      if remaining >= Cum(orders, end) - Cum(orders, at) {
        SplitsBetweenTiers(orders, side, price, end, remaining - (Cum(orders, end) - Cum(orders, at)));
      }
    }
  }

  /** Whole quanta of `quantity` in proportion to `remaining` out of `total`, rounded down. */
  ghost function ProRataFloor(quantity: nat, remaining: nat, total: nat, quantum: nat): int
    requires 1 <= quantum <= total
  {
    QuantaAreSome(total, quantum);
    (quantity / quantum) * (remaining / quantum) / (total / quantum)
  }

  lemma QuantaAreSome(total: nat, quantum: nat)
    requires 1 <= quantum <= total
    ensures total / quantum >= 1
  {
  }

  lemma SpanAndBoundary(orders: seq<AuctionOrder>, side: Side, i: nat, a: nat, b: nat, k: nat)
    requires TierSpans(orders, side, i, a, b) && Boundary(orders, k)
    ensures k <= a || b <= k
  {
    SpansAre(orders, side, i, a, b);
    if a < k < b {
      hide *;
      InSpan(orders, side, i, a, b, k - 1);
      InSpan(orders, side, i, a, b, k);
      BoundarySplits(orders, i, k);
    }
  }

  lemma InSpan(orders: seq<AuctionOrder>, side: Side, i: nat, a: nat, b: nat, j: nat)
    requires TierSpans(orders, side, i, a, b) && a <= j < b
    ensures j < |orders| && i < |orders| && OneTierOf(orders[j], orders[i])
  {
  }

  lemma BoundarySplits(orders: seq<AuctionOrder>, i: nat, k: nat)
    requires Boundary(orders, k) && 0 < k < |orders| && i < |orders|
    ensures !(OneTierOf(orders[k - 1], orders[i]) && OneTierOf(orders[k], orders[i]))
  {
  }

  /** The share of one order, by what is ahead of its tier and in it. */
  ghost predicate SharesTier(share: nat, quantity: nat, ahead: nat, tier: nat, executable: nat, quantum: nat, extra: bool) {
    && (executable <= ahead ==> share == 0)
    && (ahead + tier <= executable ==> share == quantity)
    && (ahead < executable < ahead + tier && 1 <= quantum <= tier ==>
          share == ProRataFloor(quantity, executable - ahead, tier, quantum) * quantum + if extra then quantum else 0)
  }

  /** How many orders of the tier from `a` to `b` get a quantum beyond their floor. */
  ghost function Extras(orders: seq<AuctionOrder>, a: nat, b: nat, executable: nat, quantum: nat): int
    requires a <= b <= |orders| && quantum >= 1
  {
    if executable <= Cum(orders, a) then 0 else Residual(Quanta(orders[a..b], quantum), Quotient(executable - Cum(orders, a), quantum))
  }

  lemma ExtrasAre(orders: seq<AuctionOrder>, a: nat, b: nat, executable: nat, quantum: nat)
    requires a <= b <= |orders| && quantum >= 1 && executable > Cum(orders, a)
    ensures Extras(orders, a, b, executable, quantum) == Residual(Quanta(orders[a..b], quantum), Quotient(executable - Cum(orders, a), quantum))
  {
  }

  lemma MarginalShareIs(orders: seq<AuctionOrder>, shares: seq<nat>, quantum: nat, s: Split, i: nat)
    requires quantum >= 1 && |shares| == |orders| && s.start <= i < s.end <= |orders|
    requires MarginalExact(shares[s.start..s.end], orders[s.start..s.end], s.remaining, quantum)
    requires Cum(orders, s.end) == Cum(orders, s.start) + Sum(Quantities(orders[s.start..s.end]))
    ensures var tier := Cum(orders, s.end) - Cum(orders, s.start);
            && quantum <= tier
            && shares[i] == ProRataFloor(orders[i].quantity, s.remaining, tier, quantum) * quantum
                            + if i - s.start < Residual(Quanta(orders[s.start..s.end], quantum), Quotient(s.remaining, quantum)) then quantum else 0
  {
    hide Sum, Quantities, Residual, Cum;
    var part := orders[s.start..s.end];
    var quanta := Quanta(part, quantum);
    var total, share := Sum(quanta), Quotient(s.remaining, quantum);
    assert part[i - s.start] == orders[i] && shares[s.start..s.end][i - s.start] == shares[i];
    ScaleIsMonotone(1, total, quantum);
    QuotientIs(total * quantum, quantum, total, 0);
    FloorIs(quanta[i - s.start] * share / total, quantum);
    assert quanta[i - s.start] * share / total == ProRataFloor(orders[i].quantity, s.remaining, total * quantum, quantum);
  }

  lemma FloorIs(x: int, quantum: nat)
    ensures (x + 1) * quantum == x * quantum + quantum
  {
  }

  /** Every share is what its tier leaves it. */
  lemma ShareAt(orders: seq<AuctionOrder>, side: Side, price: Price, executable: nat, quantum: nat, i: nat, a: nat, b: nat)
    requires ProRataReady(orders, side, price, executable, quantum) && i < |orders| && TierSpans(orders, side, i, a, b)
    ensures quantum >= 1 && Cum(orders, a) < Cum(orders, b)
    ensures SharesTier(ProRataShares(orders, side, price, executable, quantum)[i], orders[i].quantity, Cum(orders, a), Cum(orders, b) - Cum(orders, a),
                       executable, quantum, i - a < Extras(orders, a, b, executable, quantum))
  {
    hide *;
    SpansAre(orders, side, i, a, b);
    ReadyIs(orders, side, price, executable, quantum);
    var s, shares := ProRataSplit(orders, side, price, 0, executable), ProRataShares(orders, side, price, executable, quantum);
    ProRataIsExact(orders, side, price, executable, quantum);
    ReadyIsCovered(orders, side, price, executable, quantum);
    SplitIsExact(orders, side, price, 0, executable, quantum);
    SplitsBetweenTiers(orders, side, price, 0, executable);
    SpanAndBoundary(orders, side, i, a, b, s.start);
    SpanAndBoundary(orders, side, i, a, b, s.end);
    CumMonotone(orders, a, b);
    CumStart(orders);
    SplitsAt(orders, s);
    ExactAt(shares, orders, executable, quantum, s, i);
    if i < s.start {
      CumMonotone(orders, b, s.start);
    } else if i >= s.end {
      CumMonotone(orders, s.end, a);
    } else {
      SpanIsSplit(orders, side, i, a, b, s);
      CumIsSum(orders, a, b);
      MarginalShareIs(orders, shares, quantum, s, i);
      ExtrasAre(orders, a, b, executable, quantum);
    }
    SharesTierIs(shares[i], orders[i].quantity, Cum(orders, a), Cum(orders, b) - Cum(orders, a), executable, quantum, i - a < Extras(orders, a, b, executable, quantum));
  }

  lemma ReadyIs(orders: seq<AuctionOrder>, side: Side, price: Price, executable: nat, quantum: nat)
    requires ProRataReady(orders, side, price, executable, quantum)
    ensures quantum >= 1 && Aligned(orders, quantum) && Boundary(orders, 0)
  {
    hide IsMultiple, InPriority, EligibleQuantity;
  }

  lemma SplitsAt(orders: seq<AuctionOrder>, s: Split)
    requires Boundary(orders, s.start) && Boundary(orders, s.end)
    ensures s.start <= |orders| && s.end <= |orders|
  {
  }

  lemma ExactAt(shares: seq<nat>, orders: seq<AuctionOrder>, executable: nat, quantum: nat, s: Split, i: nat)
    requires quantum >= 1 && ProRataExact(shares, orders, executable, quantum, s) && i < |orders|
    ensures |shares| == |orders| && s.start <= s.end <= |orders| && executable == Cum(orders, s.start) + s.remaining && OneTier(orders, s.start, s.end)
    ensures i < s.start ==> shares[i] == orders[i].quantity
    ensures s.end <= i ==> shares[i] == 0
    ensures s.start <= i < s.end ==> MarginalExact(shares[s.start..s.end], orders[s.start..s.end], s.remaining, quantum)
  {
    hide Cum, Sum, OneTier, MarginalExact;
  }

  lemma SharesTierIs(share: nat, quantity: nat, ahead: nat, tier: nat, executable: nat, quantum: nat, extra: bool)
    ensures SharesTier(share, quantity, ahead, tier, executable, quantum, extra) <==>
              && (executable <= ahead ==> share == 0)
              && (ahead + tier <= executable ==> share == quantity)
              && (ahead < executable < ahead + tier && 1 <= quantum <= tier ==>
                    share == ProRataFloor(quantity, executable - ahead, tier, quantum) * quantum + if extra then quantum else 0)
  {
    hide ProRataFloor;
  }

  lemma SpanIsSplit(orders: seq<AuctionOrder>, side: Side, i: nat, a: nat, b: nat, s: Split)
    requires TierSpans(orders, side, i, a, b) && s.start <= i < s.end <= |orders| && OneTier(orders, s.start, s.end)
    requires s.start <= a || b <= s.start
    requires s.end <= a || b <= s.end
    ensures s.start == a && s.end == b
  {
    assert OneTierOf(orders[s.start], orders[i]) && OneTierOf(orders[s.end - 1], orders[i]);
  }

  // ----- the same of a book

  lemma {:induction false} PrefixTotal(orders: seq<AuctionOrder>, active: Active, ids: set<OrderId>, side: Side, n: nat)
    requires Lists(orders, active, ids, side) && n <= |orders|
    ensures PrefixIds(orders, n) <= active.Keys == Lots(active).Keys && Cum(orders, n) == Total(Lots(active), PrefixIds(orders, n))
  {
    if n > 0 {
      PrefixTotal(orders, active, ids, side, n - 1);
      PrefixIdsAre(orders, n - 1);
      ListsAreDistinct(orders, active, ids, side);
      hide Lists;
      assert orders[n - 1].orderId in active && orders[n - 1] == AsAuctionOrder(active[orders[n - 1].orderId]) by { ListedAt(orders, active, ids, side, n - 1); }
      TotalAdd(Lots(active), PrefixIds(orders, n - 1), orders[n - 1].orderId);
    }
  }

  lemma ListedAt(orders: seq<AuctionOrder>, active: Active, ids: set<OrderId>, side: Side, i: nat)
    requires Lists(orders, active, ids, side) && i < |orders|
    ensures orders[i].orderId in active && orders[i] == AsAuctionOrder(active[orders[i].orderId]) && orders[i].orderId in ids
  {
    assert orders[i].orderId in Ids(orders);
  }

  /** The stretch of a tier, as sets: what stands before it is ahead, what stands in it shares it. */
  lemma TierOfBook(m: BookModel, id: OrderId, a: nat, b: nat)
    requires m.Valid() && id in m.active
    requires TierSpans(SideOrders(m.active, m.active[id].side), m.active[id].side, Position(m, id), a, b)
    ensures var orders, y, lots := SideOrders(m.active, m.active[id].side), m.active[id], Lots(m.active);
            && AheadIds(m.active, y) <= m.active.Keys == lots.Keys && TierIds(m.active, y) <= m.active.Keys
            && Cum(orders, a) == Total(lots, AheadIds(m.active, y)) && Cum(orders, b) == Cum(orders, a) + Total(lots, TierIds(m.active, y))
  {
    hide *;
    var side, y := m.active[id].side, m.active[id];
    var orders := SideOrders(m.active, side);
    SideIsListed(m, side);
    SpansAre(orders, side, Position(m, id), a, b);
    PrefixTotal(orders, m.active, SideIds(m.active, side), side, a);
    PrefixTotal(orders, m.active, SideIds(m.active, side), side, b);
    PrefixOfSide(orders, m.active, side, a);
    PrefixOfSide(orders, m.active, side, b);
    TiersAre(m.active, y);
    forall x | x in m.active && m.active[x].side == side
      ensures x in PrefixIds(orders, a) <==> TierBefore(m.active[x], y)
      ensures x in PrefixIds(orders, b) <==> TierBefore(m.active[x], y) || SameTier(m.active[x], y)
      ensures !(TierBefore(m.active[x], y) && SameTier(m.active[x], y))
    {
      Placed(m, id, a, b, x);
    }
    assert AheadIds(m.active, y) == PrefixIds(orders, a);
    assert AheadIds(m.active, y) + TierIds(m.active, y) == PrefixIds(orders, b);
    TotalUnion(Lots(m.active), AheadIds(m.active, y), TierIds(m.active, y));
  }

  lemma TiersAre(active: Active, y: CallAuctionOrderSnapshot)
    ensures forall x :: x in AheadIds(active, y) <==> x in active && active[x].side == y.side && TierBefore(active[x], y)
    ensures forall x :: x in TierIds(active, y) <==> x in active && active[x].side == y.side && SameTier(active[x], y)
  {
  }

  lemma PrefixOfSide(orders: seq<AuctionOrder>, active: Active, side: Side, n: nat)
    requires Lists(orders, active, SideIds(active, side), side) && n <= |orders|
    ensures forall x :: x in PrefixIds(orders, n) ==> x in active && active[x].side == side
  {
    PrefixIdsAre(orders, n);
    hide PrefixIds, InPriority;
    forall x | x in PrefixIds(orders, n) ensures x in active && active[x].side == side {
      var i: nat :| i < n && orders[i].orderId == x;
      assert x in Ids(orders);
    }
  }

  lemma Placed(m: BookModel, id: OrderId, a: nat, b: nat, x: OrderId)
    requires m.Valid() && id in m.active && x in m.active && m.active[x].side == m.active[id].side
    requires TierSpans(SideOrders(m.active, m.active[id].side), m.active[id].side, Position(m, id), a, b)
    ensures var orders, y := SideOrders(m.active, m.active[id].side), m.active[id];
            && (x in PrefixIds(orders, a) <==> TierBefore(m.active[x], y))
            && (x in PrefixIds(orders, b) <==> TierBefore(m.active[x], y) || SameTier(m.active[x], y))
            && !(TierBefore(m.active[x], y) && SameTier(m.active[x], y))
  {
    var orders, i := SideOrders(m.active, m.active[id].side), Position(m, x);
    SideIsListed(m, m.active[id].side);
    ListsAreDistinct(orders, m.active, SideIds(m.active, m.active[id].side), m.active[id].side);
    PrefixIdsAre(orders, a);
    PrefixIdsAre(orders, b);
    OrderFacts(m, x);
    hide SideOrders, BookModel.Valid, PrefixIds, Lists;
    assert orders[i].orderId == x;
    assert orders[Position(m, id)] == AsAuctionOrder(m.active[id]);
  }

  /** What a pro-rata uncross gives one order of a book, `extra` saying whether it gets a quantum beyond
      its floor. */
  ghost predicate ExecutesTier(m: BookModel, c: AuctionClearing, id: OrderId, extra: bool)
    requires ClearsAt(m, c) && id in m.active
  {
    TiersAreActive(m.active, m.active[id]);
    SharesTier(Executed(m, c, ProRataTime, id), m.active[id].quantity, Total(Lots(m.active), AheadIds(m.active, m.active[id])),
               Total(Lots(m.active), TierIds(m.active, m.active[id])), c.executableQuantity, m.definition.incrementLots, extra)
  }

  lemma TiersAreActive(active: Active, y: CallAuctionOrderSnapshot)
    ensures AheadIds(active, y) <= active.Keys == Lots(active).Keys && TierIds(active, y) <= active.Keys
  {
  }

  /** A pro-rata uncross gives an order nothing while the tiers ahead take everything, all of it when its
      tier fits, and otherwise its floored proportional share of what is left, or one quantum more; and
      in one tier whoever was accepted earlier gets the quantum first. */
  lemma ProRataAtBook(m: BookModel, c: AuctionClearing, x: OrderId, y: OrderId) returns (extraX: bool, extraY: bool)
    requires ClearsAt(m, c) && x in m.active && y in m.active && m.active[x].side == m.active[y].side
    ensures ExecutesTier(m, c, x, extraX) && ExecutesTier(m, c, y, extraY)
    ensures SameTier(m.active[x], m.active[y]) && m.active[x].prioritySequence < m.active[y].prioritySequence && extraY ==> extraX
  {
    hide *;
    ClearingFacts(m, c);
    var side := m.active[x].side;
    var orders, i, j := SideOrders(m.active, side), Position(m, x), Position(m, y);
    SideIsListed(m, side);
    ListsRun(orders, m.active, SideIds(m.active, side), side);
    SideCanShare(m, c, side);
    var a, b := TierAround(orders, side, i);
    var d, e := TierAround(orders, side, j);
    SpansAre(orders, side, i, a, b);
    SpansAre(orders, side, j, d, e);
    PositionShare(m, c, x, a, b);
    PositionShare(m, c, y, d, e);
    var executable, quantum := c.executableQuantity, m.definition.incrementLots;
    extraX, extraY := i - a < Extras(orders, a, b, executable, quantum), j - d < Extras(orders, d, e, executable, quantum);
    if SameTier(m.active[x], m.active[y]) && m.active[x].prioritySequence < m.active[y].prioritySequence {
      SameSpans(m, x, y, a, b, d, e);
      ComesFirstIs(m.active[x], m.active[y]);
      EarlierStandsEarlier(m, x, y);
    }
  }

  lemma ComesFirstIs(x: CallAuctionOrderSnapshot, y: CallAuctionOrderSnapshot)
    ensures SameTier(x, y) && x.prioritySequence < y.prioritySequence ==> ComesFirst(x, y)
  {
  }

  lemma SameSpans(m: BookModel, x: OrderId, y: OrderId, a: nat, b: nat, d: nat, e: nat)
    requires m.Valid() && x in m.active && y in m.active && m.active[x].side == m.active[y].side && SameTier(m.active[x], m.active[y])
    requires TierSpans(SideOrders(m.active, m.active[x].side), m.active[x].side, Position(m, x), a, b)
    requires TierSpans(SideOrders(m.active, m.active[x].side), m.active[x].side, Position(m, y), d, e)
    ensures a == d && b == e
  {
    var orders, side, i, j := SideOrders(m.active, m.active[x].side), m.active[x].side, Position(m, x), Position(m, y);
    hide SideOrders, BookModel.Valid, TierFirst, Position;
    assert OneTierOf(orders[i], orders[j]) && OneTierOf(orders[j], orders[i]);
    assert OneTierOf(orders[a], orders[i]) && OneTierOf(orders[b - 1], orders[i]);
    assert OneTierOf(orders[d], orders[j]) && OneTierOf(orders[e - 1], orders[j]);
    assert OneTierOf(orders[a], orders[j]) && OneTierOf(orders[b - 1], orders[j]);
    assert OneTierOf(orders[d], orders[i]) && OneTierOf(orders[e - 1], orders[i]);
  }

  lemma PositionShare(m: BookModel, c: AuctionClearing, id: OrderId, a: nat, b: nat)
    requires ClearsAt(m, c) && m.Valid() && id in m.active && m.definition.incrementLots >= 1
    requires TierSpans(SideOrders(m.active, m.active[id].side), m.active[id].side, Position(m, id), a, b)
    requires a <= b <= |SideOrders(m.active, m.active[id].side)|
    ensures ExecutesTier(m, c, id, Position(m, id) - a < Extras(SideOrders(m.active, m.active[id].side), a, b, c.executableQuantity, m.definition.incrementLots))
  {
    hide *;
    var side := m.active[id].side;
    var orders, i := SideOrders(m.active, side), Position(m, id);
    SideCanShare(m, c, side);
    ExecutedIsShare(m, c, ProRataTime, id);
    ShareAt(orders, side, c.price, c.executableQuantity, m.definition.incrementLots, i, a, b);
    TierOfBook(m, id, a, b);
    AsAuctionOrderIs(m.active[id]);
    ExecutesTierIs(m, c, id, i - a < Extras(orders, a, b, c.executableQuantity, m.definition.incrementLots));
  }

  lemma ExecutesTierIs(m: BookModel, c: AuctionClearing, id: OrderId, extra: bool)
    requires ClearsAt(m, c) && id in m.active
    ensures AheadIds(m.active, m.active[id]) <= Lots(m.active).Keys && TierIds(m.active, m.active[id]) <= Lots(m.active).Keys
    ensures ExecutesTier(m, c, id, extra) <==>
              SharesTier(Executed(m, c, ProRataTime, id), m.active[id].quantity, Total(Lots(m.active), AheadIds(m.active, m.active[id])),
                         Total(Lots(m.active), TierIds(m.active, m.active[id])), c.executableQuantity, m.definition.incrementLots, extra)
  {
    hide ClearsAt, SharesTier, Executed, TierBefore, SameTier;
    TiersAreActive(m.active, m.active[id]);
  }

  lemma AsAuctionOrderIs(order: CallAuctionOrderSnapshot)
    ensures AsAuctionOrder(order).quantity == order.quantity
  {
  }

  lemma SpansAre(orders: seq<AuctionOrder>, side: Side, i: nat, a: nat, b: nat)
    requires TierSpans(orders, side, i, a, b)
    ensures a <= i < b <= |orders|
  {
  }

  lemma ListsRun(orders: seq<AuctionOrder>, active: Active, ids: set<OrderId>, side: Side)
    requires Lists(orders, active, ids, side)
    ensures RunsInOrder(orders, side)
  {
    InPriorityMeans(orders, side);
  }

  lemma SideCanShare(m: BookModel, c: AuctionClearing, side: Side)
    requires ClearsAt(m, c)
    ensures m.definition.Valid() && m.definition.incrementLots >= 1
    ensures ProRataReady(SideOrders(m.active, side), side, c.price, c.executableQuantity, m.definition.incrementLots)
    ensures SideShares(m, side, c, ProRataTime) == ProRataShares(SideOrders(m.active, side), side, c.price, c.executableQuantity, m.definition.incrementLots)
  {
    ClearingFacts(m, c);
    BookAllocates(m, c, ProRataTime);
    assert Grid(m).Valid() && WellFormed(c);
    hide ClearsAt, CanAllocate, ProRataReady, SideOrders, ProRataShares, InstrumentDefinition.Valid, BookModel.Valid;
    CanAllocateIsReady(SideOrders(m.active, Buy), SideOrders(m.active, Sell), Grid(m), c, ProRataTime, m.definition.incrementLots, m.limits.maxActiveOrders);
    match side case Buy => case Sell =>
  }
}
