/** Committing an uncross order by order: what applying a prefix of fills leaves, and that all
    fills and cancellations together leave exactly the uncrossed book. */
module UncrossSteps {
  import opened AbstractBook
  import opened Allocation
  import opened BookInterest
  import opened Clearing
  import opened Domain
  import opened Pairing
  import opened Uncross
  import opened UncrossLaws

  /** Lots of one order among the first `n` fills. */
  ghost function FilledBy(fills: Fills, n: nat, id: OrderId): nat
    requires n <= |fills|
  {
    if n == 0 then 0 else FilledBy(fills, n - 1, id) + if fills[n - 1].orderId == id then fills[n - 1].quantityLots else 0
  }

  lemma {:induction false} FilledSplits(fills: Fills, n: nat, id: OrderId)
    requires n <= |fills|
    ensures FilledBy(fills, n, id) + FilledFrom(fills, n, id) == Filled(fills, id)
  {
    if n > 0 {
      FilledSplits(fills, n - 1, id);
    }
  }

  lemma {:induction false} NotYetFilled(fills: Fills, n: nat, id: OrderId)
    requires n <= |fills| && forall k {:trigger fills[k]} :: 0 <= k < n ==> fills[k].orderId != id
    ensures FilledBy(fills, n, id) == 0
  {
    if n > 0 { NotYetFilled(fills, n - 1, id); }
  }

  /** The active orders once the first `n` fills have been applied. */
  ghost function FillsApplied(active: Active, fills: Fills, n: nat): Active
    requires n <= |fills|
  {
    map id | id in active && FilledBy(fills, n, id) < active[id].quantity ::
      active[id].(quantity := active[id].quantity - FilledBy(fills, n, id))
  }

  lemma AppliedAt(active: Active, fills: Fills, n: nat, id: OrderId)
    requires n <= |fills|
    ensures id in FillsApplied(active, fills, n) <==> id in active && FilledBy(fills, n, id) < active[id].quantity
    ensures id in FillsApplied(active, fills, n) ==>
              FillsApplied(active, fills, n)[id] == active[id].(quantity := active[id].quantity - FilledBy(fills, n, id))
  {
  }

  lemma NothingApplied(active: Active, fills: Fills)
    ensures FillsApplied(active, fills, 0) == active
  {
  }

  /** A fill of a distinct order removes it when complete and reduces it otherwise. */
  lemma NextFill(active: Active, fills: Fills, n: nat)
    requires n < |fills| && DistinctFills(fills)
    requires fills[n].orderId in active && fills[n].quantityLots <= active[fills[n].orderId].quantity
    ensures var before, fill := FillsApplied(active, fills, n), fills[n];
            && fill.orderId in before && before[fill.orderId] == active[fill.orderId]
            && FillsApplied(active, fills, n + 1) ==
                 if fill.quantityLots == active[fill.orderId].quantity then before - {fill.orderId}
                 else before[fill.orderId := active[fill.orderId].(quantity := active[fill.orderId].quantity - fill.quantityLots)]
  {
    var before, after, fill := FillsApplied(active, fills, n), FillsApplied(active, fills, n + 1), fills[n];
    NotYetFilled(fills, n, fill.orderId);
    forall id | id in active
      ensures FilledBy(fills, n + 1, id) == if id == fill.orderId then fill.quantityLots else FilledBy(fills, n, id)
    {
    }
    AppliedAt(active, fills, n, fill.orderId);
    forall id: OrderId
      ensures id in after <==> id in active && (if id == fill.orderId then fill.quantityLots < active[id].quantity else id in before)
      ensures id in after && id != fill.orderId ==> after[id] == before[id]
    {
      AppliedAt(active, fills, n, id);
      AppliedAt(active, fills, n + 1, id);
    }
    AppliedAt(active, fills, n + 1, fill.orderId);
    hide FillsApplied, FilledBy;
  }

  /** Fills of an uncross are of distinct active orders, within their leaves. */
  lemma SideFillsFit(m: BookModel, side: Side, c: AuctionClearing, allocation: AuctionAllocationPolicy)
    requires ClearsAt(m, c)
    ensures var fills := SideFills(m, side, c, allocation);
            && DistinctFills(fills) && ActiveFills(m.active, fills, side)
            && forall k {:trigger fills[k]} :: 0 <= k < |fills| ==>
                 && fills[k].orderId in m.active && fills[k].quantityLots == Executed(m, c, allocation, fills[k].orderId) <= m.active[fills[k].orderId].quantity
  {
    var fills := SideFills(m, side, c, allocation);
    SideFillsAreActive(m, side, c, allocation);
    SideFillsDistinct(m, side, c, allocation);
    hide ClearsAt, SideFills, ActiveFills;
    forall k | 0 <= k < |fills|
      ensures fills[k].orderId in m.active && fills[k].quantityLots == Executed(m, c, allocation, fills[k].orderId) <= m.active[fills[k].orderId].quantity
    {
      FillIsExecution(m, side, c, allocation, k);
    }
  }

  lemma FillIsExecution(m: BookModel, side: Side, c: AuctionClearing, allocation: AuctionAllocationPolicy, k: nat)
    requires ClearsAt(m, c) && k < |SideFills(m, side, c, allocation)| && DistinctFills(SideFills(m, side, c, allocation))
    requires ActiveFills(m.active, SideFills(m, side, c, allocation), side)
    ensures var fill := SideFills(m, side, c, allocation)[k];
            fill.orderId in m.active && fill.quantityLots == Executed(m, c, allocation, fill.orderId) <= m.active[fill.orderId].quantity
  {
    hide ClearsAt, SideFills;
    var fills := SideFills(m, side, c, allocation);
    assert fills[k].orderId in m.active && m.active[fills[k].orderId].side == side;
    FilledAt(fills, 0, k);
    ExecutedIsShare(m, c, allocation, fills[k].orderId);
  }

  lemma SideFillsDistinct(m: BookModel, side: Side, c: AuctionClearing, allocation: AuctionAllocationPolicy)
    requires ClearsAt(m, c)
    ensures DistinctFills(SideFills(m, side, c, allocation))
    ensures FromSources(SideFills(m, side, c, allocation), SideOrders(m.active, side), SideShares(m, side, c, allocation), |SideOrders(m.active, side)|)
  {
    var orders, shares := SideOrders(m.active, side), SideShares(m, side, c, allocation);
    SideFillsAreActive(m, side, c, allocation);
    SideIsListed(m, side);
    ListsAreDistinct(orders, m.active, SideIds(m.active, side), side);
    FillsOfSources(orders, shares, |orders|);
    hide ClearsAt, SideShares, SideOrders, Lists;
  }

  /** An order of one side is not among the fills of the other. */
  lemma OtherSideUnfilled(active: Active, fills: Fills, side: Side, id: OrderId)
    requires ActiveFills(active, fills, side) && id in active && active[id].side != side
    ensures FilledBy(fills, |fills|, id) == 0
  {
    NotYetFilled(fills, |fills|, id);
  }

  /** After both sides' fills, an order has what it did not execute, if anything. */
  lemma BothSidesApplied(m: BookModel, c: AuctionClearing, allocation: AuctionAllocationPolicy, id: OrderId)
    requires ClearsAt(m, c)
    ensures var buys, sells := SideFills(m, Buy, c, allocation), SideFills(m, Sell, c, allocation);
            var after := FillsApplied(FillsApplied(m.active, buys, |buys|), sells, |sells|);
            && (id in after <==> id in m.active && Executed(m, c, allocation, id) < m.active[id].quantity)
            && (id in after ==> after[id] == m.active[id].(quantity := m.active[id].quantity - Executed(m, c, allocation, id)))
  {
    hide ClearsAt, SideFills, FillsApplied;
    var buys, sells := SideFills(m, Buy, c, allocation), SideFills(m, Sell, c, allocation);
    AppliedAt(m.active, buys, |buys|, id);
    AppliedAt(FillsApplied(m.active, buys, |buys|), sells, |sells|, id);
    if id in m.active {
      SideFillsAreActive(m, Buy, c, allocation);
      SideFillsAreActive(m, Sell, c, allocation);
      FilledSplits(buys, |buys|, id);
      FilledSplits(sells, |sells|, id);
      if m.active[id].side == Buy {
        OtherSideUnfilled(m.active, sells, Sell, id);
      } else {
        OtherSideUnfilled(m.active, buys, Buy, id);
      }
    }
  }

  lemma {:induction false} CancelledMeansPresent(cancellations: seq<CallAuctionCancellation>, id: OrderId)
    ensures id in CancelledIds(cancellations) <==> CancelledLots(cancellations, id) > 0
  {
    if cancellations != [] {
      var n := |cancellations| - 1;
      CancelledMeansPresent(cancellations[..n], id);
      if id in CancelledIds(cancellations[..n]) {
        var i :| 0 <= i < n && cancellations[..n][i].orderId == id;
        assert cancellations[i].orderId == id;
      }
      if id in CancelledIds(cancellations) && cancellations[n].orderId != id {
        var i :| 0 <= i < |cancellations| && cancellations[i].orderId == id;
        assert cancellations[..n][i].orderId == id;
      }
      assert cancellations[n].orderId in CancelledIds(cancellations);
    }
  }

  ghost function Cancellations(m: BookModel, c: AuctionClearing, policy: CallAuctionUncrossPolicy): seq<CallAuctionCancellation>
    requires ClearsAt(m, c)
  {
    SideRemainders(m, Buy, c, policy) + SideRemainders(m, Sell, c, policy)
  }

  /** The cancelled orders are exactly the short ones whose remainder the policy cancels. */
  lemma CancelledIs(m: BookModel, c: AuctionClearing, policy: CallAuctionUncrossPolicy, id: OrderId)
    requires ClearsAt(m, c)
    ensures id in m.active ==>
              (id in CancelledIds(Cancellations(m, c, policy)) <==>
               Executed(m, c, policy.allocation, id) < m.active[id].quantity && policy.remainder.Cancels(m.active[id].constraint))
  {
    hide ClearsAt, SideRemainders, CancelledIds, CallAuctionRemainderPolicy.Cancels;
    if id in m.active {
      CancelledMeansPresent(Cancellations(m, c, policy), id);
      CancelledConcat(SideRemainders(m, Buy, c, policy), SideRemainders(m, Sell, c, policy), id);
      SideCancels(m, Buy, c, policy, id);
      SideCancels(m, Sell, c, policy, id);
      ExecutedIsShare(m, c, policy.allocation, id);
    }
  }

  /** The order behind each cancellation of one side, and which cancellation it is. */
  lemma {:induction false} RemainderAt(active: Active, orders: seq<AuctionOrder>, shares: seq<nat>, policy: CallAuctionRemainderPolicy, n: nat, k: nat)
    returns (i: nat)
    requires n <= |orders| && WithinLeaves(shares, orders) && RestingOrders(active, orders) && k < |Remainders(active, orders, shares, policy, n)|
    ensures i < n && shares[i] < orders[i].quantity && policy.Cancels(orders[i].constraint)
    ensures orders[i].orderId in active && shares[i] < active[orders[i].orderId].quantity
    ensures Remainders(active, orders, shares, policy, n)[k] == RemainderOf(active[orders[i].orderId], shares[i])
    ensures k == |Remainders(active, orders, shares, policy, i)|
  {
    if k < |Remainders(active, orders, shares, policy, n - 1)| {
      i := RemainderAt(active, orders, shares, policy, n - 1, k);
    } else {
      i := n - 1;
    }
  }

  /** A cancellation is of an active order, for exactly what it did not execute. */
  ghost predicate CancellationIs(m: BookModel, c: AuctionClearing, allocation: AuctionAllocationPolicy, r: CallAuctionCancellation)
    requires ClearsAt(m, c)
  {
    && r.orderId in m.active
    && var order, executed := m.active[r.orderId], Executed(m, c, allocation, r.orderId);
       && executed < order.quantity
       && r == CallAuctionCancellation(r.orderId, order.accountId, order.side, order.constraint, order.quantity - executed, executed)
  }

  lemma SideCancellationIs(m: BookModel, side: Side, c: AuctionClearing, policy: CallAuctionUncrossPolicy, k: nat) returns (i: nat)
    requires ClearsAt(m, c) && k < |SideRemainders(m, side, c, policy)|
    ensures var r := SideRemainders(m, side, c, policy)[k];
            && CancellationIs(m, c, policy.allocation, r) && r.side == side
            && i < |SideOrders(m.active, side)| && r.orderId == SideOrders(m.active, side)[i].orderId
    ensures m.definition.Valid() && WithinLeaves(SideShares(m, side, c, policy.allocation), SideOrders(m.active, side))
            && RestingOrders(m.active, SideOrders(m.active, side))
            && k == |Remainders(m.active, SideOrders(m.active, side), SideShares(m, side, c, policy.allocation), policy.remainder, i)|
  {
    hide ClearsAt, SideShares, SideOrders, Executed, IsEligible, BookModel.Valid, WithinLeaves, InPriority;
    ClearingFacts(m, c);
    SideIsListed(m, side);
    SideFillsAreActive(m, side, c, policy.allocation);
    var orders, shares := SideOrders(m.active, side), SideShares(m, side, c, policy.allocation);
    ListsAreDistinct(orders, m.active, SideIds(m.active, side), side);
    i := RemainderAt(m.active, orders, shares, policy.remainder, |orders|, k);
    hide Remainders;
    var id := orders[i].orderId;
    assert id in Ids(orders);
    OrderFacts(m, id);
    ExecutedIsShare(m, c, policy.allocation, id);
    assert Position(m, id) == i;
  }

  lemma CancellationsAreSound(m: BookModel, c: AuctionClearing, policy: CallAuctionUncrossPolicy)
    requires ClearsAt(m, c)
    ensures forall k {:trigger Cancellations(m, c, policy)[k]} :: 0 <= k < |Cancellations(m, c, policy)| ==>
              CancellationIs(m, c, policy.allocation, Cancellations(m, c, policy)[k])
    ensures forall j, k :: 0 <= j < k < |Cancellations(m, c, policy)| ==> Cancellations(m, c, policy)[j].orderId != Cancellations(m, c, policy)[k].orderId
  {
    hide ClearsAt, SideRemainders, CancellationIs, SideOrders, SideShares, Remainders, RestingOrders, WithinLeaves, BookModel.Valid;
    var buys, sells, all := SideRemainders(m, Buy, c, policy), SideRemainders(m, Sell, c, policy), Cancellations(m, c, policy);
    assert all == buys + sells;
    forall k | 0 <= k < |all| ensures CancellationIs(m, c, policy.allocation, all[k]) {
      if k < |buys| { var i := SideCancellationIs(m, Buy, c, policy, k); } else { var i := SideCancellationIs(m, Sell, c, policy, k - |buys|); }
    }
    forall j, k | 0 <= j < k < |all| ensures all[j].orderId != all[k].orderId {
      if j < |buys| {
        var i := SideCancellationIs(m, Buy, c, policy, j);
        if k < |buys| {
          DistinctOnSide(m, Buy, c, policy, j, k);
        } else {
          var l := SideCancellationIs(m, Sell, c, policy, k - |buys|);
          SidesDiffer(m, c, policy.allocation, all[j], all[k]);
        }
      } else {
        DistinctOnSide(m, Sell, c, policy, j - |buys|, k - |buys|);
      }
    }
  }

  lemma SidesDiffer(m: BookModel, c: AuctionClearing, allocation: AuctionAllocationPolicy, a: CallAuctionCancellation, b: CallAuctionCancellation)
    requires ClearsAt(m, c) && CancellationIs(m, c, allocation, a) && CancellationIs(m, c, allocation, b) && a.side != b.side
    ensures a.orderId != b.orderId
  {
    hide ClearsAt, Executed;
  }

  lemma DistinctOnSide(m: BookModel, side: Side, c: AuctionClearing, policy: CallAuctionUncrossPolicy, j: nat, k: nat)
    requires ClearsAt(m, c) && j < k < |SideRemainders(m, side, c, policy)|
    ensures SideRemainders(m, side, c, policy)[j].orderId != SideRemainders(m, side, c, policy)[k].orderId
  {
    hide ClearsAt, SideRemainders, CancellationIs, SideOrders, SideShares, Remainders, RestingOrders, WithinLeaves, BookModel.Valid, InPriority, Executed;
    var i := SideCancellationIs(m, side, c, policy, j);
    var l := SideCancellationIs(m, side, c, policy, k);
    ClearingFacts(m, c);
    SideIsListed(m, side);
    ListsAreDistinct(SideOrders(m.active, side), m.active, SideIds(m.active, side), side);
  }

  /** Applying every fill and then every cancellation leaves the uncrossed book. */
  lemma StepsReachUncrossed(m: BookModel, c: AuctionClearing, policy: CallAuctionUncrossPolicy)
    requires ClearsAt(m, c)
    ensures var buys, sells := SideFills(m, Buy, c, policy.allocation), SideFills(m, Sell, c, policy.allocation);
            FillsApplied(FillsApplied(m.active, buys, |buys|), sells, |sells|) - CancelledIds(Cancellations(m, c, policy)) == ActiveAfter(m, c, policy)
  {
    hide ClearsAt, SideFills, FillsApplied, ActiveAfter, CancelledIds, Cancellations, Executed, CallAuctionRemainderPolicy.Cancels;
    var buys, sells := SideFills(m, Buy, c, policy.allocation), SideFills(m, Sell, c, policy.allocation);
    var applied := FillsApplied(FillsApplied(m.active, buys, |buys|), sells, |sells|);
    var left := applied - CancelledIds(Cancellations(m, c, policy));
    forall id: OrderId
      ensures id in left <==> id in ActiveAfter(m, c, policy)
      ensures id in left ==> left[id] == ActiveAfter(m, c, policy)[id]
    {
      BothSidesApplied(m, c, policy.allocation, id);
      CancelledIs(m, c, policy, id);
      RemainingOrder(m, c, policy, id);
    }
  }

  /** Once every fill is applied, each cancelled order is still active when its turn comes. */
  lemma CancelledIsActive(m: BookModel, c: AuctionClearing, policy: CallAuctionUncrossPolicy, k: nat)
    requires ClearsAt(m, c) && k < |Cancellations(m, c, policy)|
    ensures var buys, sells := SideFills(m, Buy, c, policy.allocation), SideFills(m, Sell, c, policy.allocation);
            var applied := FillsApplied(FillsApplied(m.active, buys, |buys|), sells, |sells|);
            Cancellations(m, c, policy)[k].orderId in applied - CancelledIds(Cancellations(m, c, policy)[..k])
  {
    hide ClearsAt, SideFills, FillsApplied, Cancellations, Executed;
    var cancellations := Cancellations(m, c, policy);
    CancellationsAreSound(m, c, policy);
    assert CancellationIs(m, c, policy.allocation, cancellations[k]);
    BothSidesApplied(m, c, policy.allocation, cancellations[k].orderId);
    hide CancellationIs;
    forall j | 0 <= j < k ensures cancellations[..k][j].orderId != cancellations[k].orderId {
      assert cancellations[..k][j] == cancellations[j];
    }
  }

  // ----- the remainder policies, order by order

  lemma PolicyCancels(policy: CallAuctionRemainderPolicy, constraint: AuctionOrderConstraint)
    ensures policy.Cancels(constraint) <==> policy == CancelAll || (policy == CancelMarket && constraint.Market?)
  {
  }

  /** An order is cancelled exactly when it is left short and its policy is to cancel every remainder, or
      every market remainder and it is a market order; the cancellation carries what it did not execute. */
  lemma CancelledByPolicy(m: BookModel, c: AuctionClearing, policy: CallAuctionUncrossPolicy, id: OrderId)
    requires ClearsAt(m, c)
    ensures id in CancelledIds(Cancellations(m, c, policy)) <==>
              && id in m.active && Executed(m, c, policy.allocation, id) < m.active[id].quantity
              && (policy.remainder == CancelAll || (policy.remainder == CancelMarket && m.active[id].constraint.Market?))
    ensures forall k :: 0 <= k < |Cancellations(m, c, policy)| && Cancellations(m, c, policy)[k].orderId == id ==>
              && id in m.active
              && var executed := Executed(m, c, policy.allocation, id);
                 && executed < m.active[id].quantity
                 && Cancellations(m, c, policy)[k] == CallAuctionCancellation(id, m.active[id].accountId, m.active[id].side, m.active[id].constraint,
                                                                              m.active[id].quantity - executed, executed)
  {
    hide ClearsAt, Cancellations, Executed, CallAuctionRemainderPolicy.Cancels;
    CancelledIs(m, c, policy, id);
    CancellationsAreSound(m, c, policy);
    if id in m.active { PolicyCancels(policy.remainder, m.active[id].constraint); }
  }

  /** What an uncross leaves: under `RetainAll` every order left short, under `CancelMarket` every limit
      order left short and no market order, under `CancelAll` nothing; each with what it did not execute. */
  lemma UncrossedByPolicy(m: BookModel, c: AuctionClearing, policy: CallAuctionUncrossPolicy)
    requires ClearsAt(m, c) && m.stateRevision < U64_MAX && TradeIdsFit(m, c, policy.allocation)
    ensures var left := Uncrossed(m, c, policy).active;
            && (match policy.remainder
                case RetainAll => forall id :: id in left <==> id in m.active && Executed(m, c, policy.allocation, id) < m.active[id].quantity
                case CancelMarket =>
                  forall id :: id in left <==>
                    id in m.active && Executed(m, c, policy.allocation, id) < m.active[id].quantity && m.active[id].constraint.Limit?
                case CancelAll => left == map[])
            && forall id :: id in left ==>
                 id in m.active && left[id] == m.active[id].(quantity := m.active[id].quantity - Executed(m, c, policy.allocation, id))
  {
    hide ClearsAt, TradeIdsFit, Executed, CallAuctionRemainderPolicy.Cancels, ActiveAfter, PairsOf;
    forall id: OrderId
      ensures id in ActiveAfter(m, c, policy) <==>
                && id in m.active && Executed(m, c, policy.allocation, id) < m.active[id].quantity
                && !(policy.remainder == CancelAll || (policy.remainder == CancelMarket && m.active[id].constraint.Market?))
      ensures id in ActiveAfter(m, c, policy) ==>
                ActiveAfter(m, c, policy)[id] == m.active[id].(quantity := m.active[id].quantity - Executed(m, c, policy.allocation, id))
    {
      RemainingOrder(m, c, policy, id);
      if id in m.active { PolicyCancels(policy.remainder, m.active[id].constraint); }
    }
  }
}
