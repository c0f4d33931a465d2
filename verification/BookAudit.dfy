/** The book's own audit. It walks every price queue and account lane from its head and compares
    what it finds with the cached aggregates and the instrument's rules. A sound book always passes,
    and what passes is sound but for what the audit does not look at. */
module BookAudit {
  import opened AbstractBook
  import opened AuctionBook
  import opened Chains
  import opened Domain
  import opened RestingIndex
  import opened SetSums

  // ----- one walk

  ghost function PathSet(path: seq<OrderId>): set<OrderId> {
    set i | 0 <= i < |path| :: path[i]
  }

  /** A visited node is of this list, and its links are its neighbours on the path. */
  ghost predicate OnPath(c: Chain, key: ListKey, path: seq<OrderId>, i: nat)
    requires i < |path|
  {
    && path[i] in c && c[path[i]].key == key
    && c[path[i]].previous == (if i == 0 then None else Some(path[i - 1]))
    && (i + 1 < |path| ==> c[path[i]].next == Some(path[i + 1]))
  }

  /** The nodes visited from the head of a list, and where the walk stands. */
  ghost predicate Trail(c: Chain, key: ListKey, q: AuctionQueue, path: seq<OrderId>, current: Option<OrderId>, previous: Option<OrderId>) {
    && (forall i {:trigger OnPath(c, key, path, i)} :: 0 <= i < |path| ==> OnPath(c, key, path, i))
    && (forall i, j :: 0 <= i < j < |path| ==> path[i] != path[j])
    && if path == [] then current == q.head && previous == None
       else q.head == Some(path[0]) && path[|path| - 1] in c && current == c[path[|path| - 1]].next && previous == Some(path[|path| - 1])
  }

  ghost function TrailTotal(c: Chain, path: seq<OrderId>): nat {
    if path == [] then 0
    else TrailTotal(c, path[..|path| - 1]) + if path[|path| - 1] in c then c[path[|path| - 1]].quantity else 0
  }

  ghost predicate Rising(c: Chain, path: seq<OrderId>) {
    forall i, j {:trigger c[path[i]], c[path[j]]} :: 0 <= i < j < |path| && path[i] in c && path[j] in c ==> c[path[i]].rank < c[path[j]].rank
  }

  /** A complete walk that found exactly the cached tail, count and total. */
  ghost predicate Walked(c: Chain, key: ListKey, q: AuctionQueue, path: seq<OrderId>) {
    Trail(c, key, q, path, None, q.tail) && |path| == q.orderCount && TrailTotal(c, path) == q.totalQuantity
  }

  lemma TrailBegins(c: Chain, key: ListKey, q: AuctionQueue)
    ensures Trail(c, key, q, [], q.head, None) && TrailTotal(c, []) == 0 && Rising(c, []) && PathSet([]) == {}
  {
  }

  lemma PathStep(path: seq<OrderId>, id: OrderId)
    ensures PathSet(path + [id]) == PathSet(path) + {id}
  {
    var longer := path + [id];
    assert longer[|path|] == id && longer[|path|] in PathSet(longer);
    forall x | x in PathSet(path) ensures x in PathSet(longer) {
      var i :| 0 <= i < |path| && path[i] == x;
      assert longer[i] == x;
    }
  }

  lemma TrailEnd(c: Chain, key: ListKey, q: AuctionQueue, path: seq<OrderId>, current: Option<OrderId>, previous: Option<OrderId>, i: nat)
    requires Trail(c, key, q, path, current, previous) && i < |path|
    ensures OnPath(c, key, path, i)
  {
  }

  /** One more node of the list, linked back to the last one, is a node not yet visited. */
  lemma TrailGrows(c: Chain, key: ListKey, q: AuctionQueue, path: seq<OrderId>, id: OrderId, previous: Option<OrderId>)
    requires Trail(c, key, q, path, Some(id), previous)
    requires id in c && c[id].key == key && c[id].previous == previous
    ensures id !in path && Trail(c, key, q, path + [id], c[id].next, Some(id))
    ensures TrailTotal(c, path + [id]) == TrailTotal(c, path) + c[id].quantity
  {
    var longer, n := path + [id], |path|;
    forall i | 0 <= i < n ensures path[i] != id {
      TrailEnd(c, key, q, path, Some(id), previous, i);
    }
    forall i | 0 <= i < |longer| ensures OnPath(c, key, longer, i) {
      if i < n { TrailEnd(c, key, q, path, Some(id), previous, i); }
    }
    assert longer[..n] == path;
  }

  lemma RisingGrows(c: Chain, path: seq<OrderId>, id: OrderId)
    requires Rising(c, path) && id in c
    requires path != [] ==> path[|path| - 1] in c && c[path[|path| - 1]].rank < c[id].rank
    ensures Rising(c, path + [id])
  {
    var longer := path + [id];
    forall i, j | 0 <= i < j < |longer| && longer[i] in c && longer[j] in c ensures c[longer[i]].rank < c[longer[j]].rank {
      if j == |path| && i < |path| - 1 { assert c[path[i]].rank < c[path[|path| - 1]].rank; }
    }
  }

  lemma {:induction false} PathSetSize(path: seq<OrderId>)
    requires forall i, j :: 0 <= i < j < |path| ==> path[i] != path[j]
    ensures |PathSet(path)| == |path|
  {
    if path == [] {
      assert PathSet(path) == {};
    } else {
      var n := |path| - 1;
      PathSetSize(path[..n]);
      PathStep(path[..n], path[n]);
      assert path == path[..n] + [path[n]];
      assert path[n] !in PathSet(path[..n]);
    }
  }

  // ----- what the walk of a described list meets

  /** On a linked and described list the walk is the list walk, and has visited what lies below. */
  lemma {:induction false} TrailIsListWalk(c: Chain, key: ListKey, q: AuctionQueue, path: seq<OrderId>, current: Option<OrderId>, previous: Option<OrderId>)
    requires Linked(c) && Describes(q, c, key) && Trail(c, key, q, path, current, previous)
    ensures OnListWalk(c, key, q, current, previous) && Lower(c, key, current) == PathSet(path)
    ensures PathSet(path) <= c.Keys && TrailTotal(c, path) == Total(NodeQuantities(c), PathSet(path))
    decreases |path|
  {
    hide Linked, Describes, OnListWalk, Lower, Trail, PathSet;
    if path == [] {
      WalkBegins(c, key, q);
      TrailBegins(c, key, q);
      EmptyTrail(c, key, q, current, previous);
      assert Total(NodeQuantities(c), {}) == 0;
    } else {
      var n := |path| - 1;
      var id := path[n];
      assert path == path[..n] + [id];
      TrailShortens(c, key, q, path, current, previous);
      var before: Option<OrderId> := if n == 0 then None else Some(path[n - 1]);
      TrailIsListWalk(c, key, q, path[..n], Some(id), before);
      WalkContinues(c, key, q, id, before);
      PathStep(path[..n], id);
      QuantityAt(c, id);
      TotalAdd(NodeQuantities(c), PathSet(path[..n]), id);
    }
  }

  lemma EmptyTrail(c: Chain, key: ListKey, q: AuctionQueue, current: Option<OrderId>, previous: Option<OrderId>)
    requires Trail(c, key, q, [], current, previous)
    ensures current == q.head && previous == None
  {
  }

  lemma TrailShortens(c: Chain, key: ListKey, q: AuctionQueue, path: seq<OrderId>, current: Option<OrderId>, previous: Option<OrderId>)
    requires Trail(c, key, q, path, current, previous) && path != []
    ensures var n := |path| - 1;
            && Trail(c, key, q, path[..n], Some(path[n]), if n == 0 then None else Some(path[n - 1]))
            && path[n] in c && current == c[path[n]].next && previous == Some(path[n])
  {
    var n := |path| - 1;
    forall i | 0 <= i < n ensures OnPath(c, key, path[..n], i) {
      TrailEnd(c, key, q, path, current, previous, i);
    }
    if n > 0 { TrailEnd(c, key, q, path, current, previous, n - 1); }
    TrailEnd(c, key, q, path, current, previous, n);
  }

  /** What the next check of a walk sees on a sound list. */
  lemma SoundStep(c: Chain, key: ListKey, q: AuctionQueue, path: seq<OrderId>, id: OrderId, previous: Option<OrderId>)
    requires Linked(c) && Describes(q, c, key) && Trail(c, key, q, path, Some(id), previous)
    ensures id in c && c[id].key == key && c[id].previous == previous && |path| < q.orderCount && id !in PathSet(path)
    ensures TrailTotal(c, path) + c[id].quantity <= q.totalQuantity
    ensures previous.Some? ==> previous.value in c && c[previous.value].rank < c[id].rank
  {
    hide Linked, Describes, OnListWalk, Lower, Trail, PathSet, Members;
    TrailIsListWalk(c, key, q, path, Some(id), previous);
    WalkContinues(c, key, q, id, previous);
    TrailSize(c, key, q, path, Some(id), previous);
    DescribesTotals(q, c, key);
    QuantityAt(c, id);
    TotalAdd(NodeQuantities(c), PathSet(path), id);
    LowerAreMembers(c, key, c[id].next);
    TotalMonotone(NodeQuantities(c), PathSet(path) + {id}, Members(c, key));
    PreviousRanksBelow(c, id);
  }

  lemma LowerAreMembers(c: Chain, key: ListKey, at: Option<OrderId>)
    ensures Lower(c, key, at) <= Members(c, key)
  {
  }

  lemma PreviousRanksBelow(c: Chain, id: OrderId)
    requires Linked(c) && id in c
    ensures c[id].previous.Some? ==> c[id].previous.value in c && c[c[id].previous.value].rank < c[id].rank
  {
    assert IsPrevious(c, c[id].previous, id);
  }

  lemma TrailSize(c: Chain, key: ListKey, q: AuctionQueue, path: seq<OrderId>, current: Option<OrderId>, previous: Option<OrderId>)
    requires Trail(c, key, q, path, current, previous)
    ensures |PathSet(path)| == |path|
    ensures PathSet(path) <= Members(c, key) && PathSet(path) <= c.Keys
  {
    PathSetSize(path);
    forall id | id in PathSet(path) ensures id in Members(c, key) {
      var i :| 0 <= i < |path| && path[i] == id;
      TrailEnd(c, key, q, path, current, previous, i);
    }
  }

  /** A sound list ends where its tail, count and total say. */
  lemma SoundEnd(c: Chain, key: ListKey, q: AuctionQueue, path: seq<OrderId>, previous: Option<OrderId>)
    requires Linked(c) && Describes(q, c, key) && Trail(c, key, q, path, None, previous)
    ensures previous == q.tail && |path| == q.orderCount && TrailTotal(c, path) == q.totalQuantity
  {
    hide Linked, Describes, OnListWalk, Lower, Trail, PathSet, Members;
    TrailIsListWalk(c, key, q, path, None, previous);
    WalkEnds(c, key, q, None, previous);
    TrailSize(c, key, q, path, None, previous);
    DescribesTotals(q, c, key);
  }

  ghost predicate PositiveQuantities(c: Chain) {
    forall id {:trigger c[id].quantity} :: id in c ==> 1 <= c[id].quantity <= U64_MAX
  }

  lemma OrdersArePositive(orders: Orders)
    ensures PositiveQuantities(PriceChain(orders)) && PositiveQuantities(LaneChain(orders))
  {
    forall id | id in orders
      ensures 1 <= PriceChain(orders)[id].quantity <= U64_MAX && 1 <= LaneChain(orders)[id].quantity <= U64_MAX
    {
      NodesAt(orders, id);
    }
  }

  lemma RoomForOne(seen: set<OrderId>, keys: set<OrderId>, id: OrderId)
    requires seen <= keys && id in keys && id !in seen
    ensures |seen| < |keys|
  {
    SubsetSize(seen + {id}, keys);
  }

  lemma UnionSize(a: set<OrderId>, b: set<OrderId>)
    requires a !! b
    ensures |a + b| == |a| + |b|
  {
  }

  // ----- what one walk determines

  /** Some walk in rising priority fits the cached queue. */
  ghost predicate QueueWalks(c: Chain, key: ListKey, q: AuctionQueue) {
    exists path {:trigger Walked(c, key, q, path)} :: Walked(c, key, q, path) && Rising(c, path)
  }

  /** Some walk fits the cached lane. */
  ghost predicate LaneWalks(c: Chain, key: ListKey, q: AuctionQueue) {
    exists path {:trigger Walked(c, key, q, path)} :: Walked(c, key, q, path)
  }

  /** Walks are determined: every trail is the beginning of every complete walk. */
  lemma {:induction false} TrailFollowsWalk(c: Chain, key: ListKey, q: AuctionQueue, walk: seq<OrderId>, path: seq<OrderId>, current: Option<OrderId>,
                                            previous: Option<OrderId>)
    requires Walked(c, key, q, walk) && Trail(c, key, q, path, current, previous)
    ensures |path| <= |walk| && path == walk[..|path|] && current == if |path| < |walk| then Some(walk[|path|]) else None
    decreases |path|
  {
    if path == [] {
      EmptyTrail(c, key, q, current, previous);
      DistinctPath(c, key, q, walk);
    } else {
      var n := |path| - 1;
      TrailShortens(c, key, q, path, current, previous);
      TrailFollowsWalk(c, key, q, walk, path[..n], Some(path[n]), if n == 0 then None else Some(path[n - 1]));
      TrailEnd(c, key, q, walk, None, q.tail, n);
      assert path == path[..n] + [path[n]];
      assert walk[..n + 1] == walk[..n] + [walk[n]];
    }
  }

  lemma {:induction false} TrailTotalGrows(c: Chain, path: seq<OrderId>, k: nat)
    requires k <= |path|
    ensures TrailTotal(c, path[..k]) <= TrailTotal(c, path)
    decreases |path|
  {
    if k == |path| {
      assert path[..k] == path;
    } else {
      assert path[..|path| - 1][..k] == path[..k];
      TrailTotalGrows(c, path[..|path| - 1], k);
    }
  }

  lemma {:induction false} PositiveTrail(c: Chain, path: seq<OrderId>)
    requires PositiveQuantities(c) && forall i :: 0 <= i < |path| ==> path[i] in c
    ensures TrailTotal(c, path) >= |path|
  {
    if path != [] {
      PositiveTrail(c, path[..|path| - 1]);
      assert path[|path| - 1] in c && c[path[|path| - 1]].quantity >= 1;
    }
  }

  lemma WalkNodes(c: Chain, key: ListKey, q: AuctionQueue, walk: seq<OrderId>)
    requires Walked(c, key, q, walk)
    ensures forall i :: 0 <= i < |walk| ==> walk[i] in c
  {
    forall i | 0 <= i < |walk| ensures walk[i] in c { TrailEnd(c, key, q, walk, None, q.tail, i); }
  }

  /** What the next check sees on a list that some walk fits. */
  lemma WalkStep(c: Chain, key: ListKey, q: AuctionQueue, walk: seq<OrderId>, path: seq<OrderId>, id: OrderId, previous: Option<OrderId>)
    requires Walked(c, key, q, walk) && Trail(c, key, q, path, Some(id), previous)
    ensures id in c && c[id].key == key && c[id].previous == previous && |path| < q.orderCount && id !in PathSet(path)
    ensures TrailTotal(c, path) + c[id].quantity <= q.totalQuantity
    ensures Rising(c, walk) && path != [] ==> path[|path| - 1] in c && c[path[|path| - 1]].rank < c[id].rank
  {
    var k := |path|;
    TrailFollowsWalk(c, key, q, walk, path, Some(id), previous);
    TrailEnd(c, key, q, walk, None, q.tail, k);
    assert walk[..k + 1][..k] == path && walk[..k + 1][k] == id;
    TrailTotalGrows(c, walk, k + 1);
    if k > 0 {
      TrailEnd(c, key, q, walk, None, q.tail, k - 1);
      TrailShortens(c, key, q, path, Some(id), previous);
      assert walk[k - 1] == path[k - 1];
    } else {
      EmptyTrail(c, key, q, Some(id), previous);
    }
    DistinctPath(c, key, q, walk);
  }

  lemma WalkEnd(c: Chain, key: ListKey, q: AuctionQueue, walk: seq<OrderId>, path: seq<OrderId>, previous: Option<OrderId>)
    requires Walked(c, key, q, walk) && Trail(c, key, q, path, None, previous)
    ensures path == walk && previous == q.tail && |path| == q.orderCount && TrailTotal(c, path) == q.totalQuantity
  {
    TrailFollowsWalk(c, key, q, walk, path, None, previous);
    assert walk[..|walk|] == walk;
    DistinctPath(c, key, q, walk);
    if path == [] { EmptyTrail(c, key, q, None, previous); } else { TrailShortens(c, key, q, path, None, previous); }
  }

  /** The ends and aggregates of a list that some walk fits are all there or all absent. */
  lemma WalkAggregates(c: Chain, key: ListKey, q: AuctionQueue, walk: seq<OrderId>)
    requires Walked(c, key, q, walk) && PositiveQuantities(c)
    ensures if q.orderCount == 0 then q.head.None? && q.tail.None? && q.totalQuantity == 0
            else q.head.Some? && q.tail.Some? && q.totalQuantity != 0
  {
    DistinctPath(c, key, q, walk);
    WalkNodes(c, key, q, walk);
    PositiveTrail(c, walk);
  }

  // ----- walking one list

  /** Walks one price queue. The orders met so far in other lists are `covered`. */
  method ValidateQueue(orders: Orders, queue: AuctionQueue, side: Side, constraint: AuctionOrderConstraint, indexed0: nat, ghost covered: set<OrderId>)
    returns (ok: bool, indexed: nat, ghost path: seq<OrderId>)
    requires covered <= orders.Keys && |covered| == indexed0 && covered !! Members(PriceChain(orders), PriceQueue(side, constraint))
    ensures ok <==> QueueWalks(PriceChain(orders), PriceQueue(side, constraint), queue)
    ensures ok ==>
              && Walked(PriceChain(orders), PriceQueue(side, constraint), queue, path) && Rising(PriceChain(orders), path)
              && indexed == indexed0 + |path|
  {
    hide *;
    ghost var c, key := PriceChain(orders), PriceQueue(side, constraint);
    ghost var walks, walk := QueueWalks(c, key, queue), [];
    OrdersArePositive(orders);
    if walks {
      walk := SomeQueueWalk(c, key, queue);
      WalkAggregates(c, key, queue, walk);
    }
    TrailBegins(c, key, queue);
    indexed, path := indexed0, [];
    if queue.orderCount == 0 {
      ok := queue.head.None? && queue.tail.None? && queue.totalQuantity == 0;
      if ok { WalkedIs(c, key, queue, path); QueueWalkIs(c, key, queue, path); }
      return;
    }
    if queue.head.None? || queue.tail.None? || queue.totalQuantity == 0 {
      return false, indexed, path;
    }
    var current, previous: Option<OrderId>, previousSequence: Option<u64>, total: u128, count: nat := queue.head, None, None, 0, 0;
    while current.Some?
      invariant Trail(c, key, queue, path, current, previous) && Rising(c, path)
      invariant total == TrailTotal(c, path) && count == |path| <= queue.orderCount && indexed == indexed0 + count
      invariant previous == if path == [] then None else Some(path[|path| - 1])
      invariant path != [] ==> path[|path| - 1] in c && previousSequence == Some(c[path[|path| - 1]].rank)
      invariant path == [] ==> previousSequence.None?
      decreases queue.orderCount - count
    {
      var id := current.value;
      TrailSize(c, key, queue, path, current, previous);
      UnionSize(covered, PathSet(path));
      if walks {
        WalkStep(c, key, queue, walk, path, id, previous);
        MemberIs(c, key, id);
        RoomForOne(covered + PathSet(path), c.Keys, id);
      }
      if count >= queue.orderCount || indexed >= |orders| || id !in orders {
        return false, indexed, path;
      }
      NodesAt(orders, id);
      var r := orders[id];
      if r.order.side != side || r.order.constraint != constraint || r.previous != previous
         || (previousSequence.Some? && previousSequence.value >= r.order.prioritySequence) || total + r.order.quantity > U128_MAX {
        return false, indexed, path;
      }
      TrailGrows(c, key, queue, path, id, previous);
      RisingGrows(c, path, id);
      path := path + [id];
      total, count, indexed := total + r.order.quantity, count + 1, indexed + 1;
      previous, previousSequence, current := Some(id), Some(r.order.prioritySequence), r.next;
    }
    if walks { WalkEnd(c, key, queue, walk, path, previous); }
    ok := previous == queue.tail && count == queue.orderCount && total == queue.totalQuantity;
    if ok { WalkedIs(c, key, queue, path); QueueWalkIs(c, key, queue, path); }
  }

  lemma SomeQueueWalk(c: Chain, key: ListKey, q: AuctionQueue) returns (walk: seq<OrderId>)
    requires QueueWalks(c, key, q)
    ensures Walked(c, key, q, walk) && Rising(c, walk)
  {
    hide Walked, Rising;
    walk :| Walked(c, key, q, walk) && Rising(c, walk);
  }

  lemma SomeLaneWalk(c: Chain, key: ListKey, q: AuctionQueue) returns (walk: seq<OrderId>)
    requires LaneWalks(c, key, q)
    ensures Walked(c, key, q, walk)
  {
    hide Walked;
    walk :| Walked(c, key, q, walk);
  }

  lemma QueueWalkIs(c: Chain, key: ListKey, q: AuctionQueue, walk: seq<OrderId>)
    requires Walked(c, key, q, walk) && Rising(c, walk)
    ensures QueueWalks(c, key, q)
  {
    hide Walked, Rising;
  }

  lemma LaneWalkIs(c: Chain, key: ListKey, q: AuctionQueue, walk: seq<OrderId>)
    requires Walked(c, key, q, walk)
    ensures LaneWalks(c, key, q)
  {
    hide Walked;
  }

  lemma WalkedIs(c: Chain, key: ListKey, q: AuctionQueue, path: seq<OrderId>)
    ensures Walked(c, key, q, path) <==> Trail(c, key, q, path, None, q.tail) && |path| == q.orderCount && TrailTotal(c, path) == q.totalQuantity
  {
    hide Trail, TrailTotal;
  }

  lemma MemberIs(c: Chain, key: ListKey, id: OrderId)
    ensures id in Members(c, key) <==> id in c && c[id].key == key
  {
  }

  /** Walks one account lane; its order is not the audit's business. */
  method ValidateLane(orders: Orders, lane: AuctionQueue, accountId: AccountId, side: Side, indexed0: nat, ghost covered: set<OrderId>)
    returns (ok: bool, indexed: nat, ghost path: seq<OrderId>)
    requires covered <= orders.Keys && |covered| == indexed0 && covered !! Members(LaneChain(orders), AccountLane(accountId, side))
    ensures ok <==> LaneWalks(LaneChain(orders), AccountLane(accountId, side), lane)
    ensures ok ==> Walked(LaneChain(orders), AccountLane(accountId, side), lane, path) && indexed == indexed0 + |path|
  {
    hide *;
    ghost var c, key := LaneChain(orders), AccountLane(accountId, side);
    ghost var walks, walk := LaneWalks(c, key, lane), [];
    OrdersArePositive(orders);
    if walks {
      walk := SomeLaneWalk(c, key, lane);
      WalkAggregates(c, key, lane, walk);
    }
    TrailBegins(c, key, lane);
    indexed, path := indexed0, [];
    if lane.orderCount == 0 {
      ok := lane.head.None? && lane.tail.None? && lane.totalQuantity == 0;
      if ok { WalkedIs(c, key, lane, path); LaneWalkIs(c, key, lane, path); }
      return;
    }
    if lane.head.None? || lane.tail.None? || lane.totalQuantity == 0 {
      return false, indexed, path;
    }
    var current, previous: Option<OrderId>, total: u128, count: nat := lane.head, None, 0, 0;
    while current.Some?
      invariant Trail(c, key, lane, path, current, previous)
      invariant total == TrailTotal(c, path) && count == |path| <= lane.orderCount && indexed == indexed0 + count
      decreases lane.orderCount - count
    {
      var id := current.value;
      TrailSize(c, key, lane, path, current, previous);
      UnionSize(covered, PathSet(path));
      if walks {
        WalkStep(c, key, lane, walk, path, id, previous);
        MemberIs(c, key, id);
        RoomForOne(covered + PathSet(path), c.Keys, id);
      }
      if count >= lane.orderCount || indexed >= |orders| || id !in orders {
        return false, indexed, path;
      }
      NodesAt(orders, id);
      var r := orders[id];
      if r.order.accountId != accountId || r.order.side != side || r.accountPrevious != previous || total + r.order.quantity > U128_MAX {
        return false, indexed, path;
      }
      TrailGrows(c, key, lane, path, id, previous);
      path := path + [id];
      total, count, indexed := total + r.order.quantity, count + 1, indexed + 1;
      previous, current := Some(id), r.accountNext;
    }
    if walks { WalkEnd(c, key, lane, walk, path, previous); }
    ok := previous == lane.tail && count == lane.orderCount && total == lane.totalQuantity;
    if ok { WalkedIs(c, key, lane, path); LaneWalkIs(c, key, lane, path); }
  }

  // ----- walking every list

  type Paths = map<ListKey, seq<OrderId>>

  /** The orders covered so far are exactly those on the paths walked so far. */
  ghost predicate Covers(c: Chain, covered: set<OrderId>, paths: Paths) {
    && covered <= c.Keys
    && (forall id {:trigger id in covered} :: id in covered ==> c[id].key in paths && id in paths[c[id].key])
    && (forall k, i {:trigger paths[k][i]} :: k in paths && 0 <= i < |paths[k]| ==> paths[k][i] in covered && c[paths[k][i]].key == k)
  }

  lemma NothingCovered(c: Chain)
    ensures Covers(c, {}, map[])
  {
  }

  lemma UnwalkedIsUncovered(c: Chain, covered: set<OrderId>, paths: Paths, key: ListKey)
    requires Covers(c, covered, paths) && key !in paths
    ensures covered <= c.Keys && covered !! Members(c, key)
  {
  }

  lemma CoversNext(c: Chain, covered: set<OrderId>, paths: Paths, key: ListKey, q: AuctionQueue, path: seq<OrderId>)
    requires Covers(c, covered, paths) && key !in paths && Walked(c, key, q, path)
    ensures Covers(c, covered + PathSet(path), paths[key := path]) && |covered + PathSet(path)| == |covered| + |path|
  {
    TrailSize(c, key, q, path, None, q.tail);
    UnwalkedIsUncovered(c, covered, paths, key);
    UnionSize(covered, PathSet(path));
    var now, grown := covered + PathSet(path), paths[key := path];
    hide Walked, Trail;
    forall k, i | k in grown && 0 <= i < |grown[k]| ensures grown[k][i] in now && c[grown[k][i]].key == k {
      if k == key { assert path[i] in PathSet(path); } else { assert grown[k][i] == paths[k][i]; }
    }
    forall id | id in now ensures c[id].key in grown && id in grown[c[id].key] {
      if id in PathSet(path) { assert id in Members(c, key); }
    }
  }

  lemma FullCoverage(c: Chain, covered: set<OrderId>, paths: Paths, key: ListKey)
    requires Covers(c, covered, paths) && |covered| == |c|
    ensures covered == c.Keys && Members(c, key) == if key in paths then PathSet(paths[key]) else {}
  {
    SubsetIsWhole(covered, c.Keys);
    if key in paths {
      forall id ensures id in Members(c, key) <==> id in PathSet(paths[key]) {
        if id in Members(c, key) { assert id in covered; }
      }
    }
    forall id | id in Members(c, key) ensures key in paths { assert id in covered; }
  }

  lemma SubsetIsWhole(a: set<OrderId>, b: set<OrderId>)
    requires a <= b && |a| == |b|
    ensures a == b
  {
    assert |b - a| == 0 && b == a + (b - a);
  }

  lemma {:induction false} TrailTotalIs(c: Chain, path: seq<OrderId>)
    requires PathSet(path) <= c.Keys && forall i, j :: 0 <= i < j < |path| ==> path[i] != path[j]
    ensures TrailTotal(c, path) == Total(NodeQuantities(c), PathSet(path))
  {
    if path == [] {
      assert PathSet(path) == {};
    } else {
      var n := |path| - 1;
      PathStep(path[..n], path[n]);
      assert path == path[..n] + [path[n]];
      TrailTotalIs(c, path[..n]);
      TotalAdd(NodeQuantities(c), PathSet(path[..n]), path[n]);
    }
  }

  ghost predicate LinksAt(c: Chain, id: OrderId)
    requires id in c
  {
    IsPrevious(c, c[id].previous, id) && IsNext(c, c[id].next, id)
  }

  lemma OnRisingPath(c: Chain, key: ListKey, q: AuctionQueue, path: seq<OrderId>, i: nat, j: nat)
    requires Walked(c, key, q, path) && Rising(c, path) && i < |path| && j < |path|
    ensures path[i] in c && path[j] in c && (c[path[i]].rank < c[path[j]].rank <==> i < j)
  {
    TrailEnd(c, key, q, path, None, q.tail, i);
    TrailEnd(c, key, q, path, None, q.tail, j);
    if i < j { assert c[path[i]].rank < c[path[j]].rank; } else if j < i { assert c[path[j]].rank < c[path[i]].rank; }
  }

  lemma PathPosition(path: seq<OrderId>, id: OrderId) returns (i: nat)
    requires id in PathSet(path)
    ensures i < |path| && path[i] == id
  {
    i :| i < |path| && path[i] == id;
  }

  /** On a rising path through a whole list every link is to the nearest neighbour. */
  lemma RisingLinks(c: Chain, key: ListKey, q: AuctionQueue, path: seq<OrderId>, i: nat)
    requires Walked(c, key, q, path) && Rising(c, path) && Members(c, key) == PathSet(path) && i < |path|
    ensures path[i] in c && LinksAt(c, path[i])
  {
    var id := path[i];
    TrailEnd(c, key, q, path, None, q.tail, i);
    assert i + 1 == |path| ==> c[id].next == None;
    if i > 0 { OnRisingPath(c, key, q, path, i - 1, i); TrailEnd(c, key, q, path, None, q.tail, i - 1); }
    if i + 1 < |path| { OnRisingPath(c, key, q, path, i, i + 1); TrailEnd(c, key, q, path, None, q.tail, i + 1); }
    hide Walked, Rising, Trail, PathSet, Members, OnPath;
    forall j: OrderId | Before(c, j, id) ensures i > 0 && c[j].rank <= c[path[i - 1]].rank {
      MemberIs(c, key, j);
      MemberIs(c, key, id);
      var k := PathPosition(path, j);
      OnRisingPath(c, key, q, path, k, i);
      OnRisingPath(c, key, q, path, i - 1, k);
    }
    forall j: OrderId | Before(c, id, j) ensures i + 1 < |path| && c[path[i + 1]].rank <= c[j].rank {
      MemberIs(c, key, j);
      MemberIs(c, key, id);
      var k := PathPosition(path, j);
      OnRisingPath(c, key, q, path, i, k);
      OnRisingPath(c, key, q, path, k, i + 1);
    }
  }

  /** A rising walk through a whole list means the cached queue describes it. */
  lemma RisingDescribes(c: Chain, key: ListKey, q: AuctionQueue, path: seq<OrderId>)
    requires Walked(c, key, q, path) && Rising(c, path) && Members(c, key) == PathSet(path)
    ensures Describes(q, c, key) && forall id :: id in Members(c, key) ==> LinksAt(c, id)
  {
    hide Rising, LinksAt, Members, Trail, OnPath, PathSet, TrailTotal;
    TrailSize(c, key, q, path, None, q.tail);
    DistinctPath(c, key, q, path);
    TrailTotalIs(c, path);
    forall id | id in Members(c, key) ensures LinksAt(c, id) {
      var i := PathPosition(path, id);
      RisingLinks(c, key, q, path, i);
    }
    if path == [] {
      EmptyPath();
    } else {
      var first, last := path[0], path[|path| - 1];
      InPath(path, 0);
      InPath(path, |path| - 1);
      forall id | id in Members(c, key) ensures id in c && c[first].rank <= c[id].rank <= c[last].rank {
        var i := PathPosition(path, id);
        OnRisingPath(c, key, q, path, i, 0);
        OnRisingPath(c, key, q, path, |path| - 1, i);
      }
    }
  }

  lemma EmptyPath()
    ensures PathSet([]) == {}
  {
  }

  lemma InPath(path: seq<OrderId>, i: nat)
    requires i < |path|
    ensures path[i] in PathSet(path)
  {
  }

  lemma DistinctPath(c: Chain, key: ListKey, q: AuctionQueue, path: seq<OrderId>)
    requires Walked(c, key, q, path)
    ensures forall i, j :: 0 <= i < j < |path| ==> path[i] != path[j]
    ensures if path == [] then q.head == None && q.tail == None else q.head == Some(path[0]) && q.tail == Some(path[|path| - 1])
  {
  }

  // ----- every price queue

  ghost predicate QueuesWalked(c: Chain, ix: PriceIndex, paths: Paths) {
    forall side, constraint {:trigger ix.QueueAt(side, constraint)} :: PriceQueue(side, constraint) in paths ==>
      Walked(c, PriceQueue(side, constraint), ix.QueueAt(side, constraint), paths[PriceQueue(side, constraint)])
      && Rising(c, paths[PriceQueue(side, constraint)])
  }

  lemma QueuesWalkedNext(c: Chain, ix: PriceIndex, paths: Paths, side: Side, constraint: AuctionOrderConstraint, path: seq<OrderId>)
    requires QueuesWalked(c, ix, paths)
    requires Walked(c, PriceQueue(side, constraint), ix.QueueAt(side, constraint), path) && Rising(c, path)
    ensures QueuesWalked(c, ix, paths[PriceQueue(side, constraint) := path])
  {
    hide Walked, Rising, PriceIndex.QueueAt;
    var grown := paths[PriceQueue(side, constraint) := path];
    forall s: Side, k: AuctionOrderConstraint | PriceQueue(s, k) in grown
      ensures Walked(c, PriceQueue(s, k), ix.QueueAt(s, k), grown[PriceQueue(s, k)]) && Rising(c, grown[PriceQueue(s, k)])
    {
      if !(s == side && k == constraint) { assert PriceQueue(s, k) in paths; }
    }
  }

  lemma LevelQueue(ix: PriceIndex, side: Side, price: Price)
    ensures price in ix.Levels(side) ==> ix.QueueAt(side, Limit(price)) == ix.Levels(side)[price]
    ensures price !in ix.Levels(side) ==> ix.QueueAt(side, Limit(price)) == EMPTY_QUEUE
  {
  }

  /** The limit levels of one side, in price order. */
  method ValidateLevels(orders: Orders, ix: PriceIndex, side: Side, indexed0: nat, ghost covered0: set<OrderId>, ghost paths0: Paths)
    returns (ok: bool, indexed: nat, ghost covered: set<OrderId>, ghost paths: Paths)
    requires Covers(PriceChain(orders), covered0, paths0) && |covered0| == indexed0 && QueuesWalked(PriceChain(orders), ix, paths0)
    requires forall price: Price {:trigger Limit(price)} :: PriceQueue(side, Limit(price)) !in paths0
    ensures QueuesListed(PriceChain(orders), ix) ==> ok
    ensures ok ==>
              && Covers(PriceChain(orders), covered, paths) && |covered| == indexed && QueuesWalked(PriceChain(orders), ix, paths)
              && forall key: ListKey :: key in paths <==>
                   key in paths0 || (key.PriceQueue? && key.side == side && key.constraint.Limit? && key.constraint.price in ix.Levels(side))
  {
    hide *;
    ghost var c := PriceChain(orders);
    var prices := InOrder(ix.Levels(side).Keys);
    indexed, covered, paths := indexed0, covered0, paths0;
    for k := 0 to |prices|
      invariant Covers(c, covered, paths) && |covered| == indexed && QueuesWalked(c, ix, paths)
      invariant forall key: ListKey :: key in paths <==>
                  key in paths0 || (key.PriceQueue? && key.side == side && key.constraint.Limit? && key.constraint.price in prices[..k])
    {
      var price := prices[k];
      assert price in prices;
      LevelQueue(ix, side, price);
      NotYetRead(prices, k);
      UnwalkedIsUncovered(c, covered, paths, PriceQueue(side, Limit(price)));
      if QueuesListed(c, ix) { ListedQueueWalks(c, ix, side, Limit(price)); }
      var valid, reached, path := ValidateQueue(orders, ix.Levels(side)[price], side, Limit(price), indexed, covered);
      if !valid {
        return false, indexed, covered, paths;
      }
      CoversNext(c, covered, paths, PriceQueue(side, Limit(price)), ix.Levels(side)[price], path);
      QueuesWalkedNext(c, ix, paths, side, Limit(price), path);
      covered, paths, indexed := covered + PathSet(path), paths[PriceQueue(side, Limit(price)) := path], reached;
      assert prices[..k + 1] == prices[..k] + [price];
    }
    assert prices[..|prices|] == prices;
    ok := true;
  }

  lemma NotYetRead(prices: seq<Price>, k: nat)
    requires AscendingPrices(prices) && k < |prices|
    ensures prices[k] !in prices[..k]
  {
  }

  /** One walk of a queue, in rising priority, finds exactly its own orders and its cached ends,
      number and total. */
  ghost predicate QueueListed(c: Chain, key: ListKey, q: AuctionQueue) {
    exists path {:trigger Walked(c, key, q, path)} :: Walked(c, key, q, path) && Rising(c, path) && PathSet(path) == Members(c, key)
  }

  ghost predicate QueuesListed(c: Chain, ix: PriceIndex) {
    forall side, constraint {:trigger ix.QueueAt(side, constraint)} :: QueueListed(c, PriceQueue(side, constraint), ix.QueueAt(side, constraint))
  }

  lemma ListedQueue(c: Chain, ix: PriceIndex, side: Side, constraint: AuctionOrderConstraint) returns (walk: seq<OrderId>)
    requires QueuesListed(c, ix)
    ensures Walked(c, PriceQueue(side, constraint), ix.QueueAt(side, constraint), walk) && Rising(c, walk)
    ensures PathSet(walk) == Members(c, PriceQueue(side, constraint))
  {
    hide Walked, Rising, PathSet, Members, PriceIndex.QueueAt;
    assert QueueListed(c, PriceQueue(side, constraint), ix.QueueAt(side, constraint));
    walk :| Walked(c, PriceQueue(side, constraint), ix.QueueAt(side, constraint), walk) && Rising(c, walk)
            && PathSet(walk) == Members(c, PriceQueue(side, constraint));
  }

  lemma ListedQueueWalks(c: Chain, ix: PriceIndex, side: Side, constraint: AuctionOrderConstraint)
    requires QueuesListed(c, ix)
    ensures QueueWalks(c, PriceQueue(side, constraint), ix.QueueAt(side, constraint))
  {
    hide *;
    var walk := ListedQueue(c, ix, side, constraint);
    QueueWalkIs(c, PriceQueue(side, constraint), ix.QueueAt(side, constraint), walk);
  }

  lemma ListedIs(c: Chain, key: ListKey, q: AuctionQueue, path: seq<OrderId>)
    requires Walked(c, key, q, path) && PathSet(path) == Members(c, key)
    ensures LaneListed(c, key, q) && (Rising(c, path) ==> QueueListed(c, key, q))
  {
    hide Walked, Rising, PathSet, Members;
  }

  lemma EmptyListed(c: Chain, key: ListKey)
    requires Members(c, key) == {}
    ensures QueueListed(c, key, EMPTY_QUEUE) && LaneListed(c, key, EMPTY_QUEUE)
  {
    TrailBegins(c, key, EMPTY_QUEUE);
    assert Walked(c, key, EMPTY_QUEUE, []);
  }

  lemma EmptyWalk(c: Chain, key: ListKey, path: seq<OrderId>)
    requires Walked(c, key, EMPTY_QUEUE, path)
    ensures path == [] && PathSet(path) == {}
  {
  }

  lemma WalkedQueue(c: Chain, ix: PriceIndex, paths: Paths, side: Side, constraint: AuctionOrderConstraint)
    requires QueuesWalked(c, ix, paths) && PriceQueue(side, constraint) in paths
    ensures Walked(c, PriceQueue(side, constraint), ix.QueueAt(side, constraint), paths[PriceQueue(side, constraint)])
    ensures Rising(c, paths[PriceQueue(side, constraint)])
  {
    hide Walked, Rising, PriceIndex.QueueAt;
    var q := ix.QueueAt(side, constraint);
  }

  lemma AllQueuesListed(orders: Orders, ix: PriceIndex, covered: set<OrderId>, paths: Paths)
    requires Covers(PriceChain(orders), covered, paths) && |covered| == |orders| && QueuesWalked(PriceChain(orders), ix, paths)
    requires forall key: ListKey :: key in paths <==> key.PriceQueue? && (key.constraint.Market? || key.constraint.price in ix.Levels(key.side))
    ensures QueuesListed(PriceChain(orders), ix)
  {
    hide Covers, QueuesWalked, QueueListed, Members, PriceIndex.QueueAt, PriceIndex.Levels, Walked, Rising, PathSet;
    var c := PriceChain(orders);
    assert |c| == |c.Keys| == |orders.Keys| == |orders|;
    forall side: Side, constraint: AuctionOrderConstraint ensures QueueListed(c, PriceQueue(side, constraint), ix.QueueAt(side, constraint)) {
      FullCoverage(c, covered, paths, PriceQueue(side, constraint));
      if PriceQueue(side, constraint) in paths {
        WalkedQueue(c, ix, paths, side, constraint);
        ListedIs(c, PriceQueue(side, constraint), ix.QueueAt(side, constraint), paths[PriceQueue(side, constraint)]);
      } else {
        LevelQueue(ix, side, constraint.price);
        EmptyListed(c, PriceQueue(side, constraint));
      }
    }
  }

  /** The price index: both market queues, then every level of both sides, then the count. */
  method ValidateQueues(orders: Orders, ix: PriceIndex) returns (ok: bool)
    ensures ok <==> QueuesListed(PriceChain(orders), ix)
  {
    hide *;
    ghost var c, market := PriceChain(orders), AuctionOrderConstraint.Market;
    ghost var listed := QueuesListed(c, ix);
    ghost var covered: set<OrderId>, paths: Paths := {}, map[];
    NothingCovered(c);
    NoQueueWalked(c, ix);
    MarketQueues(ix);
    if listed { ListedQueueWalks(c, ix, Buy, market); ListedQueueWalks(c, ix, Sell, market); }
    UnwalkedIsUncovered(c, covered, paths, PriceQueue(Buy, market));
    var valid, indexed, path := ValidateQueue(orders, ix.marketBuys, Buy, AuctionOrderConstraint.Market, 0, covered);
    if !valid {
      return false;
    }
    CoversNext(c, covered, paths, PriceQueue(Buy, market), ix.marketBuys, path);
    QueuesWalkedNext(c, ix, paths, Buy, market, path);
    covered, paths := covered + PathSet(path), paths[PriceQueue(Buy, market) := path];
    UnwalkedIsUncovered(c, covered, paths, PriceQueue(Sell, market));
    valid, indexed, path := ValidateQueue(orders, ix.marketSells, Sell, AuctionOrderConstraint.Market, indexed, covered);
    if !valid {
      return false;
    }
    CoversNext(c, covered, paths, PriceQueue(Sell, market), ix.marketSells, path);
    QueuesWalkedNext(c, ix, paths, Sell, market, path);
    covered, paths := covered + PathSet(path), paths[PriceQueue(Sell, market) := path];
    valid, indexed, covered, paths := ValidateLevels(orders, ix, Buy, indexed, covered, paths);
    if !valid {
      return false;
    }
    valid, indexed, covered, paths := ValidateLevels(orders, ix, Sell, indexed, covered, paths);
    if !valid {
      return false;
    }
    ok := indexed == |orders|;
    if listed { EveryOrderWalked(orders, ix, covered, paths); }
    if ok { AllQueuesListed(orders, ix, covered, paths); }
  }

  lemma NoQueueWalked(c: Chain, ix: PriceIndex)
    ensures QueuesWalked(c, ix, map[])
  {
  }

  lemma MarketQueues(ix: PriceIndex)
    ensures ix.QueueAt(Buy, AuctionOrderConstraint.Market) == ix.marketBuys && ix.QueueAt(Sell, AuctionOrderConstraint.Market) == ix.marketSells
  {
  }

  lemma WalkIsUnique(c: Chain, key: ListKey, q: AuctionQueue, a: seq<OrderId>, b: seq<OrderId>)
    requires Walked(c, key, q, a) && Walked(c, key, q, b)
    ensures a == b
  {
    hide *;
    WalkedIs(c, key, q, b);
    WalkEnd(c, key, q, a, b, q.tail);
  }

  /** When every queue lists its own orders, the walked queues leave no order out. */
  lemma EveryOrderWalked(orders: Orders, ix: PriceIndex, covered: set<OrderId>, paths: Paths)
    requires QueuesListed(PriceChain(orders), ix) && Covers(PriceChain(orders), covered, paths) && QueuesWalked(PriceChain(orders), ix, paths)
    requires forall key: ListKey :: key in paths <==> key.PriceQueue? && (key.constraint.Market? || key.constraint.price in ix.Levels(key.side))
    ensures |covered| == |orders|
  {
    hide Covers, QueuesWalked, QueuesListed, Members, PriceIndex.QueueAt, PriceIndex.Levels, Walked, Rising, PathSet;
    var c := PriceChain(orders);
    forall id | id in c ensures id in covered {
      NodesAt(orders, id);
      var side, constraint := orders[id].order.side, orders[id].order.constraint;
      var key := PriceQueue(side, constraint);
      var walk := ListedQueue(c, ix, side, constraint);
      MemberIs(c, key, id);
      if key in paths {
        WalkedQueue(c, ix, paths, side, constraint);
        WalkIsUnique(c, key, ix.QueueAt(side, constraint), walk, paths[key]);
        PathIsCovered(c, covered, paths, key);
      } else {
        LevelQueue(ix, side, constraint.price);
        EmptyWalk(c, key, walk);
        assert false;
      }
    }
    CoveredAreOrders(c, covered, paths);
    assert covered == c.Keys;
    assert |orders| == |orders.Keys|;
  }

  lemma CoveredAreOrders(c: Chain, covered: set<OrderId>, paths: Paths)
    requires Covers(c, covered, paths)
    ensures covered <= c.Keys
  {
  }

  lemma PathIsCovered(c: Chain, covered: set<OrderId>, paths: Paths, key: ListKey)
    requires Covers(c, covered, paths) && key in paths
    ensures PathSet(paths[key]) <= covered
  {
  }

  lemma DescribedNodes(c: Chain, key: ListKey)
    ensures Members(c, key) <= c.Keys
  {
  }

  // ----- every account lane

  ghost predicate LanesWalked(c: Chain, accounts: Accounts, paths: Paths) {
    forall account, side {:trigger LanesOf(accounts, account).Lane(side)} :: AccountLane(account, side) in paths ==>
      Walked(c, AccountLane(account, side), LanesOf(accounts, account).Lane(side), paths[AccountLane(account, side)])
  }

  lemma NoLaneWalked(c: Chain, accounts: Accounts)
    ensures LanesWalked(c, accounts, map[])
  {
  }

  lemma LanesWalkedNext(c: Chain, accounts: Accounts, paths: Paths, account: AccountId, side: Side, path: seq<OrderId>)
    requires LanesWalked(c, accounts, paths) && Walked(c, AccountLane(account, side), LanesOf(accounts, account).Lane(side), path)
    ensures LanesWalked(c, accounts, paths[AccountLane(account, side) := path])
  {
    hide Walked, LanesOf, AuctionAccountIndex.Lane;
    var grown := paths[AccountLane(account, side) := path];
    forall a: AccountId, s: Side | AccountLane(a, s) in grown
      ensures Walked(c, AccountLane(a, s), LanesOf(accounts, a).Lane(s), grown[AccountLane(a, s)])
    {
      if !(a == account && s == side) { assert AccountLane(a, s) in paths; }
    }
  }

  lemma WalkedLane(c: Chain, accounts: Accounts, paths: Paths, account: AccountId, side: Side)
    requires LanesWalked(c, accounts, paths) && AccountLane(account, side) in paths
    ensures Walked(c, AccountLane(account, side), LanesOf(accounts, account).Lane(side), paths[AccountLane(account, side)])
  {
    hide Walked, LanesOf, AuctionAccountIndex.Lane;
    var lane := LanesOf(accounts, account).Lane(side);
  }

  /** One walk of a lane finds exactly the account's active orders of that side. */
  ghost predicate LaneListed(c: Chain, key: ListKey, lane: AuctionQueue) {
    exists path {:trigger Walked(c, key, lane, path)} :: Walked(c, key, lane, path) && PathSet(path) == Members(c, key)
  }

  ghost predicate LanesListed(c: Chain, accounts: Accounts) {
    && (forall account, side {:trigger LanesOf(accounts, account).Lane(side)} :: LaneListed(c, AccountLane(account, side), LanesOf(accounts, account).Lane(side)))
    && forall account :: account in accounts ==> !accounts[account].IsEmpty()
  }

  lemma AllLanesListed(orders: Orders, accounts: Accounts, covered: set<OrderId>, paths: Paths)
    requires Covers(LaneChain(orders), covered, paths) && |covered| == |orders| && LanesWalked(LaneChain(orders), accounts, paths)
    requires forall key: ListKey :: key in paths <==> key.AccountLane? && key.accountId in accounts
    requires forall account :: account in accounts ==> !accounts[account].IsEmpty()
    ensures LanesListed(LaneChain(orders), accounts)
  {
    hide Covers, LanesWalked, Members, AuctionAccountIndex.Lane, AuctionAccountIndex.IsEmpty, Walked, PathSet;
    var c := LaneChain(orders);
    assert |c| == |c.Keys| == |orders.Keys| == |orders|;
    forall account: AccountId, side: Side ensures LaneListed(c, AccountLane(account, side), LanesOf(accounts, account).Lane(side)) {
      FullCoverage(c, covered, paths, AccountLane(account, side));
      if account in accounts {
        WalkedLane(c, accounts, paths, account, side);
      } else {
        NoLanes(accounts, account, side);
        EmptyListed(c, AccountLane(account, side));
      }
    }
  }

  lemma NoLanes(accounts: Accounts, account: AccountId, side: Side)
    ensures account !in accounts ==> LanesOf(accounts, account).Lane(side) == EMPTY_QUEUE
    ensures account in accounts ==> LanesOf(accounts, account) == accounts[account]
  {
  }

  lemma ListedLane(c: Chain, accounts: Accounts, account: AccountId, side: Side) returns (walk: seq<OrderId>)
    requires LanesListed(c, accounts)
    ensures Walked(c, AccountLane(account, side), LanesOf(accounts, account).Lane(side), walk) && PathSet(walk) == Members(c, AccountLane(account, side))
    ensures LaneWalks(c, AccountLane(account, side), LanesOf(accounts, account).Lane(side))
    ensures account in accounts ==> !accounts[account].IsEmpty()
  {
    hide Walked, PathSet, Members, LanesOf, AuctionAccountIndex.Lane, AuctionAccountIndex.IsEmpty;
    assert LaneListed(c, AccountLane(account, side), LanesOf(accounts, account).Lane(side));
    walk :| Walked(c, AccountLane(account, side), LanesOf(accounts, account).Lane(side), walk) && PathSet(walk) == Members(c, AccountLane(account, side));
  }

  lemma EveryLaneWalked(orders: Orders, accounts: Accounts, covered: set<OrderId>, paths: Paths)
    requires LanesListed(LaneChain(orders), accounts) && Covers(LaneChain(orders), covered, paths) && LanesWalked(LaneChain(orders), accounts, paths)
    requires forall key: ListKey :: key in paths <==> key.AccountLane? && key.accountId in accounts
    ensures |covered| == |orders|
  {
    hide Covers, LanesWalked, LanesListed, Members, LanesOf, AuctionAccountIndex.Lane, Walked, PathSet;
    var c := LaneChain(orders);
    forall id | id in c ensures id in covered {
      NodesAt(orders, id);
      var account, side := orders[id].order.accountId, orders[id].order.side;
      var key := AccountLane(account, side);
      var walk := ListedLane(c, accounts, account, side);
      MemberIs(c, key, id);
      NoLanes(accounts, account, side);
      if account in accounts {
        WalkedLane(c, accounts, paths, account, side);
        WalkIsUnique(c, key, LanesOf(accounts, account).Lane(side), walk, paths[key]);
        PathIsCovered(c, covered, paths, key);
      } else {
        EmptyWalk(c, key, walk);
        assert false;
      }
    }
    CoveredAreOrders(c, covered, paths);
    assert covered == c.Keys;
    assert |orders| == |orders.Keys|;
  }

  lemma AccountKeys(paths: Paths, account: AccountId, buys: seq<OrderId>, sells: seq<OrderId>, key: ListKey)
    ensures key in paths[AccountLane(account, Buy) := buys][AccountLane(account, Sell) := sells] <==>
              key in paths || (key.AccountLane? && key.accountId == account)
  {
    if key.AccountLane? && key.accountId == account {
      assert key == AccountLane(account, Buy) || key == AccountLane(account, Sell) by { match key.laneSide { case Buy => case Sell => } }
    }
  }

  /** Both lanes of one account. */
  method ValidateAccount(orders: Orders, accounts: Accounts, account: AccountId, indexed0: nat, ghost covered0: set<OrderId>, ghost paths0: Paths)
    returns (ok: bool, indexed: nat, ghost covered: set<OrderId>, ghost paths: Paths)
    requires account in accounts && AccountLane(account, Buy) !in paths0 && AccountLane(account, Sell) !in paths0
    requires Covers(LaneChain(orders), covered0, paths0) && |covered0| == indexed0 && LanesWalked(LaneChain(orders), accounts, paths0)
    ensures LanesListed(LaneChain(orders), accounts) ==> ok
    ensures ok ==>
              && !accounts[account].IsEmpty()
              && Covers(LaneChain(orders), covered, paths) && |covered| == indexed && LanesWalked(LaneChain(orders), accounts, paths)
              && forall key: ListKey :: key in paths <==> key in paths0 || (key.AccountLane? && key.accountId == account)
  {
    hide *;
    ghost var c := LaneChain(orders);
    covered, paths, indexed := covered0, paths0, indexed0;
    NoLanes(accounts, account, Buy);
    BothLanes(accounts[account]);
    if LanesListed(c, accounts) {
      ghost var buyWalk := ListedLane(c, accounts, account, Buy);
      ghost var sellWalk := ListedLane(c, accounts, account, Sell);
    }
    if accounts[account].IsEmpty() {
      return false, indexed, covered, paths;
    }
    UnwalkedIsUncovered(c, covered, paths, AccountLane(account, Buy));
    var valid, reached, buys := ValidateLane(orders, accounts[account].buys, account, Buy, indexed, covered);
    if !valid {
      return false, indexed, covered, paths;
    }
    CoversNext(c, covered, paths, AccountLane(account, Buy), accounts[account].buys, buys);
    LanesWalkedNext(c, accounts, paths, account, Buy, buys);
    covered, paths := covered + PathSet(buys), paths[AccountLane(account, Buy) := buys];
    UnwalkedIsUncovered(c, covered, paths, AccountLane(account, Sell));
    ghost var sells;
    valid, reached, sells := ValidateLane(orders, accounts[account].sells, account, Sell, reached, covered);
    if !valid {
      return false, indexed, covered, paths;
    }
    CoversNext(c, covered, paths, AccountLane(account, Sell), accounts[account].sells, sells);
    LanesWalkedNext(c, accounts, paths, account, Sell, sells);
    covered, paths, indexed := covered + PathSet(sells), paths[AccountLane(account, Sell) := sells], reached;
    forall key: ListKey ensures key in paths <==> key in paths0 || (key.AccountLane? && key.accountId == account) {
      AccountKeys(paths0, account, buys, sells, key);
    }
    ok := true;
  }

  /** The account index, account by account, then the count. */
  method ValidateAccounts(orders: Orders, accounts: Accounts) returns (ok: bool)
    ensures ok <==> LanesListed(LaneChain(orders), accounts)
  {
    hide *;
    ghost var c := LaneChain(orders);
    ghost var covered: set<OrderId>, paths: Paths := {}, map[];
    var remaining, indexed: nat := accounts.Keys, 0;
    NothingCovered(c);
    NoLaneWalked(c, accounts);
    while remaining != {}
      invariant remaining <= accounts.Keys && Covers(c, covered, paths) && |covered| == indexed && LanesWalked(c, accounts, paths)
      invariant forall key: ListKey :: key in paths <==> key.AccountLane? && key.accountId in accounts && key.accountId !in remaining
      invariant forall account :: account in accounts && account !in remaining ==> !accounts[account].IsEmpty()
      decreases |remaining|
    {
      var account :| account in remaining;
      var valid;
      valid, indexed, covered, paths := ValidateAccount(orders, accounts, account, indexed, covered, paths);
      if !valid {
        return false;
      }
      remaining := remaining - {account};
    }
    ok := indexed == |orders|;
    if LanesListed(c, accounts) { EveryLaneWalked(orders, accounts, covered, paths); }
    if ok { AllLanesListed(orders, accounts, covered, paths); }
  }

  lemma BothLanes(lanes: AuctionAccountIndex)
    ensures lanes.Lane(Buy) == lanes.buys && lanes.Lane(Sell) == lanes.sells
  {
  }

  // ----- the whole book

  lemma OrderRules(m: BookModel, orders: Orders, id: OrderId)
    requires m.definition.Valid() && m.active == ActiveOf(orders) && id in orders
    ensures var order := orders[id].order;
            id in m.active &&
            (m.OrderOk(id) <==>
              && order.orderId == id && id in m.seen && m.definition.ValidateLeaves(order.quantity).None?
              && (order.constraint.Limit? ==> m.definition.ValidatePrice(order.constraint.price).None?)
              && 1 <= order.prioritySequence < m.nextPrioritySequence)
  {
    hide InstrumentDefinition.Valid, InstrumentDefinition.ValidateLeaves, InstrumentDefinition.ValidatePrice, ActiveOf;
    NodesAt(orders, id);
  }

  /** An active order obeys the rules and its owner is indexed. */
  ghost predicate ActiveOk(b: CallAuctionBook, id: OrderId)
    requires b.definition.Valid() && id in b.orders
    reads b
  {
    id in b.Model().active && b.Model().OrderOk(id) && b.orders[id].order.accountId in b.accountOrders
  }

  ghost predicate AllActiveOk(b: CallAuctionBook)
    requires b.definition.Valid()
    reads b
  {
    forall id {:trigger ActiveOk(b, id)} :: id in b.orders ==> ActiveOk(b, id)
  }

  /** The identity, owner, leaves, price and priority of every active order. */
  method ValidateActiveOrders(b: CallAuctionBook) returns (ok: bool)
    requires b.definition.Valid()
    ensures ok <==> AllActiveOk(b)
  {
    hide InstrumentDefinition.Valid, InstrumentDefinition.ValidateLeaves, InstrumentDefinition.ValidatePrice, ActiveOf, BookModel.OrderOk;
    var remaining := b.orders.Keys;
    while remaining != {}
      invariant remaining <= b.orders.Keys
      invariant forall id {:trigger ActiveOk(b, id)} :: id in b.orders && id !in remaining ==> ActiveOk(b, id)
      decreases |remaining|
    {
      var id :| id in remaining;
      OrderRules(b.Model(), b.orders, id);
      var order := b.orders[id].order;
      if order.orderId != id || id !in b.seenOrderIds || order.accountId !in b.accountOrders
         || b.definition.ValidateLeaves(order.quantity).Some?
         || (order.constraint.Limit? && b.definition.ValidatePrice(order.constraint.price).Some?)
         || order.prioritySequence == 0 || order.prioritySequence >= b.nextPrioritySequence {
        assert !ActiveOk(b, id);
        return false;
      }
      remaining := remaining - {id};
    }
    return true;
  }

  /** What the audit vouches for. */
  ghost predicate Audited(b: CallAuctionBook)
    requires b.definition.Valid()
    reads b
  {
    && |b.orders| <= b.limits.maxActiveOrders && |b.seenOrderIds| <= b.limits.maxAcceptedOrderIds
    && |b.queues.bids| <= b.limits.maxPriceLevelsPerSide && |b.queues.asks| <= b.limits.maxPriceLevelsPerSide
    && |b.orders| <= |b.seenOrderIds| <= b.stateRevision && b.nextPrioritySequence != 0 && b.nextTradeId != 0
    && QueuesListed(PriceChain(b.orders), b.queues) && LanesListed(LaneChain(b.orders), b.accountOrders)
    && AllActiveOk(b)
  }

  lemma {:induction false} LevelsAreFew(c: Chain, ix: PriceIndex, m: BookModel, orders: Orders, side: Side)
    requires c == PriceChain(orders) && m.active == ActiveOf(orders)
    requires forall price: Price {:trigger Limit(price)} :: price !in ix.Levels(side) ==> Members(c, PriceQueue(side, Limit(price))) == {}
    ensures m.LevelPrices(side) <= ix.Levels(side).Keys && |m.LevelPrices(side)| <= |ix.Levels(side)|
  {
    forall price | price in m.LevelPrices(side) ensures price in ix.Levels(side).Keys {
      var id :| id in m.active && m.active[id].side == side && m.active[id].constraint == Limit(price);
      NodesAt(orders, id);
      assert id in Members(c, PriceQueue(side, Limit(price)));
    }
    SubsetSize(m.LevelPrices(side), ix.Levels(side).Keys);
    assert |ix.Levels(side)| == |ix.Levels(side).Keys|;
  }

  lemma LevelSizes(b: CallAuctionBook)
    requires b.Sound()
    ensures |b.queues.bids| <= b.limits.maxPriceLevelsPerSide && |b.queues.asks| <= b.limits.maxPriceLevelsPerSide
  {
    hide BookModel.OrderOk, InstrumentDefinition.Valid, CallAuctionBookLimits.Valid, ActiveOf, BookModel.LevelPrices, AccountIndexed, PriceIndexed;
    SideLevels(b.Model(), b.orders, b.queues, Buy);
    SideLevels(b.Model(), b.orders, b.queues, Sell);
  }

  lemma SideLevels(m: BookModel, orders: Orders, ix: PriceIndex, side: Side)
    requires m.active == ActiveOf(orders) && PriceIndexed(PriceChain(orders), ix)
    ensures m.LevelPrices(side) == ix.Levels(side).Keys && |ix.Levels(side)| == |m.LevelPrices(side)|
  {
    hide PriceIndexed, PriceIndex.Levels, PriceChain, ActiveOf;
    forall price ensures price in m.LevelPrices(side) <==> price in ix.Levels(side) {
      LevelsArePrices(orders, ix, side, price);
      if price in ix.Levels(side) {
        var id :| id in orders && orders[id].order.side == side && orders[id].order.constraint == Limit(price);
        NodesAt(orders, id);
      }
      if price in m.LevelPrices(side) {
        var id :| id in m.active && m.active[id].side == side && m.active[id].constraint == Limit(price);
        NodesAt(orders, id);
      }
    }
    assert |ix.Levels(side)| == |ix.Levels(side).Keys|;
  }

  lemma SoundScalars(b: CallAuctionBook)
    requires b.Sound()
    ensures b.definition.Valid() && |b.orders| <= b.limits.maxActiveOrders && |b.seenOrderIds| <= b.limits.maxAcceptedOrderIds
    ensures |b.orders| <= |b.seenOrderIds| <= b.stateRevision && b.nextPrioritySequence >= 1 && b.nextTradeId >= 1
    ensures PriceIndexed(PriceChain(b.orders), b.queues) && AccountIndexed(LaneChain(b.orders), b.accountOrders) && b.Model().Valid()
  {
    hide InstrumentDefinition.Valid, CallAuctionBookLimits.Valid, ActiveOf, BookModel.LevelPrices, AccountIndexed, PriceIndexed;
    var m := b.Model();
    forall id | id in b.orders ensures id in b.seenOrderIds { NodesAt(b.orders, id); assert id in m.active && m.OrderOk(id); }
    SubsetSize(b.orders.Keys, b.seenOrderIds);
    assert |b.orders| == |b.orders.Keys|;
    assert m.active.Keys == b.orders.Keys && |m.active| == |m.active.Keys|;
  }

  lemma SoundOrder(b: CallAuctionBook, id: OrderId)
    requires b.Sound() && id in b.orders
    ensures b.definition.Valid() && ActiveOk(b, id)
  {
    hide InstrumentDefinition.Valid, CallAuctionBookLimits.Valid, ActiveOf, BookModel.LevelPrices, Linked, Describes, PriceIndexed, LanesOf, AuctionAccountIndex.Lane;
    var m, order, c := b.Model(), b.orders[id].order, LaneChain(b.orders);
    assert id in m.active && m.OrderOk(id);
    NodesAt(b.orders, id);
    LaneIsDescribed(c, b.accountOrders, order.accountId, order.side);
    NoLanes(b.accountOrders, order.accountId, order.side);
    DescribesTotals(LanesOf(b.accountOrders, order.accountId).Lane(order.side), c, AccountLane(order.accountId, order.side));
    assert id in Members(c, AccountLane(order.accountId, order.side));
  }

  /** The audit of a whole book, in the order the checks are made. */
  method Validate(b: CallAuctionBook) returns (ok: bool)
    requires b.definition.Valid()
    ensures ok <==> Audited(b)
  {
    hide *;
    AuditedIs(b);
    if |b.orders| > b.limits.maxActiveOrders || |b.seenOrderIds| > b.limits.maxAcceptedOrderIds
       || |b.queues.bids| > b.limits.maxPriceLevelsPerSide || |b.queues.asks| > b.limits.maxPriceLevelsPerSide {
      return false;
    }
    if |b.orders| > |b.seenOrderIds| || |b.seenOrderIds| > b.stateRevision || b.nextPrioritySequence == 0 || b.nextTradeId == 0 {
      return false;
    }
    var queues := ValidateQueues(b.orders, b.queues);
    if !queues {
      return false;
    }
    var accounts := ValidateAccounts(b.orders, b.accountOrders);
    if !accounts {
      return false;
    }
    ok := ValidateActiveOrders(b);
  }

  lemma AuditedIs(b: CallAuctionBook)
    requires b.definition.Valid()
    ensures Audited(b) <==>
              && |b.orders| <= b.limits.maxActiveOrders && |b.seenOrderIds| <= b.limits.maxAcceptedOrderIds
              && |b.queues.bids| <= b.limits.maxPriceLevelsPerSide && |b.queues.asks| <= b.limits.maxPriceLevelsPerSide
              && |b.orders| <= |b.seenOrderIds| <= b.stateRevision && b.nextPrioritySequence != 0 && b.nextTradeId != 0
              && QueuesListed(PriceChain(b.orders), b.queues) && LanesListed(LaneChain(b.orders), b.accountOrders)
              && AllActiveOk(b)
  {
    hide InstrumentDefinition.Valid, QueuesListed, LanesListed, AllActiveOk;
  }

  // ----- what the audit does not look at

  /** Following a lane, priority rises. */
  ghost predicate LanesRise(c: Chain) {
    forall id {:trigger c[id].next} :: id in c && c[id].next.Some? && c[id].next.value in c ==> c[id].rank < c[c[id].next.value].rank
  }

  lemma {:induction false} RisingFromSteps(c: Chain, key: ListKey, q: AuctionQueue, path: seq<OrderId>, i: nat, j: nat)
    requires Walked(c, key, q, path) && LanesRise(c) && i < j < |path|
    ensures path[i] in c && path[j] in c && c[path[i]].rank < c[path[j]].rank
    decreases j
  {
    TrailEnd(c, key, q, path, None, q.tail, j);
    TrailEnd(c, key, q, path, None, q.tail, j - 1);
    if i < j - 1 { RisingFromSteps(c, key, q, path, i, j - 1); }
  }

  lemma RisingLane(c: Chain, key: ListKey, lane: AuctionQueue)
    requires LaneListed(c, key, lane) && LanesRise(c)
    ensures Describes(lane, c, key) && forall id :: id in Members(c, key) ==> id in c && LinksAt(c, id)
  {
    hide *;
    var path := SomeListedLane(c, key, lane);
    RisingPath(c, key, lane, path);
    RisingDescribes(c, key, lane, path);
    DescribedNodes(c, key);
  }

  lemma SomeListedLane(c: Chain, key: ListKey, lane: AuctionQueue) returns (path: seq<OrderId>)
    requires LaneListed(c, key, lane)
    ensures Walked(c, key, lane, path) && PathSet(path) == Members(c, key)
  {
    hide Walked, PathSet, Members;
    path :| Walked(c, key, lane, path) && PathSet(path) == Members(c, key);
  }

  lemma RisingPath(c: Chain, key: ListKey, lane: AuctionQueue, path: seq<OrderId>)
    requires Walked(c, key, lane, path) && LanesRise(c)
    ensures Rising(c, path)
  {
    hide Walked, LanesRise;
    forall i, j | 0 <= i < j < |path| && path[i] in c && path[j] in c ensures c[path[i]].rank < c[path[j]].rank {
      RisingFromSteps(c, key, lane, path, i, j);
    }
  }

  lemma SameRanks(orders: Orders)
    requires DistinctRanks(PriceChain(orders))
    ensures DistinctRanks(LaneChain(orders))
  {
    var c, d := PriceChain(orders), LaneChain(orders);
    forall a, b | a in d && b in d && a != b ensures d[a].rank != d[b].rank {
      NodesAt(orders, a);
      NodesAt(orders, b);
      assert c[a].rank != c[b].rank;
    }
  }

  lemma ListedLanesAreIndexed(orders: Orders, accounts: Accounts)
    requires LanesListed(LaneChain(orders), accounts) && LanesRise(LaneChain(orders)) && DistinctRanks(LaneChain(orders))
    ensures AccountIndexed(LaneChain(orders), accounts)
  {
    hide LaneListed, LanesRise, DistinctRanks, Describes, IsPrevious, IsNext, Members, LanesOf, AuctionAccountIndex.Lane, AuctionAccountIndex.IsEmpty;
    var c := LaneChain(orders);
    forall account: AccountId, side: Side
      ensures Describes(LanesOf(accounts, account).Lane(side), c, AccountLane(account, side))
      ensures forall id :: id in Members(c, AccountLane(account, side)) ==> id in c && LinksAt(c, id)
    {
      RisingLane(c, AccountLane(account, side), LanesOf(accounts, account).Lane(side));
    }
    forall id | id in c ensures IsPrevious(c, c[id].previous, id) && IsNext(c, c[id].next, id) {
      NodesAt(orders, id);
      MemberIs(c, c[id].key, id);
      assert LinksAt(c, id);
    }
  }

  lemma ListedQueueDescribes(c: Chain, ix: PriceIndex, side: Side, constraint: AuctionOrderConstraint)
    requires QueuesListed(c, ix)
    ensures Describes(ix.QueueAt(side, constraint), c, PriceQueue(side, constraint))
    ensures forall id :: id in Members(c, PriceQueue(side, constraint)) ==> id in c && LinksAt(c, id)
  {
    hide *;
    var walk := ListedQueue(c, ix, side, constraint);
    DescribedNodes(c, PriceQueue(side, constraint));
    RisingDescribes(c, PriceQueue(side, constraint), ix.QueueAt(side, constraint), walk);
  }

  ghost predicate NoEmptyLevel(ix: PriceIndex) {
    forall side, price :: price in ix.Levels(side) ==> ix.Levels(side)[price].orderCount > 0
  }

  lemma ListedQueuesAreIndexed(orders: Orders, ix: PriceIndex)
    requires QueuesListed(PriceChain(orders), ix) && DistinctRanks(PriceChain(orders)) && NoEmptyLevel(ix)
    ensures PriceIndexed(PriceChain(orders), ix)
  {
    hide DistinctRanks, Describes, IsPrevious, IsNext, QueuesListed, PriceIndex.QueueAt, PriceIndex.Levels;
    var c := PriceChain(orders);
    forall id | id in c ensures IsPrevious(c, c[id].previous, id) && IsNext(c, c[id].next, id) {
      NodesAt(orders, id);
      MemberIs(c, c[id].key, id);
      ListedQueueDescribes(c, ix, orders[id].order.side, orders[id].order.constraint);
      assert LinksAt(c, id);
    }
    forall side, constraint ensures Describes(ix.QueueAt(side, constraint), c, PriceQueue(side, constraint)) {
      ListedQueueDescribes(c, ix, side, constraint);
    }
  }

  lemma ListedLevels(b: CallAuctionBook, side: Side)
    requires b.definition.Valid() && QueuesListed(PriceChain(b.orders), b.queues)
    ensures |b.Model().LevelPrices(side)| <= |b.queues.Levels(side)|
  {
    hide InstrumentDefinition.Valid, QueuesListed, Members, BookModel.LevelPrices, PriceIndex.QueueAt, PriceIndex.Levels, ActiveOf, Walked, PathSet;
    var c, ix := PriceChain(b.orders), b.queues;
    forall price: Price | price !in ix.Levels(side) ensures Members(c, PriceQueue(side, Limit(price))) == {} {
      LevelQueue(ix, side, price);
      var walk := ListedQueue(c, ix, side, Limit(price));
      EmptyWalk(c, PriceQueue(side, Limit(price)), walk);
    }
    LevelsAreFew(c, ix, b.Model(), b.orders, side);
  }

  // ----- sound books pass

  /** A linked and described list is walked in rising priority. */
  lemma DescribedIsListed(c: Chain, key: ListKey, q: AuctionQueue)
    requires Linked(c) && Describes(q, c, key)
    ensures QueueListed(c, key, q) && LaneListed(c, key, q)
  {
    hide *;
    var path, current, previous: Option<OrderId> := [], q.head, None;
    TrailBegins(c, key, q);
    while current.Some?
      invariant Trail(c, key, q, path, current, previous) && Rising(c, path) && |path| <= q.orderCount
      invariant path != [] ==> previous == Some(path[|path| - 1])
      decreases q.orderCount - |path|
    {
      var id := current.value;
      SoundStep(c, key, q, path, id, previous);
      TrailGrows(c, key, q, path, id, previous);
      RisingGrows(c, path, id);
      path, current, previous := path + [id], c[id].next, Some(id);
    }
    SoundEnd(c, key, q, path, previous);
    TrailIsListWalk(c, key, q, path, None, previous);
    WalkEnds(c, key, q, None, previous);
    WalkedIs(c, key, q, path);
    ListedIs(c, key, q, path);
  }

  lemma IndexedIsListed(orders: Orders, ix: PriceIndex, accounts: Accounts)
    requires PriceIndexed(PriceChain(orders), ix) && AccountIndexed(LaneChain(orders), accounts)
    ensures QueuesListed(PriceChain(orders), ix) && LanesListed(LaneChain(orders), accounts)
    ensures DistinctRanks(PriceChain(orders)) && LanesRise(LaneChain(orders)) && NoEmptyLevel(ix)
  {
    hide Linked, Describes, QueueListed, LaneListed, LanesOf, AuctionAccountIndex.Lane, AuctionAccountIndex.IsEmpty, PriceIndex.QueueAt, PriceIndex.Levels, DistinctRanks;
    var c, d := PriceChain(orders), LaneChain(orders);
    LinkedHasDistinctRanks(c);
    forall side: Side, constraint: AuctionOrderConstraint ensures QueueListed(c, PriceQueue(side, constraint), ix.QueueAt(side, constraint)) {
      QueueIsDescribed(c, ix, side, constraint);
      DescribedIsListed(c, PriceQueue(side, constraint), ix.QueueAt(side, constraint));
    }
    forall account: AccountId, side: Side ensures LaneListed(d, AccountLane(account, side), LanesOf(accounts, account).Lane(side)) {
      LaneIsDescribed(d, accounts, account, side);
      DescribedIsListed(d, AccountLane(account, side), LanesOf(accounts, account).Lane(side));
    }
    forall id | id in d && d[id].next.Some? && d[id].next.value in d ensures d[id].rank < d[d[id].next.value].rank {
      NextOf(d, id);
    }
  }

  lemma AuditedModel(b: CallAuctionBook)
    requires b.definition.Valid() && b.limits.Valid() && Audited(b) && DistinctRanks(PriceChain(b.orders))
    ensures b.Model().Valid()
  {
    hide InstrumentDefinition.Valid, CallAuctionBookLimits.Valid, QueuesListed, LanesListed, BookModel.LevelPrices, BookModel.OrderOk, ActiveOf;
    ListedLevels(b, Buy);
    ListedLevels(b, Sell);
    BothSides(b.queues);
    var m, c := b.Model(), PriceChain(b.orders);
    forall id | id in m.active ensures m.OrderOk(id) { assert ActiveOk(b, id); }
    forall x, y | x in m.active && y in m.active && x != y ensures m.active[x].prioritySequence != m.active[y].prioritySequence {
      NodesAt(b.orders, x);
      NodesAt(b.orders, y);
      assert c[x].rank != c[y].rank;
    }
    assert |m.active| == |m.active.Keys| && |b.orders| == |b.orders.Keys|;
  }

  lemma BothSides(ix: PriceIndex)
    ensures ix.Levels(Buy) == ix.bids && ix.Levels(Sell) == ix.asks
  {
  }

  lemma AllSoundOrders(b: CallAuctionBook)
    requires b.Sound()
    ensures b.definition.Valid() && AllActiveOk(b)
  {
    hide CallAuctionBook.Sound, InstrumentDefinition.Valid, ActiveOk;
    SoundScalars(b);
    forall id | id in b.orders ensures ActiveOk(b, id) { SoundOrder(b, id); }
  }

  lemma SoundIsAudited(b: CallAuctionBook)
    requires b.Sound()
    ensures b.definition.Valid() && b.limits.Valid() && Audited(b)
    ensures DistinctRanks(PriceChain(b.orders)) && LanesRise(LaneChain(b.orders)) && NoEmptyLevel(b.queues)
  {
    hide *;
    b.Unfold();
    SoundScalars(b);
    LevelSizes(b);
    RulesHold(b.Model());
    IndexedIsListed(b.orders, b.queues, b.accountOrders);
    AllSoundOrders(b);
    AuditedIs(b);
  }

  /** Exactly what the audit leaves open: an audited book is sound if and only if no two of its
      orders share a priority sequence, no level is left empty, its lanes run in priority order and
      its limits are admissible. */
  lemma SoundExactly(b: CallAuctionBook)
    requires b.definition.Valid()
    ensures b.Sound() <==>
              && Audited(b) && b.limits.Valid()
              && DistinctRanks(PriceChain(b.orders)) && NoEmptyLevel(b.queues) && LanesRise(LaneChain(b.orders))
  {
    hide *;
    if b.Sound() {
      SoundIsAudited(b);
    } else if Audited(b) && b.limits.Valid() && DistinctRanks(PriceChain(b.orders)) && NoEmptyLevel(b.queues) && LanesRise(LaneChain(b.orders)) {
      AuditedIs(b);
      AuditedModel(b);
      SameRanks(b.orders);
      ListedLanesAreIndexed(b.orders, b.accountOrders);
      ListedQueuesAreIndexed(b.orders, b.queues);
      b.Unfold();
    }
  }

  // ----- books that pass although they are not sound

  /** An empty book whose bid index holds a level without orders. */
  method EmptyLevelPasses(definition: InstrumentDefinition, limits: CallAuctionBookLimits, price: Price) returns (b: CallAuctionBook, ok: bool)
    requires definition.Valid() && limits.Valid()
    ensures ok && b.definition == definition && b.limits == limits && Audited(b) && !b.Sound()
  {
    hide *;
    b := new CallAuctionBook(1, definition, limits);
    b.Unfold();
    SoundIsAudited(b);
    AuditedIs(b);
    ghost var before, m := b.queues, b.Model();
    b.queues := PriceIndex(map[price := EMPTY_QUEUE], b.queues.asks, b.queues.marketBuys, b.queues.marketSells);
    NoLevels(m, definition, limits, b.orders, before);
    EmptyLevelListed(b.orders, before, price);
    NoActiveOrders(b);
    AuditedIs(b);
    SoundExactly(b);
    ok := Validate(b);
  }

  lemma NoActiveOrders(b: CallAuctionBook)
    requires b.definition.Valid() && b.orders == map[]
    ensures AllActiveOk(b)
  {
  }

  lemma NoLevels(m: BookModel, definition: InstrumentDefinition, limits: CallAuctionBookLimits, orders: Orders, ix: PriceIndex)
    requires definition.Valid() && limits.Valid() && m == EmptyBook(definition, limits) && m.active == ActiveOf(orders)
    requires PriceIndexed(PriceChain(orders), ix)
    ensures orders == map[] && ix.bids == map[] && 1 <= limits.maxPriceLevelsPerSide
  {
    hide InstrumentDefinition.Valid, PriceIndexed;
    assert ActiveOf(orders).Keys == orders.Keys;
    SideLevels(m, orders, ix, Buy);
    assert ix.bids.Keys == {};
  }

  lemma EmptyLevelListed(orders: Orders, ix: PriceIndex, price: Price)
    requires QueuesListed(PriceChain(orders), ix) && ix.bids == map[]
    ensures var grown := PriceIndex(map[price := EMPTY_QUEUE], ix.asks, ix.marketBuys, ix.marketSells);
            QueuesListed(PriceChain(orders), grown) && !NoEmptyLevel(grown) && |grown.bids| == 1
  {
    hide QueueListed;
    var grown := PriceIndex(map[price := EMPTY_QUEUE], ix.asks, ix.marketBuys, ix.marketSells);
    forall side, constraint ensures grown.QueueAt(side, constraint) == ix.QueueAt(side, constraint) {}
    assert price in grown.Levels(Buy) && grown.Levels(Buy)[price].orderCount == 0;
    assert grown.bids.Keys == {price};
    assert |grown.bids| == |grown.bids.Keys|;
  }

}
