/** The indexes of the collection book: price queues and account lanes over one map of resting
    orders, and what inserting, removing and reducing an order does to them. */
module RestingIndex {
  import opened BookInterest
  import opened AbstractBook
  import opened Arithmetic
  import opened Chains
  import opened Discovery
  import opened Domain
  import opened SetSums

  /** A resting order and its links in two lists: equal price, and equal account and side. */
  datatype RestingAuctionOrder = RestingAuctionOrder(
    order: CallAuctionOrderSnapshot,
    previous: Option<OrderId>, next: Option<OrderId>,
    accountPrevious: Option<OrderId>, accountNext: Option<OrderId>)

  type Orders = map<OrderId, RestingAuctionOrder>

  ghost function ActiveOf(orders: Orders): (active: Active)
    ensures active.Keys == orders.Keys
  {
    map id | id in orders :: orders[id].order
  }

  ghost function PriceKey(order: CallAuctionOrderSnapshot): ListKey {
    PriceQueue(order.side, order.constraint)
  }

  ghost function LaneKey(order: CallAuctionOrderSnapshot): ListKey {
    AccountLane(order.accountId, order.side)
  }

  ghost function PriceNode(r: RestingAuctionOrder): Node {
    Node(PriceKey(r.order), r.order.prioritySequence, r.order.quantity, r.previous, r.next)
  }

  ghost function LaneNode(r: RestingAuctionOrder): Node {
    Node(LaneKey(r.order), r.order.prioritySequence, r.order.quantity, r.accountPrevious, r.accountNext)
  }

  ghost function PriceChain(orders: Orders): (c: Chain)
    ensures c.Keys == orders.Keys
  {
    map id | id in orders :: PriceNode(orders[id])
  }

  ghost function LaneChain(orders: Orders): (c: Chain)
    ensures c.Keys == orders.Keys
  {
    map id | id in orders :: LaneNode(orders[id])
  }

  /** Market queues and occupied limit levels of both sides. */
  datatype PriceIndex = PriceIndex(bids: map<Price, AuctionQueue>, asks: map<Price, AuctionQueue>, marketBuys: AuctionQueue, marketSells: AuctionQueue)
  {
    function Levels(side: Side): map<Price, AuctionQueue> {
      match side case Buy => bids case Sell => asks
    }

    function QueueAt(side: Side, constraint: AuctionOrderConstraint): AuctionQueue {
      match constraint
      case Market => (match side case Buy => marketBuys case Sell => marketSells)
      case Limit(price) => if price in Levels(side) then Levels(side)[price] else EMPTY_QUEUE
    }

    /** An emptied limit level leaves the index. */
    function Replaced(side: Side, constraint: AuctionOrderConstraint, queue: AuctionQueue): PriceIndex {
      match (constraint, side)
      case (Market, Buy) => this.(marketBuys := queue)
      case (Market, Sell) => this.(marketSells := queue)
      case (Limit(price), Buy) => if queue.orderCount == 0 then this.(bids := bids - {price}) else this.(bids := bids[price := queue])
      case (Limit(price), Sell) => if queue.orderCount == 0 then this.(asks := asks - {price}) else this.(asks := asks[price := queue])
    }
  }

  /** One account's two lanes. */
  datatype AuctionAccountIndex = AuctionAccountIndex(buys: AuctionQueue, sells: AuctionQueue) {
    function Lane(side: Side): AuctionQueue {
      match side case Buy => buys case Sell => sells
    }

    function WithLane(side: Side, lane: AuctionQueue): AuctionAccountIndex {
      match side case Buy => this.(buys := lane) case Sell => this.(sells := lane)
    }

    predicate IsEmpty() {
      buys.orderCount == 0 && sells.orderCount == 0
    }
  }

  const NO_LANES := AuctionAccountIndex(EMPTY_QUEUE, EMPTY_QUEUE)

  type Accounts = map<AccountId, AuctionAccountIndex>

  function LanesOf(accounts: Accounts, account: AccountId): AuctionAccountIndex {
    if account in accounts then accounts[account] else NO_LANES
  }

  lemma NoLanesAreEmpty(accounts: Accounts, account: AccountId)
    ensures account !in accounts ==>
              LanesOf(accounts, account).Lane(Buy).orderCount == 0 && LanesOf(accounts, account).Lane(Sell).orderCount == 0
  {
  }

  /** An account without active orders leaves the index. */
  function WithLanes(accounts: Accounts, account: AccountId, lanes: AuctionAccountIndex): Accounts {
    if lanes.IsEmpty() then accounts - {account} else accounts[account := lanes]
  }

  ghost predicate PriceIndexed(c: Chain, ix: PriceIndex) {
    && Linked(c)
    && (forall side, constraint {:trigger ix.QueueAt(side, constraint)} :: Describes(ix.QueueAt(side, constraint), c, PriceQueue(side, constraint)))
    && (forall side, price :: price in ix.Levels(side) ==> ix.Levels(side)[price].orderCount > 0)
  }

  ghost predicate AccountIndexed(c: Chain, accounts: Accounts) {
    && Linked(c)
    && (forall account, side {:trigger LanesOf(accounts, account).Lane(side)} :: Describes(LanesOf(accounts, account).Lane(side), c, AccountLane(account, side)))
    && (forall account :: account in accounts ==> !accounts[account].IsEmpty())
  }

  lemma QueueIsDescribed(c: Chain, ix: PriceIndex, side: Side, constraint: AuctionOrderConstraint)
    requires PriceIndexed(c, ix)
    ensures Linked(c) && Describes(ix.QueueAt(side, constraint), c, PriceQueue(side, constraint))
  {
  }

  /** Only an indexed account has active orders. */
  lemma NoLanesIsEmpty(accounts: Accounts, account: AccountId, side: Side)
    ensures LanesOf(accounts, account).Lane(side).orderCount > 0 ==> account in accounts
    ensures account in accounts ==> LanesOf(accounts, account) == accounts[account]
  {
  }

  lemma LaneIsDescribed(c: Chain, accounts: Accounts, account: AccountId, side: Side)
    requires AccountIndexed(c, accounts)
    ensures Linked(c) && Describes(LanesOf(accounts, account).Lane(side), c, AccountLane(account, side))
  {
  }

  // ----- replacing one queue

  lemma QueueAfterReplace(ix: PriceIndex, side: Side, constraint: AuctionOrderConstraint, queue: AuctionQueue, otherSide: Side, other: AuctionOrderConstraint)
    requires queue.orderCount == 0 ==> queue == EMPTY_QUEUE
    ensures ix.Replaced(side, constraint, queue).QueueAt(otherSide, other) ==
              if otherSide == side && other == constraint then queue else ix.QueueAt(otherSide, other)
  {
  }

  lemma LevelsAfterReplace(ix: PriceIndex, side: Side, constraint: AuctionOrderConstraint, queue: AuctionQueue)
    requires forall s, price :: price in ix.Levels(s) ==> ix.Levels(s)[price].orderCount > 0
    ensures var n := ix.Replaced(side, constraint, queue);
            forall s, price :: price in n.Levels(s) ==> n.Levels(s)[price].orderCount > 0
  {
    var n := ix.Replaced(side, constraint, queue);
    forall s, price | price in n.Levels(s) ensures n.Levels(s)[price].orderCount > 0 {
      assert (price in ix.Levels(s) && n.Levels(s)[price] == ix.Levels(s)[price]) || n.Levels(s)[price] == queue;
    }
  }

  /** Replacing the queue of the one list that changed keeps the price index. */
  lemma PriceIndexChanged(c: Chain, d: Chain, ix: PriceIndex, side: Side, constraint: AuctionOrderConstraint, queue: AuctionQueue)
    requires PriceIndexed(c, ix) && Linked(d) && Describes(queue, d, PriceQueue(side, constraint))
    requires forall s, k {:trigger ix.QueueAt(s, k)} :: PriceQueue(s, k) != PriceQueue(side, constraint) ==> Describes(ix.QueueAt(s, k), d, PriceQueue(s, k))
    ensures PriceIndexed(d, ix.Replaced(side, constraint, queue))
  {
    EmptyIsEmpty(queue, d, PriceQueue(side, constraint));
    LevelsAfterReplace(ix, side, constraint, queue);
    hide Linked, Describes, PriceIndex.Replaced, PriceIndex.QueueAt, PriceIndex.Levels;
    var n := ix.Replaced(side, constraint, queue);
    forall s, k ensures Describes(n.QueueAt(s, k), d, PriceQueue(s, k)) {
      QueueAfterReplace(ix, side, constraint, queue, s, k);
    }
  }

  lemma EmptyIsEmpty(queue: AuctionQueue, c: Chain, key: ListKey)
    requires Describes(queue, c, key)
    ensures queue.orderCount == 0 ==> queue == EMPTY_QUEUE
  {
    if queue.orderCount == 0 { assert Members(c, key) == {}; }
  }

  lemma LanesAfterReplace(accounts: Accounts, account: AccountId, side: Side, lane: AuctionQueue, other: AccountId, otherSide: Side)
    requires lane.orderCount == 0 ==> lane == EMPTY_QUEUE
    requires forall s :: LanesOf(accounts, account).Lane(s).orderCount == 0 ==> LanesOf(accounts, account).Lane(s) == EMPTY_QUEUE
    ensures LanesOf(WithLanes(accounts, account, LanesOf(accounts, account).WithLane(side, lane)), other).Lane(otherSide) ==
              if other == account && otherSide == side then lane else LanesOf(accounts, other).Lane(otherSide)
  {
    var lanes := LanesOf(accounts, account).WithLane(side, lane);
    assert LanesOf(accounts, account).Lane(Buy) == LanesOf(accounts, account).buys && LanesOf(accounts, account).Lane(Sell) == LanesOf(accounts, account).sells;
  }

  lemma AccountsChanged(c: Chain, d: Chain, accounts: Accounts, account: AccountId, side: Side, lane: AuctionQueue)
    requires AccountIndexed(c, accounts) && Linked(d) && Describes(lane, d, AccountLane(account, side))
    requires forall a, s {:trigger LanesOf(accounts, a).Lane(s)} :: AccountLane(a, s) != AccountLane(account, side) ==> Describes(LanesOf(accounts, a).Lane(s), d, AccountLane(a, s))
    ensures AccountIndexed(d, WithLanes(accounts, account, LanesOf(accounts, account).WithLane(side, lane)))
  {
    EmptyIsEmpty(lane, d, AccountLane(account, side));
    forall s ensures LanesOf(accounts, account).Lane(s).orderCount == 0 ==> LanesOf(accounts, account).Lane(s) == EMPTY_QUEUE {
      EmptyIsEmpty(LanesOf(accounts, account).Lane(s), c, AccountLane(account, s));
    }
    var n := WithLanes(accounts, account, LanesOf(accounts, account).WithLane(side, lane));
    hide Linked, Describes, LanesOf, AuctionAccountIndex.Lane, AuctionAccountIndex.WithLane;
    forall a, s ensures Describes(LanesOf(n, a).Lane(s), d, AccountLane(a, s)) {
      LanesAfterReplace(accounts, account, side, lane, a, s);
    }
  }

  // ----- inserting at the tail

  lemma PriceIndexInsert(c: Chain, ix: PriceIndex, id: OrderId, side: Side, constraint: AuctionOrderConstraint, rank: nat, quantity: nat, grown: AuctionQueue)
    requires PriceIndexed(c, ix) && id !in c && forall j :: j in c ==> c[j].rank < rank
    requires ix.QueueAt(side, constraint).GrownBy(grown, id, quantity)
    ensures ix.QueueAt(side, constraint).tail.Some? ==> ix.QueueAt(side, constraint).tail.value in c
    ensures PriceIndexed(Append(c, id, PriceQueue(side, constraint), rank, quantity, ix.QueueAt(side, constraint).tail), ix.Replaced(side, constraint, grown))
  {
    var key, queue := PriceQueue(side, constraint), ix.QueueAt(side, constraint);
    assert Describes(queue, c, key);
    DescribesEnds(queue, c, key);
    hide Linked, Describes, PriceIndex.Replaced, PriceIndex.QueueAt, PriceIndex.Levels;
    AppendKeepsLinks(c, id, key, rank, quantity, queue.tail);
    hide Append;
    AppendDescribes(c, id, key, rank, quantity, queue, grown);
    forall s, k | PriceQueue(s, k) != key
      ensures Describes(ix.QueueAt(s, k), Append(c, id, key, rank, quantity, queue.tail), PriceQueue(s, k))
    {
      AppendDescribesOther(c, id, key, rank, quantity, queue.tail, PriceQueue(s, k), ix.QueueAt(s, k));
    }
    PriceIndexChanged(c, Append(c, id, key, rank, quantity, queue.tail), ix, side, constraint, grown);
  }

  lemma AccountsInsert(c: Chain, accounts: Accounts, id: OrderId, account: AccountId, side: Side, rank: nat, quantity: nat, grown: AuctionQueue)
    requires AccountIndexed(c, accounts) && id !in c && forall j :: j in c ==> c[j].rank < rank
    requires LanesOf(accounts, account).Lane(side).GrownBy(grown, id, quantity)
    ensures LanesOf(accounts, account).Lane(side).tail.Some? ==> LanesOf(accounts, account).Lane(side).tail.value in c
    ensures AccountIndexed(Append(c, id, AccountLane(account, side), rank, quantity, LanesOf(accounts, account).Lane(side).tail),
                           WithLanes(accounts, account, LanesOf(accounts, account).WithLane(side, grown)))
  {
    var key, queue := AccountLane(account, side), LanesOf(accounts, account).Lane(side);
    assert Describes(queue, c, key);
    DescribesEnds(queue, c, key);
    hide Linked, Describes, LanesOf, AuctionAccountIndex.Lane, AuctionAccountIndex.WithLane, WithLanes;
    AppendKeepsLinks(c, id, key, rank, quantity, queue.tail);
    hide Append;
    AppendDescribes(c, id, key, rank, quantity, queue, grown);
    forall a, s | AccountLane(a, s) != key
      ensures Describes(LanesOf(accounts, a).Lane(s), Append(c, id, key, rank, quantity, queue.tail), AccountLane(a, s))
    {
      AppendDescribesOther(c, id, key, rank, quantity, queue.tail, AccountLane(a, s), LanesOf(accounts, a).Lane(s));
    }
    AccountsChanged(c, Append(c, id, key, rank, quantity, queue.tail), accounts, account, side, grown);
  }

  // ----- removing anywhere

  lemma PriceIndexRemove(c: Chain, ix: PriceIndex, id: OrderId, side: Side, constraint: AuctionOrderConstraint, shrunk: AuctionQueue)
    requires PriceIndexed(c, ix) && id in c && c[id].key == PriceQueue(side, constraint)
    requires ix.QueueAt(side, constraint).ShrunkBy(shrunk, id, c[id].previous, c[id].next, c[id].quantity)
    ensures HasNeighbours(c, id) && PriceIndexed(Unlink(c, id), ix.Replaced(side, constraint, shrunk))
  {
    var key, queue := PriceQueue(side, constraint), ix.QueueAt(side, constraint);
    assert Describes(queue, c, key);
    hide Linked, Describes, PriceIndex.Replaced, PriceIndex.QueueAt, PriceIndex.Levels, Unlink, HasNeighbours;
    UnlinkIsDefined(c, id);
    UnlinkKeepsLinks(c, id);
    UnlinkDescribes(c, id, queue, shrunk);
    forall s, k | PriceQueue(s, k) != key
      ensures Describes(ix.QueueAt(s, k), Unlink(c, id), PriceQueue(s, k))
    {
      UnlinkDescribesOther(c, id, PriceQueue(s, k), ix.QueueAt(s, k));
    }
    PriceIndexChanged(c, Unlink(c, id), ix, side, constraint, shrunk);
  }

  lemma AccountsRemove(c: Chain, accounts: Accounts, id: OrderId, account: AccountId, side: Side, shrunk: AuctionQueue)
    requires AccountIndexed(c, accounts) && id in c && c[id].key == AccountLane(account, side)
    requires LanesOf(accounts, account).Lane(side).ShrunkBy(shrunk, id, c[id].previous, c[id].next, c[id].quantity)
    ensures HasNeighbours(c, id)
    ensures AccountIndexed(Unlink(c, id), WithLanes(accounts, account, LanesOf(accounts, account).WithLane(side, shrunk)))
  {
    var key, queue := AccountLane(account, side), LanesOf(accounts, account).Lane(side);
    assert Describes(queue, c, key);
    hide Linked, Describes, LanesOf, AuctionAccountIndex.Lane, AuctionAccountIndex.WithLane, WithLanes, Unlink, HasNeighbours;
    UnlinkIsDefined(c, id);
    UnlinkKeepsLinks(c, id);
    UnlinkDescribes(c, id, queue, shrunk);
    forall a, s | AccountLane(a, s) != key
      ensures Describes(LanesOf(accounts, a).Lane(s), Unlink(c, id), AccountLane(a, s))
    {
      UnlinkDescribesOther(c, id, AccountLane(a, s), LanesOf(accounts, a).Lane(s));
    }
    AccountsChanged(c, Unlink(c, id), accounts, account, side, shrunk);
  }

  // ----- reducing in place

  lemma PriceIndexReduce(c: Chain, ix: PriceIndex, id: OrderId, side: Side, constraint: AuctionOrderConstraint, quantity: nat, total: u128)
    requires PriceIndexed(c, ix) && id in c && c[id].key == PriceQueue(side, constraint) && quantity <= c[id].quantity
    requires total == ix.QueueAt(side, constraint).totalQuantity - (c[id].quantity - quantity)
    ensures PriceIndexed(Reduce(c, id, quantity), ix.Replaced(side, constraint, ix.QueueAt(side, constraint).(totalQuantity := total)))
  {
    var key, queue := PriceQueue(side, constraint), ix.QueueAt(side, constraint);
    var reduced := queue.(totalQuantity := total);
    assert Describes(queue, c, key);
    hide Linked, Describes, PriceIndex.Replaced, PriceIndex.QueueAt, PriceIndex.Levels;
    ReduceKeepsLinks(c, id, quantity);
    ReduceDescribes(c, id, quantity, key, queue, reduced);
    forall s, k | PriceQueue(s, k) != key
      ensures Describes(ix.QueueAt(s, k), Reduce(c, id, quantity), PriceQueue(s, k))
    {
      ReduceDescribes(c, id, quantity, PriceQueue(s, k), ix.QueueAt(s, k), ix.QueueAt(s, k));
    }
    hide Reduce;
    PriceIndexChanged(c, Reduce(c, id, quantity), ix, side, constraint, reduced);
  }

  lemma AccountsReduce(c: Chain, accounts: Accounts, id: OrderId, account: AccountId, side: Side, quantity: nat, total: u128)
    requires AccountIndexed(c, accounts) && id in c && c[id].key == AccountLane(account, side) && quantity <= c[id].quantity
    requires total == LanesOf(accounts, account).Lane(side).totalQuantity - (c[id].quantity - quantity)
    ensures AccountIndexed(Reduce(c, id, quantity),
                           WithLanes(accounts, account, LanesOf(accounts, account).WithLane(side, LanesOf(accounts, account).Lane(side).(totalQuantity := total))))
  {
    var key, queue := AccountLane(account, side), LanesOf(accounts, account).Lane(side);
    var reduced := queue.(totalQuantity := total);
    assert Describes(queue, c, key);
    hide Linked, Describes, LanesOf, AuctionAccountIndex.Lane, AuctionAccountIndex.WithLane, WithLanes;
    ReduceKeepsLinks(c, id, quantity);
    ReduceDescribes(c, id, quantity, key, queue, reduced);
    forall a, s | AccountLane(a, s) != key
      ensures Describes(LanesOf(accounts, a).Lane(s), Reduce(c, id, quantity), AccountLane(a, s))
    {
      ReduceDescribes(c, id, quantity, AccountLane(a, s), LanesOf(accounts, a).Lane(s), LanesOf(accounts, a).Lane(s));
    }
    hide Reduce;
    AccountsChanged(c, Reduce(c, id, quantity), accounts, account, side, reduced);
  }

  // ----- aggregates fit their machine types

  ghost predicate MachineQuantities(c: Chain) {
    forall id :: id in c ==> 1 <= c[id].quantity <= U64_MAX
  }

  lemma OrderQuantities(orders: Orders)
    ensures MachineQuantities(PriceChain(orders)) && MachineQuantities(LaneChain(orders))
    ensures |PriceChain(orders)| == |LaneChain(orders)| == |ActiveOf(orders)| == |orders|
  {
    assert |PriceChain(orders)| == |PriceChain(orders).Keys| && |LaneChain(orders)| == |LaneChain(orders).Keys|;
    assert |ActiveOf(orders)| == |ActiveOf(orders).Keys| && |orders| == |orders.Keys|;
  }

  /** Counts and totals of one list, with one more order, stay in range while orders can be counted. */
  lemma RoomToGrow(c: Chain, q: AuctionQueue, key: ListKey, quantity: nat)
    requires Describes(q, c, key) && |c| < U64_MAX && quantity <= U64_MAX
    requires MachineQuantities(c)
    ensures q.orderCount + 1 <= U64_MAX && q.totalQuantity + quantity <= U128_MAX
  {
    var ids := Members(c, key);
    TotalBounds(NodeQuantities(c), ids, U64_MAX);
    SubsetSize(ids, c.Keys);
    assert |c| == |c.Keys|;
    ScaleBound(|ids| + 1, U64_MAX);
    ProductStep(|ids|, U64_MAX);
  }

  /** A list that `target` may be leaving has room for another order. */
  lemma RoomToSwap(c: Chain, q: AuctionQueue, key: ListKey, target: OrderId, quantity: nat)
    requires Describes(q, c, key) && |c| <= U64_MAX && quantity <= U64_MAX && target in c && MachineQuantities(c)
    ensures q.totalQuantity + quantity <= U128_MAX
    ensures if c[target].key == key then q.totalQuantity >= c[target].quantity && q.orderCount >= 1 else q.orderCount + 1 <= U64_MAX
  {
    var ids := Members(c, key);
    TotalBounds(NodeQuantities(c), ids, U64_MAX);
    SubsetSize(ids, c.Keys);
    assert |c| == |c.Keys|;
    ScaleIsMonotone(|ids|, U64_MAX, U64_MAX);
    if c[target].key == key {
      RoomToShrink(c, q, target);
    } else {
      SubsetSize(ids, c.Keys - {target});
      assert |c.Keys - {target}| == |c.Keys| - 1;
    }
  }

  /** A member's quantity is part of its list's total, and all of it only when it is alone. */
  lemma RoomToShrink(c: Chain, q: AuctionQueue, id: OrderId)
    requires id in c && Describes(q, c, c[id].key)
    ensures q.orderCount >= 1 && q.totalQuantity >= c[id].quantity
  {
    assert id in Members(c, c[id].key);
    TotalTake(NodeQuantities(c), Members(c, c[id].key), id);
  }

  /** A list of one order is that order and its quantity. */
  lemma AloneInList(c: Chain, q: AuctionQueue, id: OrderId)
    requires id in c && Linked(c) && Describes(q, c, c[id].key) && q.orderCount == 1
    ensures q.totalQuantity == c[id].quantity && q.head == q.tail == Some(id) && c[id].previous == c[id].next == None
  {
    OneMember(c, q, id);
    hide Linked, Members, NodeQuantities;
    AloneHasNoNeighbours(c, id);
  }

  lemma OneMember(c: Chain, q: AuctionQueue, id: OrderId)
    requires id in c && Describes(q, c, c[id].key) && q.orderCount == 1
    ensures Members(c, c[id].key) == {id} && q.totalQuantity == c[id].quantity && q.head == q.tail == Some(id)
  {
    var ids := Members(c, c[id].key);
    assert id in ids && |ids - {id}| == 0;
    assert ids == {id};
    hide Members, NodeQuantities;
    TotalTake(NodeQuantities(c), ids, id);
    assert Total(NodeQuantities(c), ids - {id}) == 0;
    assert NodeQuantities(c)[id] == c[id].quantity by { QuantityAt(c, id); }
  }

  lemma QuantityAt(c: Chain, id: OrderId)
    requires id in c
    ensures NodeQuantities(c)[id] == c[id].quantity
  {
  }

  lemma AloneHasNoNeighbours(c: Chain, id: OrderId)
    requires id in c && Linked(c) && Members(c, c[id].key) == {id}
    ensures c[id].previous == c[id].next == None
  {
    hide Members, Before;
    assert IsPrevious(c, c[id].previous, id) && IsNext(c, c[id].next, id);
    hide Linked;
    if c[id].previous.Some? { NobodyElse(c, c[id].previous.value, id); }
    if c[id].next.Some? { NobodyElse(c, c[id].next.value, id); }
  }

  lemma NobodyElse(c: Chain, j: OrderId, id: OrderId)
    requires id in c && Members(c, c[id].key) == {id}
    ensures !Before(c, j, id) && !Before(c, id, j)
  {
    assert j in c && c[j].key == c[id].key ==> j in Members(c, c[id].key);
  }

  /** The occupied levels of the index are the limit prices of the active orders. */
  lemma LevelsArePrices(orders: Orders, ix: PriceIndex, side: Side, price: Price)
    requires PriceIndexed(PriceChain(orders), ix)
    ensures price in ix.Levels(side) <==> exists id :: id in orders && orders[id].order.side == side && orders[id].order.constraint == Limit(price)
  {
    var c, key := PriceChain(orders), PriceQueue(side, Limit(price));
    var queue := ix.QueueAt(side, Limit(price));
    assert Describes(queue, c, key);
    assert price in ix.Levels(side) <==> queue.orderCount > 0;
    hide PriceIndexed, Linked;
    if Members(c, key) == {} {
      forall id | id in orders ensures !(orders[id].order.side == side && orders[id].order.constraint == Limit(price)) {
        assert id !in Members(c, key);
      }
    } else {
      var id :| id in Members(c, key);
      assert id in orders && orders[id].order.side == side && orders[id].order.constraint == Limit(price);
    }
  }

  // ----- rewriting links in the order map

  function WithNext(orders: Orders, at: Option<OrderId>, next: Option<OrderId>): Orders {
    if at.Some? && at.value in orders then orders[at.value := orders[at.value].(next := next)] else orders
  }

  function WithPrevious(orders: Orders, at: Option<OrderId>, previous: Option<OrderId>): Orders {
    if at.Some? && at.value in orders then orders[at.value := orders[at.value].(previous := previous)] else orders
  }

  function WithAccountNext(orders: Orders, at: Option<OrderId>, next: Option<OrderId>): Orders {
    if at.Some? && at.value in orders then orders[at.value := orders[at.value].(accountNext := next)] else orders
  }

  function WithAccountPrevious(orders: Orders, at: Option<OrderId>, previous: Option<OrderId>): Orders {
    if at.Some? && at.value in orders then orders[at.value := orders[at.value].(accountPrevious := previous)] else orders
  }

  lemma PutChains(orders: Orders, id: OrderId, r: RestingAuctionOrder)
    ensures PriceChain(orders[id := r]) == PriceChain(orders)[id := PriceNode(r)]
    ensures LaneChain(orders[id := r]) == LaneChain(orders)[id := LaneNode(r)]
    ensures ActiveOf(orders[id := r]) == ActiveOf(orders)[id := r.order]
  {
    hide PriceNode, LaneNode;
  }

  lemma NodesAt(orders: Orders, id: OrderId)
    requires id in orders
    ensures ActiveOf(orders)[id] == orders[id].order
    ensures var r, c := orders[id], PriceChain(orders);
            && c[id].key == PriceQueue(r.order.side, r.order.constraint) && c[id].quantity == r.order.quantity
            && c[id].rank == r.order.prioritySequence && c[id].previous == r.previous && c[id].next == r.next
    ensures var r, d := orders[id], LaneChain(orders);
            && d[id].key == AccountLane(r.order.accountId, r.order.side) && d[id].quantity == r.order.quantity
            && d[id].rank == r.order.prioritySequence && d[id].previous == r.accountPrevious && d[id].next == r.accountNext
  {
  }

  lemma OrderAt(orders: Orders, id: OrderId)
    requires id in orders
    ensures ActiveOf(orders)[id] == orders[id].order
  {
  }

  lemma DropChains(orders: Orders, id: OrderId)
    ensures PriceChain(orders - {id}) == PriceChain(orders) - {id}
    ensures LaneChain(orders - {id}) == LaneChain(orders) - {id}
    ensures ActiveOf(orders - {id}) == ActiveOf(orders) - {id}
  {
    hide PriceNode, LaneNode;
  }

  /** Two order maps with the same lanes and the same orders, whatever their price links. */
  ghost predicate SameLanes(orders: Orders, n: Orders) {
    LaneChain(n) == LaneChain(orders) && ActiveOf(n) == ActiveOf(orders)
  }

  ghost predicate SamePrices(orders: Orders, n: Orders) {
    PriceChain(n) == PriceChain(orders) && ActiveOf(n) == ActiveOf(orders)
  }

  lemma PriceRelink(orders: Orders, id: OrderId, r: RestingAuctionOrder)
    requires id in orders && r == orders[id].(previous := r.previous, next := r.next)
    ensures PriceChain(orders[id := r]) == PriceChain(orders)[id := PriceChain(orders)[id].(previous := r.previous, next := r.next)]
    ensures SameLanes(orders, orders[id := r])
  {
    PutChains(orders, id, r);
    assert LaneNode(r) == LaneChain(orders)[id] && r.order == ActiveOf(orders)[id];
    hide LaneNode;
    assert LaneChain(orders)[id := LaneChain(orders)[id]] == LaneChain(orders);
    assert ActiveOf(orders)[id := ActiveOf(orders)[id]] == ActiveOf(orders);
  }

  lemma LaneRelink(orders: Orders, id: OrderId, r: RestingAuctionOrder)
    requires id in orders && r == orders[id].(accountPrevious := r.accountPrevious, accountNext := r.accountNext)
    ensures LaneChain(orders[id := r]) == LaneChain(orders)[id := LaneChain(orders)[id].(previous := r.accountPrevious, next := r.accountNext)]
    ensures SamePrices(orders, orders[id := r])
  {
    PutChains(orders, id, r);
    assert PriceNode(r) == PriceChain(orders)[id] && r.order == ActiveOf(orders)[id];
    hide PriceNode;
    assert PriceChain(orders)[id := PriceChain(orders)[id]] == PriceChain(orders);
    assert ActiveOf(orders)[id := ActiveOf(orders)[id]] == ActiveOf(orders);
  }

  lemma NextLink(orders: Orders, at: Option<OrderId>, to: Option<OrderId>)
    requires at.Some? ==> at.value in orders
    ensures PriceChain(WithNext(orders, at, to)) == SetNext(PriceChain(orders), at, to) && SameLanes(orders, WithNext(orders, at, to))
  {
    if at.Some? { PriceRelink(orders, at.value, orders[at.value].(next := to)); }
  }

  lemma PreviousLink(orders: Orders, at: Option<OrderId>, to: Option<OrderId>)
    requires at.Some? ==> at.value in orders
    ensures PriceChain(WithPrevious(orders, at, to)) == SetPrevious(PriceChain(orders), at, to) && SameLanes(orders, WithPrevious(orders, at, to))
  {
    if at.Some? { PriceRelink(orders, at.value, orders[at.value].(previous := to)); }
  }

  lemma AccountNextLink(orders: Orders, at: Option<OrderId>, to: Option<OrderId>)
    requires at.Some? ==> at.value in orders
    ensures LaneChain(WithAccountNext(orders, at, to)) == SetNext(LaneChain(orders), at, to) && SamePrices(orders, WithAccountNext(orders, at, to))
  {
    if at.Some? { LaneRelink(orders, at.value, orders[at.value].(accountNext := to)); }
  }

  lemma AccountPreviousLink(orders: Orders, at: Option<OrderId>, to: Option<OrderId>)
    requires at.Some? ==> at.value in orders
    ensures LaneChain(WithAccountPrevious(orders, at, to)) == SetPrevious(LaneChain(orders), at, to) && SamePrices(orders, WithAccountPrevious(orders, at, to))
  {
    if at.Some? { LaneRelink(orders, at.value, orders[at.value].(accountPrevious := to)); }
  }

  /** Both tails point to the new order, which points back to both. */
  ghost function Inserted(orders: Orders, order: CallAuctionOrderSnapshot, tail: Option<OrderId>, laneTail: Option<OrderId>): Orders {
    WithNext(WithAccountNext(orders, laneTail, Some(order.orderId)), tail, Some(order.orderId))
    [order.orderId := RestingAuctionOrder(order, tail, None, laneTail, None)]
  }

  lemma InsertedIs(orders: Orders, order: CallAuctionOrderSnapshot, tail: Option<OrderId>, laneTail: Option<OrderId>)
    ensures Inserted(orders, order, tail, laneTail) ==
              WithNext(WithAccountNext(orders, laneTail, Some(order.orderId)), tail, Some(order.orderId))
              [order.orderId := RestingAuctionOrder(order, tail, None, laneTail, None)]
  {
  }

  lemma InsertedChains(orders: Orders, order: CallAuctionOrderSnapshot, tail: Option<OrderId>, laneTail: Option<OrderId>)
    requires (tail.Some? ==> tail.value in orders) && (laneTail.Some? ==> laneTail.value in orders) && order.orderId !in orders
    ensures var n := Inserted(orders, order, tail, laneTail);
            && PriceChain(n) == Append(PriceChain(orders), order.orderId, PriceKey(order), order.prioritySequence, order.quantity, tail)
            && LaneChain(n) == Append(LaneChain(orders), order.orderId, LaneKey(order), order.prioritySequence, order.quantity, laneTail)
            && ActiveOf(n) == ActiveOf(orders)[order.orderId := order]
  {
    hide PriceChain, LaneChain, ActiveOf, WithNext, WithAccountNext, SetNext;
    var a := WithAccountNext(orders, laneTail, Some(order.orderId));
    AccountNextLink(orders, laneTail, Some(order.orderId));
    assert a.Keys == orders.Keys by { assert PriceChain(a).Keys == PriceChain(orders).Keys; }
    var b := WithNext(a, tail, Some(order.orderId));
    NextLink(a, tail, Some(order.orderId));
    PutChains(b, order.orderId, RestingAuctionOrder(order, tail, None, laneTail, None));
  }

  /** Both lists close over the removed order. */
  ghost function Removed(orders: Orders, r: RestingAuctionOrder): Orders {
    WithAccountPrevious(
      WithAccountNext(
        WithPrevious(WithNext(orders, r.previous, r.next), r.next, r.previous),
        r.accountPrevious, r.accountNext),
      r.accountNext, r.accountPrevious) - {r.order.orderId}
  }

  lemma RemovedIs(orders: Orders, r: RestingAuctionOrder)
    ensures Removed(orders, r) ==
              WithAccountPrevious(
                WithAccountNext(
                  WithPrevious(WithNext(orders, r.previous, r.next), r.next, r.previous),
                  r.accountPrevious, r.accountNext),
                r.accountNext, r.accountPrevious) - {r.order.orderId}
    ensures r.order.orderId in orders ==> Removed(orders, r).Keys == orders.Keys - {r.order.orderId}
  {
  }

  lemma RemovedChains(orders: Orders, id: OrderId)
    requires id in orders && orders[id].order.orderId == id
    requires HasNeighbours(PriceChain(orders), id) && HasNeighbours(LaneChain(orders), id)
    ensures var n := Removed(orders, orders[id]);
            && PriceChain(n) == Unlink(PriceChain(orders), id)
            && LaneChain(n) == Unlink(LaneChain(orders), id)
            && ActiveOf(n) == ActiveOf(orders) - {id}
  {
    var r := orders[id];
    assert PriceChain(orders)[id] == PriceNode(r) && LaneChain(orders)[id] == LaneNode(r);
    var a := WithNext(orders, r.previous, r.next);
    NextLink(orders, r.previous, r.next);
    var b := WithPrevious(a, r.next, r.previous);
    hide PriceChain, LaneChain, ActiveOf, WithNext, WithPrevious, WithAccountNext, WithAccountPrevious, SetNext, SetPrevious;
    assert a.Keys == orders.Keys by { assert LaneChain(a).Keys == LaneChain(orders).Keys; }
    PreviousLink(a, r.next, r.previous);
    assert b.Keys == orders.Keys by { assert LaneChain(b).Keys == LaneChain(orders).Keys; }
    var c := WithAccountNext(b, r.accountPrevious, r.accountNext);
    AccountNextLink(b, r.accountPrevious, r.accountNext);
    assert c.Keys == orders.Keys by { assert PriceChain(c).Keys == PriceChain(b).Keys; }
    AccountPreviousLink(c, r.accountNext, r.accountPrevious);
    DropChains(WithAccountPrevious(c, r.accountNext, r.accountPrevious), id);
  }

  lemma ReducedChains(orders: Orders, id: OrderId, quantity: Quantity)
    requires id in orders
    ensures var n := orders[id := orders[id].(order := orders[id].order.(quantity := quantity))];
            && PriceChain(n) == Reduce(PriceChain(orders), id, quantity)
            && LaneChain(n) == Reduce(LaneChain(orders), id, quantity)
            && ActiveOf(n) == ActiveOf(orders)[id := ActiveOf(orders)[id].(quantity := quantity)]
  {
    PutChains(orders, id, orders[id].(order := orders[id].order.(quantity := quantity)));
  }

  lemma LevelKeys(orders: Orders, ix: PriceIndex, m: BookModel, side: Side)
    requires PriceIndexed(PriceChain(orders), ix) && m.active == ActiveOf(orders)
    ensures ix.Levels(side).Keys == m.LevelPrices(side) && |ix.Levels(side)| == |m.LevelPrices(side)|
  {
    hide PriceIndexed, PriceIndex.Levels;
    forall price ensures price in ix.Levels(side) <==> price in m.LevelPrices(side) {
      LevelsArePrices(orders, ix, side, price);
      if price in ix.Levels(side) {
        var id :| id in orders && orders[id].order.side == side && orders[id].order.constraint == Limit(price);
        assert m.active[id] == orders[id].order;
      }
    }
    assert |ix.Levels(side)| == |ix.Levels(side).Keys|;
  }

  lemma OthersInQueue(c: Chain, q: AuctionQueue, target: OrderId)
    requires target in c && Describes(q, c, c[target].key)
    ensures q.orderCount != 1 <==> exists id :: id in c && id != target && c[id].key == c[target].key
  {
    var key := c[target].key;
    var others := Members(c, key) - {target};
    assert target in Members(c, key) && |others| == q.orderCount - 1;
    if others != {} {
      var id :| id in others;
      assert id in c && id != target && c[id].key == key;
    } else {
      forall id | id in c && c[id].key == key ensures id == target { assert id in Members(c, key) && id !in others; }
    }
  }

  /** Whether another order rests at the level of `target`. */
  lemma LevelSurvives(orders: Orders, ix: PriceIndex, target: OrderId, side: Side, price: Price)
    requires PriceIndexed(PriceChain(orders), ix) && target in orders && OnLevel(orders[target].order, side, price)
    ensures ix.QueueAt(side, Limit(price)).orderCount != 1 <==>
            exists id :: id in ActiveOf(orders) && id != target && OnLevel(ActiveOf(orders)[id], side, price)
  {
    var c := PriceChain(orders);
    QueueIsDescribed(c, ix, side, Limit(price));
    hide PriceIndexed, Linked, Describes, PriceIndex.QueueAt;
    OthersInQueue(c, ix.QueueAt(side, Limit(price)), target);
    forall id | id in orders
      ensures c[id].key == c[target].key <==> OnLevel(ActiveOf(orders)[id], side, price)
    {
    }
  }

  /** The levels of a side once a target has left. */
  lemma LevelsWithoutTarget(orders: Orders, ix: PriceIndex, m: BookModel, target: OrderId, side: Side, price: Price)
    requires PriceIndexed(PriceChain(orders), ix) && m.active == ActiveOf(orders) && target in orders
    ensures var alone := OnLevel(orders[target].order, side, price) && ix.QueueAt(side, Limit(price)).orderCount == 1;
            && (alone ==> price in m.LevelPrices(side))
            && (price in WithoutTarget(m, target).LevelPrices(side) <==> price in m.LevelPrices(side) && !alone)
  {
    LevelMember(m, side, price);
    LevelMember(WithoutTarget(m, target), side, price);
    LevelAfterDeparture(m.active, target, side, price);
    OrderAt(orders, target);
    hide PriceIndexed, PriceIndex.QueueAt, PriceChain, BookModel.LevelPrices, OnLevel, ActiveOf;
    if OnLevel(orders[target].order, side, price) {
      LevelSurvives(orders, ix, target, side, price);
    }
  }

  // ----- reading the price index in order

  ghost predicate AscendingPrices(s: seq<Price>) {
    forall i, j :: 0 <= i < j < |s| ==> s[i] < s[j]
  }

  predicate IsLeast(p: Price, prices: set<Price>) {
    p in prices && forall q {:trigger q in prices} :: q in prices ==> p <= q
  }

  lemma {:induction false} LeastPrice(prices: set<Price>) returns (least: Price)
    requires prices != {}
    ensures IsLeast(least, prices)
    decreases |prices|
  {
    var p :| p in prices;
    var others := prices - {p};
    if others == {} {
      assert prices == {p};
      least := p;
    } else {
      var l := LeastPrice(others);
      least := if p < l then p else l;
      forall q | q in prices ensures least <= q { assert q == p || q in others; }
    }
  }

  ghost predicate AllBelow(s: seq<Price>, rest: set<Price>) {
    forall i, q {:trigger s[i], q in rest} :: 0 <= i < |s| && q in rest ==> s[i] < q
  }

  lemma NextInOrder(s: seq<Price>, rest: set<Price>, least: Price)
    requires AscendingPrices(s) && AllBelow(s, rest) && IsLeast(least, rest)
    ensures AscendingPrices(s + [least]) && AllBelow(s + [least], rest - {least})
  {
    var t := s + [least];
    forall i, q | 0 <= i < |t| && q in rest - {least} ensures t[i] < q {
      assert q in rest;
      if i < |s| { assert s[i] < q; }
    }
    forall i, j | 0 <= i < j < |t| ensures t[i] < t[j] {
      if j == |s| { assert s[i] < least; }
    }
  }

  /** In-order traversal of an ordered index. */
  method InOrder(prices: set<Price>) returns (s: seq<Price>)
    ensures AscendingPrices(s) && forall p :: p in s <==> p in prices
  {
    hide AscendingPrices, AllBelow;
    var rest := prices;
    s := [];
    assert AscendingPrices(s) && AllBelow(s, rest) by { NothingRead(rest); }
    while rest != {}
      invariant AscendingPrices(s) && AllBelow(s, rest) && rest <= prices
      invariant forall p :: p in prices <==> p in s || p in rest
      decreases |rest|
    {
      ghost var witnessed := LeastPrice(rest);
      var least :| IsLeast(least, rest);
      NextInOrder(s, rest, least);
      s := s + [least];
      rest := rest - {least};
    }
  }

  lemma NothingRead(rest: set<Price>)
    ensures AscendingPrices([]) && AllBelow([], rest)
  {
  }

  /** What one level of the index holds is what rests at its price. */
  lemma LevelTotal(orders: Orders, ix: PriceIndex, side: Side, price: Price)
    requires PriceIndexed(PriceChain(orders), ix)
    ensures ix.QueueAt(side, Limit(price)).totalQuantity == Total(Lots(ActiveOf(orders)), LevelIds(ActiveOf(orders), side, price))
    ensures price in ix.Levels(side) ==> ix.Levels(side)[price] == ix.QueueAt(side, Limit(price)) && ix.Levels(side)[price].totalQuantity >= 1
  {
    var c := PriceChain(orders);
    QueueIsDescribed(c, ix, side, Limit(price));
    LotsAreQuantities(orders);
    assert price in ix.Levels(side) ==> ix.QueueAt(side, Limit(price)).orderCount > 0;
    hide PriceIndexed, Linked, PriceIndex.QueueAt, IsHead, IsTail, NodeQuantities, Lots;
    assert Members(c, PriceQueue(side, Limit(price))) == LevelIds(ActiveOf(orders), side, price) by { QueueMembers(orders, side, Limit(price)); LevelIdsAre(ActiveOf(orders), side, price); }
    OrderQuantities(orders);
    QuantitiesPositive(c);
    TotalBounds(NodeQuantities(c), Members(c, PriceQueue(side, Limit(price))), U64_MAX);
  }

  lemma QuantitiesPositive(c: Chain)
    requires MachineQuantities(c)
    ensures forall id :: id in NodeQuantities(c) ==> 1 <= NodeQuantities(c)[id] <= U64_MAX
  {
  }

  lemma MarketTotal(orders: Orders, ix: PriceIndex, side: Side)
    requires PriceIndexed(PriceChain(orders), ix)
    ensures ix.QueueAt(side, AuctionOrderConstraint.Market).totalQuantity == Total(Lots(ActiveOf(orders)), MarketIds(ActiveOf(orders), side))
  {
    var c := PriceChain(orders);
    QueueIsDescribed(c, ix, side, AuctionOrderConstraint.Market);
    LotsAreQuantities(orders);
    hide PriceIndexed, Linked, PriceIndex.QueueAt, IsHead, IsTail, NodeQuantities, Lots;
    assert Members(c, PriceQueue(side, AuctionOrderConstraint.Market)) == MarketIds(ActiveOf(orders), side) by { QueueMembers(orders, side, AuctionOrderConstraint.Market); }
  }

  lemma LotsAreQuantities(orders: Orders)
    ensures NodeQuantities(PriceChain(orders)) == Lots(ActiveOf(orders))
  {
  }

  ghost function QueueIds(active: Active, side: Side, constraint: AuctionOrderConstraint): set<OrderId> {
    set id | id in active && active[id].side == side && active[id].constraint == constraint
  }

  lemma LevelIdsAre(active: Active, side: Side, price: Price)
    ensures QueueIds(active, side, Limit(price)) == LevelIds(active, side, price)
  {
  }

  lemma QueueMembers(orders: Orders, side: Side, constraint: AuctionOrderConstraint)
    ensures Members(PriceChain(orders), PriceQueue(side, constraint)) == QueueIds(ActiveOf(orders), side, constraint)
  {
    forall id | id in orders
      ensures PriceChain(orders)[id].key == PriceQueue(ActiveOf(orders)[id].side, ActiveOf(orders)[id].constraint)
    {
      NodesAt(orders, id);
    }
    hide PriceChain, ActiveOf;
  }

  /** The scratch level at one position of a best-first read of the index. */
  ghost predicate IndexRead(levels: seq<AuctionLevel>, ix: PriceIndex, side: Side, prices: seq<Price>) {
    && AscendingPrices(prices) && (forall p :: p in prices <==> p in ix.Levels(side)) && |levels| == |prices|
    && forall k {:trigger levels[k]} :: 0 <= k < |levels| ==>
         var price := if side == Buy then prices[|prices| - 1 - k] else prices[k];
         levels[k].price == price && price in ix.Levels(side) && levels[k].quantity == ix.Levels(side)[price].totalQuantity
  }

  lemma ReadIsLevels(levels: seq<AuctionLevel>, orders: Orders, ix: PriceIndex, side: Side, prices: seq<Price>)
    requires PriceIndexed(PriceChain(orders), ix) && IndexRead(levels, ix, side, prices)
    ensures LevelsOf(levels, ActiveOf(orders), side)
  {
    hide PriceIndexed, PriceChain, Lots, PriceIndex.QueueAt;
    forall i | 0 <= i < |levels|
      ensures levels[i].quantity == Total(Lots(ActiveOf(orders)), LevelIds(ActiveOf(orders), side, levels[i].price))
    {
      LevelTotal(orders, ix, side, levels[i].price);
    }
    forall id | id in ActiveOf(orders) && ActiveOf(orders)[id].side == side && ActiveOf(orders)[id].constraint.Limit?
      ensures PricedIn(levels, |levels|, ActiveOf(orders)[id].constraint)
    {
      var price := ActiveOf(orders)[id].constraint.price;
      LevelsArePrices(orders, ix, side, price);
      assert price in prices;
      var k :| 0 <= k < |prices| && prices[k] == price;
      var at := if side == Buy then |prices| - 1 - k else k;
      assert levels[at].price == price;
    }
  }

  // ----- reading every order of a side, queue by queue

  function BestFirst(prices: seq<Price>, side: Side, n: nat): Price
    requires n < |prices|
  {
    if side == Buy then prices[|prices| - 1 - n] else prices[n]
  }

  /** Orders read once the market queue and the first `n` levels have been. */
  ghost function ReadIds(active: Active, side: Side, prices: seq<Price>, n: nat): set<OrderId>
    requires n <= |prices|
  {
    if n == 0 then QueueIds(active, side, AuctionOrderConstraint.Market)
    else ReadIds(active, side, prices, n - 1) + QueueIds(active, side, Limit(BestFirst(prices, side, n - 1)))
  }

  ghost predicate PricedBefore(prices: seq<Price>, side: Side, n: nat, constraint: AuctionOrderConstraint)
    requires n <= |prices|
  {
    constraint == AuctionOrderConstraint.Market || exists k :: 0 <= k < n && constraint == Limit(BestFirst(prices, side, k))
  }

  lemma {:induction false} ReadIdsAre(active: Active, side: Side, prices: seq<Price>, n: nat, id: OrderId)
    requires n <= |prices|
    ensures id in ReadIds(active, side, prices, n) <==> id in active && active[id].side == side && PricedBefore(prices, side, n, active[id].constraint)
  {
    hide BestFirst;
    if n > 0 {
      ReadIdsAre(active, side, prices, n - 1, id);
    }
  }

  lemma NextQueueIsNew(active: Active, side: Side, prices: seq<Price>, n: nat)
    requires n < |prices| && AscendingPrices(prices)
    ensures ReadIds(active, side, prices, n) !! QueueIds(active, side, Limit(BestFirst(prices, side, n)))
  {
    hide ReadIds;
    forall id | id in ReadIds(active, side, prices, n) ensures id !in QueueIds(active, side, Limit(BestFirst(prices, side, n))) {
      ReadIdsAre(active, side, prices, n, id);
    }
  }

  lemma AllQueuesRead(orders: Orders, ix: PriceIndex, side: Side, prices: seq<Price>)
    requires PriceIndexed(PriceChain(orders), ix) && forall p :: p in prices <==> p in ix.Levels(side)
    ensures ReadIds(ActiveOf(orders), side, prices, |prices|) == SideIds(ActiveOf(orders), side)
  {
    var active := ActiveOf(orders);
    hide PriceIndexed, PriceChain, ReadIds;
    forall id: OrderId ensures id in ReadIds(active, side, prices, |prices|) <==> id in SideIds(active, side) {
      ReadIdsAre(active, side, prices, |prices|, id);
      if id in active && active[id].side == side && active[id].constraint.Limit? {
        var price := active[id].constraint.price;
        LevelsArePrices(orders, ix, side, price);
        assert price in prices;
        var k :| 0 <= k < |prices| && prices[k] == price;
        var at := if side == Buy then |prices| - 1 - k else k;
        assert BestFirst(prices, side, at) == price;
        assert PricedBefore(prices, side, |prices|, active[id].constraint);
      }
    }
  }

  // ----- the indexes are a function of the active orders

  lemma ChainsAgree(a: Orders, b: Orders)
    requires ActiveOf(a) == ActiveOf(b)
    ensures SameContents(PriceChain(a), PriceChain(b)) && SameContents(LaneChain(a), LaneChain(b))
  {
    forall id | id in a
      ensures PriceChain(a)[id].key == PriceChain(b)[id].key && PriceChain(a)[id].rank == PriceChain(b)[id].rank && PriceChain(a)[id].quantity == PriceChain(b)[id].quantity
      ensures LaneChain(a)[id].key == LaneChain(b)[id].key && LaneChain(a)[id].rank == LaneChain(b)[id].rank && LaneChain(a)[id].quantity == LaneChain(b)[id].quantity
    {
      assert id in ActiveOf(a) && id in ActiveOf(b);
      NodesAt(a, id);
      NodesAt(b, id);
    }
  }

  /** Equal active orders leave no freedom in the links: both lists are the same. */
  lemma LinksAgree(a: Orders, b: Orders)
    requires ActiveOf(a) == ActiveOf(b)
    requires Linked(PriceChain(a)) && Linked(PriceChain(b)) && Linked(LaneChain(a)) && Linked(LaneChain(b))
    ensures a == b
  {
    hide *;
    ChainsAgree(a, b);
    LinksAreDetermined(PriceChain(a), PriceChain(b));
    LinksAreDetermined(LaneChain(a), LaneChain(b));
    assert a.Keys == ActiveOf(a).Keys == b.Keys;
    forall id | id in a ensures a[id] == b[id] {
      NodesAt(a, id);
      NodesAt(b, id);
      RestingIs(a[id]);
      RestingIs(b[id]);
    }
  }

  lemma RestingIs(r: RestingAuctionOrder)
    ensures r == RestingAuctionOrder(r.order, r.previous, r.next, r.accountPrevious, r.accountNext)
  {
  }

  lemma QueuesAgree(c: Chain, x: PriceIndex, y: PriceIndex)
    requires PriceIndexed(c, x) && PriceIndexed(c, y)
    ensures x == y
  {
    LinkedHasDistinctRanks(c);
    forall side, constraint ensures x.QueueAt(side, constraint) == y.QueueAt(side, constraint) {
      QueueIsDescribed(c, x, side, constraint);
      QueueIsDescribed(c, y, side, constraint);
      hide Describes, Linked;
      QueueIsDetermined(c, PriceQueue(side, constraint), x.QueueAt(side, constraint), y.QueueAt(side, constraint));
    }
    hide Describes, Linked;
    assert x.marketBuys == x.QueueAt(Buy, AuctionOrderConstraint.Market) && x.marketSells == x.QueueAt(Sell, AuctionOrderConstraint.Market);
    forall side: Side, price: Price
      ensures price in x.Levels(side) <==> price in y.Levels(side)
      ensures price in x.Levels(side) ==> x.Levels(side)[price] == y.Levels(side)[price]
    {
      assert x.QueueAt(side, Limit(price)) == y.QueueAt(side, Limit(price));
    }
    assert x.Levels(Buy) == y.Levels(Buy) && x.Levels(Sell) == y.Levels(Sell);
  }

  lemma AccountsAgree(c: Chain, x: Accounts, y: Accounts)
    requires AccountIndexed(c, x) && AccountIndexed(c, y)
    ensures x == y
  {
    LinkedHasDistinctRanks(c);
    forall account, side ensures LanesOf(x, account).Lane(side) == LanesOf(y, account).Lane(side) {
      LaneIsDescribed(c, x, account, side);
      LaneIsDescribed(c, y, account, side);
      hide Describes, Linked;
      QueueIsDetermined(c, AccountLane(account, side), LanesOf(x, account).Lane(side), LanesOf(y, account).Lane(side));
    }
    hide Describes, Linked;
    forall account: AccountId
      ensures account in x <==> account in y
      ensures account in x ==> x[account] == y[account]
    {
      assert LanesOf(x, account).Lane(Buy) == LanesOf(y, account).Lane(Buy) && LanesOf(x, account).Lane(Sell) == LanesOf(y, account).Lane(Sell);
    }
  }
}
