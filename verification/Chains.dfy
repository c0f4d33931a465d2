/** Intrusive doubly linked lists held in one map of nodes.

    A node belongs to the list of its key and lists are ordered by rank. Links are described
    declaratively: `previous` is the nearest lower-ranked node of the same list and `next` the
    nearest higher-ranked one. Price queues and account lanes are both chains. */
module Chains {
  import opened Domain
  import opened SetSums

  /** Every active order is in two lists at once. */
  datatype ListKey = PriceQueue(side: Side, constraint: AuctionOrderConstraint) | AccountLane(accountId: AccountId, laneSide: Side)

  datatype Node = Node(key: ListKey, rank: nat, quantity: nat, previous: Option<OrderId>, next: Option<OrderId>)

  type Chain = map<OrderId, Node>

  /** The head, tail and cached aggregates of one list. */
  datatype AuctionQueue = AuctionQueue(head: Option<OrderId>, tail: Option<OrderId>, totalQuantity: u128, orderCount: u64) {
    /** `grown` is this queue with one more order at its tail. */
    ghost predicate GrownBy(grown: AuctionQueue, id: OrderId, quantity: nat) {
      && grown.head == (if head.Some? then head else Some(id)) && grown.tail == Some(id)
      && grown.orderCount == orderCount + 1 && grown.totalQuantity == totalQuantity + quantity
    }

    /** `shrunk` is this queue without one of its orders. */
    ghost predicate ShrunkBy(shrunk: AuctionQueue, id: OrderId, previous: Option<OrderId>, next: Option<OrderId>, quantity: nat) {
      && shrunk.head == (if head == Some(id) then next else head)
      && shrunk.tail == (if tail == Some(id) then previous else tail)
      && shrunk.orderCount == orderCount - 1 && shrunk.totalQuantity == totalQuantity - quantity
    }

    function With(id: OrderId, quantity: Quantity): (grown: AuctionQueue)
      requires orderCount + 1 <= U64_MAX && totalQuantity + quantity <= U128_MAX
      ensures GrownBy(grown, id, quantity)
    {
      AuctionQueue(if head.Some? then head else Some(id), Some(id), totalQuantity + quantity, orderCount + 1)
    }

    function Without(id: OrderId, previous: Option<OrderId>, next: Option<OrderId>, quantity: Quantity): (shrunk: AuctionQueue)
      requires orderCount >= 1 && totalQuantity >= quantity
      ensures ShrunkBy(shrunk, id, previous, next, quantity)
    {
      AuctionQueue(if head == Some(id) then next else head, if tail == Some(id) then previous else tail,
                   totalQuantity - quantity, orderCount - 1)
    }
  }

  const EMPTY_QUEUE := AuctionQueue(None, None, 0, 0)

  ghost predicate Before(c: Chain, a: OrderId, b: OrderId) {
    a in c && b in c && c[a].key == c[b].key && c[a].rank < c[b].rank
  }

  ghost predicate IsPrevious(c: Chain, p: Option<OrderId>, id: OrderId) {
    match p
    case None => forall j: OrderId :: !Before(c, j, id)
    case Some(p) => Before(c, p, id) && forall j: OrderId :: Before(c, j, id) ==> c[j].rank <= c[p].rank
  }

  ghost predicate IsNext(c: Chain, n: Option<OrderId>, id: OrderId) {
    match n
    case None => forall j: OrderId :: !Before(c, id, j)
    case Some(n) => Before(c, id, n) && forall j: OrderId :: Before(c, id, j) ==> c[n].rank <= c[j].rank
  }

  ghost predicate DistinctRanks(c: Chain) {
    forall a, b {:trigger c[a].rank, c[b].rank} :: a in c && b in c && a != b ==> c[a].rank != c[b].rank
  }

  ghost predicate Linked(c: Chain) {
    && DistinctRanks(c)
    && (forall id {:trigger c[id].previous} :: id in c ==> IsPrevious(c, c[id].previous, id))
    && (forall id {:trigger c[id].next} :: id in c ==> IsNext(c, c[id].next, id))
  }

  ghost function Members(c: Chain, key: ListKey): set<OrderId> {
    set id | id in c && c[id].key == key
  }

  ghost predicate IsHead(c: Chain, key: ListKey, h: Option<OrderId>) {
    match h
    case None => Members(c, key) == {}
    case Some(h) => h in Members(c, key) && forall j :: j in Members(c, key) ==> c[h].rank <= c[j].rank
  }

  ghost predicate IsTail(c: Chain, key: ListKey, t: Option<OrderId>) {
    match t
    case None => Members(c, key) == {}
    case Some(t) => t in Members(c, key) && forall j :: j in Members(c, key) ==> c[j].rank <= c[t].rank
  }

  ghost function NodeQuantities(c: Chain): (w: Weights)
    ensures w.Keys == c.Keys
  {
    map id | id in c :: c[id].quantity
  }

  /** `q` is the head, tail and exact aggregates of the list of `key`. */
  ghost predicate Describes(q: AuctionQueue, c: Chain, key: ListKey) {
    && IsHead(c, key, q.head) && IsTail(c, key, q.tail)
    && q.orderCount == |Members(c, key)|
    && q.totalQuantity == Total(NodeQuantities(c), Members(c, key))
  }

  // ----- changing one link

  ghost predicate SameContents(c: Chain, d: Chain) {
    && c.Keys == d.Keys
    && forall id :: id in c ==> c[id].key == d[id].key && c[id].rank == d[id].rank && c[id].quantity == d[id].quantity
  }

  ghost function SetNext(c: Chain, at: Option<OrderId>, next: Option<OrderId>): (d: Chain)
    requires at.Some? ==> at.value in c
    ensures SameContents(c, d)
    ensures forall j {:trigger d[j]} :: j in c ==> d[j] == if at == Some(j) then c[j].(next := next) else c[j]
  {
    if at.Some? then c[at.value := c[at.value].(next := next)] else c
  }

  ghost function SetPrevious(c: Chain, at: Option<OrderId>, previous: Option<OrderId>): (d: Chain)
    requires at.Some? ==> at.value in c
    ensures SameContents(c, d)
    ensures forall j {:trigger d[j]} :: j in c ==> d[j] == if at == Some(j) then c[j].(previous := previous) else c[j]
  {
    if at.Some? then c[at.value := c[at.value].(previous := previous)] else c
  }

  /** Membership and aggregates depend only on keys and quantities. */
  lemma AggregatesAgree(c: Chain, d: Chain, key: ListKey)
    requires SameContents(c, d)
    ensures Members(c, key) == Members(d, key)
    ensures Total(NodeQuantities(c), Members(c, key)) == Total(NodeQuantities(d), Members(d, key))
  {
    assert Members(c, key) == Members(d, key);
    TotalAgree(NodeQuantities(c), NodeQuantities(d), Members(c, key));
  }

  lemma AggregatesAfterAdd(c: Chain, id: OrderId, node: Node, key: ListKey)
    requires id !in c
    ensures var d := c[id := node];
            && Members(d, key) == (if key == node.key then Members(c, key) + {id} else Members(c, key))
            && Total(NodeQuantities(d), Members(d, key)) == Total(NodeQuantities(c), Members(c, key)) + (if key == node.key then node.quantity else 0)
            && |Members(d, key)| == |Members(c, key)| + (if key == node.key then 1 else 0)
  {
    var d := c[id := node];
    assert Members(d, key) == if key == node.key then Members(c, key) + {id} else Members(c, key);
    TotalAgree(NodeQuantities(d), NodeQuantities(c), Members(c, key));
    if key == node.key {
      TotalAdd(NodeQuantities(d), Members(c, key), id);
    }
  }

  lemma AggregatesAfterDrop(c: Chain, id: OrderId, key: ListKey)
    requires id in c
    ensures var d := c - {id};
            && Members(d, key) == Members(c, key) - {id}
            && Total(NodeQuantities(d), Members(d, key)) == Total(NodeQuantities(c), Members(c, key)) - (if key == c[id].key then c[id].quantity else 0)
            && |Members(d, key)| == |Members(c, key)| - (if key == c[id].key then 1 else 0)
  {
    var d := c - {id};
    assert Members(d, key) == Members(c, key) - {id};
    TotalAgree(NodeQuantities(d), NodeQuantities(c), Members(d, key));
    if key == c[id].key {
      assert id in Members(c, key);
      TotalTake(NodeQuantities(c), Members(c, key), id);
    } else {
      assert Members(c, key) - {id} == Members(c, key);
    }
  }

  /** Ends depend only on membership and ranks. */
  lemma EndsAgree(c: Chain, d: Chain, key: ListKey, at: Option<OrderId>)
    requires Members(c, key) == Members(d, key)
    requires forall j {:trigger d[j]} :: j in Members(c, key) ==> d[j].rank == c[j].rank
    ensures IsHead(c, key, at) ==> IsHead(d, key, at)
    ensures IsTail(c, key, at) ==> IsTail(d, key, at)
  {
  }

  /** A list described in one map is described in any map with the same members, ranks and total. */
  lemma DescribesAgree(c: Chain, d: Chain, key: ListKey, q: AuctionQueue)
    requires Describes(q, c, key) && Members(c, key) == Members(d, key)
    requires forall j {:trigger d[j]} :: j in Members(c, key) ==> d[j].rank == c[j].rank
    requires Total(NodeQuantities(d), Members(d, key)) == Total(NodeQuantities(c), Members(c, key))
    ensures Describes(q, d, key)
  {
    hide IsHead, IsTail, Members, NodeQuantities;
    EndsAgree(c, d, key, q.head);
    EndsAgree(c, d, key, q.tail);
  }

  // ----- appending at the tail

  /** `id` joins the end of its list: the old tail points to it. */
  ghost function Append(c: Chain, id: OrderId, key: ListKey, rank: nat, quantity: nat, tail: Option<OrderId>): Chain
    requires tail.Some? ==> tail.value in c
  {
    SetNext(c, tail, Some(id))[id := Node(key, rank, quantity, tail, None)]
  }

  lemma AppendPrevious(c: Chain, id: OrderId, key: ListKey, rank: nat, quantity: nat, tail: Option<OrderId>, j: OrderId)
    requires id !in c && (forall i :: i in c ==> c[i].rank < rank)
    requires IsTail(c, key, tail)
    requires j == id || (j in c && IsPrevious(c, c[j].previous, j))
    ensures var d := Append(c, id, key, rank, quantity, tail);
            IsPrevious(d, d[j].previous, j)
  {
    var d := Append(c, id, key, rank, quantity, tail);
    if j == id {
      forall i: OrderId | Before(d, i, id)
        ensures tail.Some? && d[i].rank <= d[tail.value].rank
      {
        assert i in Members(c, key);
      }
    } else {
      assert forall i: OrderId :: Before(d, i, j) <==> Before(c, i, j);
    }
  }

  lemma AppendNext(c: Chain, id: OrderId, key: ListKey, rank: nat, quantity: nat, tail: Option<OrderId>, j: OrderId)
    requires id !in c && (forall i :: i in c ==> c[i].rank < rank) && DistinctRanks(c)
    requires IsTail(c, key, tail)
    requires j == id || (j in c && IsNext(c, c[j].next, j))
    ensures var d := Append(c, id, key, rank, quantity, tail);
            IsNext(d, d[j].next, j)
  {
    var d := Append(c, id, key, rank, quantity, tail);
    if j == id {
      assert forall i: OrderId :: !Before(d, id, i);
    } else if c[j].key != key {
      assert forall i: OrderId :: Before(d, j, i) <==> Before(c, j, i);
    } else {
      assert j in Members(c, key);
      assert forall i: OrderId :: Before(d, j, i) <==> Before(c, j, i) || i == id;
      if tail == Some(j) {
        forall i: OrderId ensures !Before(c, j, i) {
          assert Before(c, j, i) ==> i in Members(c, key);
        }
      } else {
        assert Before(c, j, tail.value);
      }
    }
  }

  lemma AppendDistinct(c: Chain, id: OrderId, key: ListKey, rank: nat, quantity: nat, tail: Option<OrderId>)
    requires DistinctRanks(c) && id !in c && (tail.Some? ==> tail.value in c)
    requires forall j :: j in c ==> c[j].rank < rank
    ensures Append(c, id, key, rank, quantity, tail).Keys == c.Keys + {id}
    ensures DistinctRanks(Append(c, id, key, rank, quantity, tail))
  {
  }

  lemma AppendKeepsLinks(c: Chain, id: OrderId, key: ListKey, rank: nat, quantity: nat, tail: Option<OrderId>)
    requires Linked(c) && id !in c && IsTail(c, key, tail)
    requires forall j :: j in c ==> c[j].rank < rank
    ensures tail.Some? ==> tail.value in c
    ensures Linked(Append(c, id, key, rank, quantity, tail))
  {
    assert tail.Some? ==> tail.value in c;
    hide IsPrevious, IsNext, IsTail;
    var d := Append(c, id, key, rank, quantity, tail);
    AppendDistinct(c, id, key, rank, quantity, tail);
    hide Append;
    forall j | j in d
      ensures IsPrevious(d, d[j].previous, j) && IsNext(d, d[j].next, j)
    {
      if j != id { assert IsPrevious(c, c[j].previous, j) && IsNext(c, c[j].next, j); }
      hide Linked, DistinctRanks;
      AppendPrevious(c, id, key, rank, quantity, tail, j);
      AppendNext(c, id, key, rank, quantity, tail, j);
    }
    hide DistinctRanks;
  }

  lemma AppendMembers(c: Chain, id: OrderId, key: ListKey, rank: nat, quantity: nat, tail: Option<OrderId>, other: ListKey)
    requires id !in c && (tail.Some? ==> tail.value in c)
    ensures var d := Append(c, id, key, rank, quantity, tail);
            && Members(d, other) == (if other == key then Members(c, other) + {id} else Members(c, other))
            && Total(NodeQuantities(d), Members(d, other)) == Total(NodeQuantities(c), Members(c, other)) + (if other == key then quantity else 0)
            && |Members(d, other)| == |Members(c, other)| + (if other == key then 1 else 0)
  {
    hide Members, NodeQuantities;
    AggregatesAgree(c, SetNext(c, tail, Some(id)), other);
    AggregatesAfterAdd(SetNext(c, tail, Some(id)), id, Node(key, rank, quantity, tail, None), other);
  }

  lemma AppendRanks(c: Chain, id: OrderId, key: ListKey, rank: nat, quantity: nat, tail: Option<OrderId>, j: OrderId)
    requires id !in c && (tail.Some? ==> tail.value in c) && j in c
    ensures Append(c, id, key, rank, quantity, tail)[j].rank == c[j].rank
    ensures Append(c, id, key, rank, quantity, tail)[j].key == c[j].key
  {
  }

  lemma AppendDescribes(c: Chain, id: OrderId, key: ListKey, rank: nat, quantity: nat, q: AuctionQueue, grown: AuctionQueue)
    requires id !in c && Describes(q, c, key)
    requires forall j :: j in c ==> c[j].rank < rank
    requires grown.head == (if q.head.Some? then q.head else Some(id)) && grown.tail == Some(id)
    requires grown.orderCount == q.orderCount + 1 && grown.totalQuantity == q.totalQuantity + quantity
    ensures q.tail.Some? ==> q.tail.value in c
    ensures Describes(grown, Append(c, id, key, rank, quantity, q.tail), key)
  {
    hide NodeQuantities;
    var d := Append(c, id, key, rank, quantity, q.tail);
    AppendMembers(c, id, key, rank, quantity, q.tail, key);
    hide Append;
    assert d[id].rank == rank by { assert d == SetNext(c, q.tail, Some(id))[id := Node(key, rank, quantity, q.tail, None)]; }
    forall j | j in Members(c, key) ensures d[j].rank == c[j].rank {
      AppendRanks(c, id, key, rank, quantity, q.tail, j);
    }
  }

  lemma AppendDescribesOther(c: Chain, id: OrderId, key: ListKey, rank: nat, quantity: nat, tail: Option<OrderId>, other: ListKey, q: AuctionQueue)
    requires id !in c && other != key && Describes(q, c, other) && (tail.Some? ==> tail.value in c)
    ensures Describes(q, Append(c, id, key, rank, quantity, tail), other)
  {
    hide NodeQuantities, Describes;
    AppendMembers(c, id, key, rank, quantity, tail, other);
    var d := Append(c, id, key, rank, quantity, tail);
    forall j | j in Members(c, other) ensures d[j].rank == c[j].rank {
      AppendRanks(c, id, key, rank, quantity, tail, j);
    }
    hide Append, Members;
    DescribesAgree(c, d, other, q);
  }

  // ----- unlinking anywhere

  /** The neighbours of `id`, if any, are other nodes of the map. */
  ghost predicate HasNeighbours(c: Chain, id: OrderId) {
    && id in c
    && (c[id].previous.Some? ==> c[id].previous.value in c && c[id].previous.value != id)
    && (c[id].next.Some? ==> c[id].next.value in c && c[id].next.value != id)
  }

  /** `id` leaves its list: its neighbours point past it. */
  ghost function Unlink(c: Chain, id: OrderId): Chain
    requires HasNeighbours(c, id)
  {
    var p, n := c[id].previous, c[id].next;
    SetPrevious(SetNext(c, p, n), n, p) - {id}
  }

  lemma UnlinkIsDefined(c: Chain, id: OrderId)
    requires Linked(c) && id in c
    ensures HasNeighbours(c, id)
  {
    assert IsPrevious(c, c[id].previous, id) && IsNext(c, c[id].next, id);
  }

  lemma PreviousIsUnique(c: Chain, p: Option<OrderId>, q: Option<OrderId>, id: OrderId)
    requires DistinctRanks(c) && IsPrevious(c, p, id) && IsPrevious(c, q, id)
    ensures p == q
  {
    if p.Some? { assert Before(c, p.value, id); }
    if q.Some? { assert Before(c, q.value, id); }
  }

  lemma NextIsUnique(c: Chain, p: Option<OrderId>, q: Option<OrderId>, id: OrderId)
    requires DistinctRanks(c) && IsNext(c, p, id) && IsNext(c, q, id)
    ensures p == q
  {
    if p.Some? { assert Before(c, id, p.value); }
    if q.Some? { assert Before(c, id, q.value); }
  }

  /** The node nearest below `b` is the one `b` is nearest above. */
  lemma NeighboursMirror(c: Chain, a: OrderId, b: OrderId)
    requires DistinctRanks(c) && a in c && b in c
    ensures IsNext(c, Some(b), a) <==> IsPrevious(c, Some(a), b)
  {
    if IsNext(c, Some(b), a) {
      forall j: OrderId | Before(c, j, b) ensures c[j].rank <= c[a].rank {
        assert Before(c, a, j) <==> c[j].rank > c[a].rank;
      }
    }
    if IsPrevious(c, Some(a), b) {
      forall j: OrderId | Before(c, a, j) ensures c[b].rank <= c[j].rank {
        assert Before(c, j, b) <==> c[j].rank < c[b].rank;
      }
    }
  }

  /** Links are mirrored: next of previous and previous of next. */
  lemma LinksMirror(c: Chain, a: OrderId, b: OrderId)
    requires Linked(c) && a in c && b in c
    ensures c[a].next == Some(b) <==> c[b].previous == Some(a)
  {
    hide IsPrevious, IsNext;
    assert IsNext(c, c[a].next, a) && IsPrevious(c, c[b].previous, b);
    NeighboursMirror(c, a, b);
    if c[a].next == Some(b) {
      PreviousIsUnique(c, c[b].previous, Some(a), b);
    }
    if c[b].previous == Some(a) {
      NextIsUnique(c, c[a].next, Some(b), a);
    }
  }

  lemma UnlinkNode(c: Chain, id: OrderId, j: OrderId)
    requires HasNeighbours(c, id) && j in c && j != id
    ensures var d := Unlink(c, id);
            && j in d
            && d[j].key == c[j].key && d[j].rank == c[j].rank && d[j].quantity == c[j].quantity
            && d[j].next == (if c[id].previous == Some(j) then c[id].next else c[j].next)
            && d[j].previous == (if c[id].next == Some(j) then c[id].previous else c[j].previous)
  {
  }

  lemma UnlinkBefore(c: Chain, id: OrderId)
    requires HasNeighbours(c, id)
    ensures var d := Unlink(c, id);
            forall i: OrderId, j: OrderId :: Before(d, i, j) <==> Before(c, i, j) && i != id && j != id
  {
  }

  lemma UnlinkPrevious(c: Chain, id: OrderId, j: OrderId)
    requires HasNeighbours(c, id) && j in c && j != id && DistinctRanks(c)
    requires IsPrevious(c, c[id].previous, id) && IsPrevious(c, c[j].previous, j)
    requires c[id].next == Some(j) <==> c[j].previous == Some(id)
    ensures var d := Unlink(c, id);
            j in d && IsPrevious(d, d[j].previous, j)
  {
    var d := Unlink(c, id);
    UnlinkNode(c, id, j);
    UnlinkBefore(c, id);
    hide Unlink;
    if c[j].previous == Some(id) {
      var p := c[id].previous;
      assert Before(c, id, j);
      forall i: OrderId | Before(d, i, j)
        ensures p.Some? && d[i].rank <= d[p.value].rank
      {
        assert Before(c, i, id);
        UnlinkNode(c, id, i);
        UnlinkNode(c, id, p.value);
      }
      if p.Some? { assert Before(c, p.value, id) && Before(c, p.value, j); }
    } else {
      forall i: OrderId | Before(d, i, j)
        ensures c[j].previous.Some? && d[i].rank <= d[c[j].previous.value].rank
      {
        assert Before(c, i, j) && Before(c, c[j].previous.value, j);
        UnlinkNode(c, id, i);
        UnlinkNode(c, id, c[j].previous.value);
      }
      if c[j].previous.Some? { assert Before(c, c[j].previous.value, j); }
    }
  }

  lemma UnlinkNext(c: Chain, id: OrderId, j: OrderId)
    requires HasNeighbours(c, id) && j in c && j != id && DistinctRanks(c)
    requires IsNext(c, c[id].next, id) && IsNext(c, c[j].next, j)
    requires c[j].next == Some(id) <==> c[id].previous == Some(j)
    ensures var d := Unlink(c, id);
            j in d && IsNext(d, d[j].next, j)
  {
    var d := Unlink(c, id);
    UnlinkNode(c, id, j);
    UnlinkBefore(c, id);
    hide Unlink;
    if c[j].next == Some(id) {
      var n := c[id].next;
      assert Before(c, j, id);
      forall i: OrderId | Before(d, j, i)
        ensures n.Some? && d[n.value].rank <= d[i].rank
      {
        assert Before(c, id, i);
        UnlinkNode(c, id, i);
        UnlinkNode(c, id, n.value);
      }
      if n.Some? { assert Before(c, id, n.value) && Before(c, j, n.value); }
    } else {
      forall i: OrderId | Before(d, j, i)
        ensures c[j].next.Some? && d[c[j].next.value].rank <= d[i].rank
      {
        assert Before(c, j, i) && Before(c, j, c[j].next.value);
        UnlinkNode(c, id, i);
        UnlinkNode(c, id, c[j].next.value);
      }
      if c[j].next.Some? { assert Before(c, j, c[j].next.value); }
    }
  }

  lemma UnlinkKeepsLinks(c: Chain, id: OrderId)
    requires Linked(c) && HasNeighbours(c, id)
    ensures Linked(Unlink(c, id))
  {
    hide IsPrevious, IsNext;
    var d := Unlink(c, id);
    assert d.Keys == c.Keys - {id};
    forall j | j in d
      ensures IsPrevious(d, d[j].previous, j) && IsNext(d, d[j].next, j)
    {
      assert IsPrevious(c, c[j].previous, j) && IsNext(c, c[j].next, j);
      assert IsPrevious(c, c[id].previous, id) && IsNext(c, c[id].next, id);
      LinksMirror(c, id, j);
      LinksMirror(c, j, id);
      UnlinkPrevious(c, id, j);
      UnlinkNext(c, id, j);
    }
  }

  lemma UnlinkMembers(c: Chain, id: OrderId, key: ListKey)
    requires HasNeighbours(c, id)
    ensures var d := Unlink(c, id);
            && Members(d, key) == Members(c, key) - {id}
            && Total(NodeQuantities(d), Members(d, key)) == Total(NodeQuantities(c), Members(c, key)) - (if key == c[id].key then c[id].quantity else 0)
            && |Members(d, key)| == |Members(c, key)| - (if key == c[id].key then 1 else 0)
  {
    hide Members, NodeQuantities;
    var p, n := c[id].previous, c[id].next;
    var c1 := SetNext(c, p, n);
    var c2 := SetPrevious(c1, n, p);
    AggregatesAgree(c, c1, key);
    AggregatesAgree(c1, c2, key);
    AggregatesAfterDrop(c2, id, key);
  }

  /** When the head leaves, its successor is the new head; otherwise the head stays. */
  lemma HeadAfterLeaving(c: Chain, d: Chain, id: OrderId, h: Option<OrderId>)
    requires id in c && DistinctRanks(c) && IsNext(c, c[id].next, id) && IsHead(c, c[id].key, h)
    requires Members(d, c[id].key) == Members(c, c[id].key) - {id}
    requires forall j {:trigger d[j]} :: j in Members(d, c[id].key) ==> d[j].rank == c[j].rank
    ensures IsHead(d, c[id].key, if h == Some(id) then c[id].next else h)
  {
    assert id in Members(c, c[id].key);
    if h == Some(id) {
      if c[id].next.Some? { assert Before(c, id, c[id].next.value); }
      forall j | j in Members(d, c[id].key) ensures Before(c, id, j) {
        assert c[j].rank != c[id].rank;
      }
    }
  }

  lemma TailAfterLeaving(c: Chain, d: Chain, id: OrderId, t: Option<OrderId>)
    requires id in c && DistinctRanks(c) && IsPrevious(c, c[id].previous, id) && IsTail(c, c[id].key, t)
    requires Members(d, c[id].key) == Members(c, c[id].key) - {id}
    requires forall j {:trigger d[j]} :: j in Members(d, c[id].key) ==> d[j].rank == c[j].rank
    ensures IsTail(d, c[id].key, if t == Some(id) then c[id].previous else t)
  {
    assert id in Members(c, c[id].key);
    if t == Some(id) {
      if c[id].previous.Some? { assert Before(c, c[id].previous.value, id); }
      forall j | j in Members(d, c[id].key) ensures Before(c, j, id) {
        assert c[j].rank != c[id].rank;
      }
    }
  }

  lemma UnlinkRanks(c: Chain, id: OrderId, key: ListKey)
    requires HasNeighbours(c, id)
    ensures var d := Unlink(c, id);
            forall j {:trigger d[j]} :: j in Members(d, key) ==> j in c && d[j].rank == c[j].rank
  {
    forall j | j in Members(Unlink(c, id), key) ensures j in c && Unlink(c, id)[j].rank == c[j].rank {
      UnlinkNode(c, id, j);
    }
  }

  lemma UnlinkEnds(c: Chain, id: OrderId, q: AuctionQueue)
    requires Linked(c) && HasNeighbours(c, id) && Describes(q, c, c[id].key)
    ensures IsHead(Unlink(c, id), c[id].key, if q.head == Some(id) then c[id].next else q.head)
    ensures IsTail(Unlink(c, id), c[id].key, if q.tail == Some(id) then c[id].previous else q.tail)
  {
    assert IsPrevious(c, c[id].previous, id) && IsNext(c, c[id].next, id);
    hide *;
    UnlinkRanks(c, id, c[id].key);
    UnlinkMembers(c, id, c[id].key);
    LinkedHasDistinctRanks(c);
    DescribesEnds(q, c, c[id].key);
    HeadAfterLeaving(c, Unlink(c, id), id, q.head);
    TailAfterLeaving(c, Unlink(c, id), id, q.tail);
  }

  lemma LinkedHasDistinctRanks(c: Chain)
    requires Linked(c)
    ensures DistinctRanks(c)
  {
  }

  lemma DescribesEnds(q: AuctionQueue, c: Chain, key: ListKey)
    requires Describes(q, c, key)
    ensures IsHead(c, key, q.head) && IsTail(c, key, q.tail)
  {
  }

  lemma UnlinkDescribes(c: Chain, id: OrderId, q: AuctionQueue, shrunk: AuctionQueue)
    requires Linked(c) && HasNeighbours(c, id)
    requires Describes(q, c, c[id].key) && q.orderCount >= 1
    requires shrunk.head == (if q.head == Some(id) then c[id].next else q.head)
    requires shrunk.tail == (if q.tail == Some(id) then c[id].previous else q.tail)
    requires shrunk.orderCount == q.orderCount - 1 && shrunk.totalQuantity == q.totalQuantity - c[id].quantity
    ensures Describes(shrunk, Unlink(c, id), c[id].key)
  {
    hide Linked, IsHead, IsTail, NodeQuantities, Members, Unlink;
    UnlinkEnds(c, id, q);
    UnlinkMembers(c, id, c[id].key);
  }

  lemma UnlinkDescribesOther(c: Chain, id: OrderId, other: ListKey, q: AuctionQueue)
    requires HasNeighbours(c, id) && other != c[id].key && Describes(q, c, other)
    ensures Describes(q, Unlink(c, id), other)
  {
    hide NodeQuantities, Describes;
    var d := Unlink(c, id);
    UnlinkMembers(c, id, other);
    assert Members(c, other) - {id} == Members(c, other);
    forall j | j in Members(c, other) ensures d[j].rank == c[j].rank {
      UnlinkNode(c, id, j);
    }
    hide Unlink, Members;
    DescribesAgree(c, d, other, q);
  }

  // ----- reducing a quantity in place

  ghost function Reduce(c: Chain, id: OrderId, quantity: nat): Chain
    requires id in c
  {
    c[id := c[id].(quantity := quantity)]
  }

  /** Neighbours depend only on keys and ranks. */
  lemma NeighboursTransfer(c: Chain, d: Chain, p: Option<OrderId>, id: OrderId)
    requires c.Keys == d.Keys && forall j :: j in c ==> c[j].key == d[j].key && c[j].rank == d[j].rank
    ensures IsPrevious(c, p, id) ==> IsPrevious(d, p, id)
    ensures IsNext(c, p, id) ==> IsNext(d, p, id)
  {
    assert forall i: OrderId, j: OrderId :: Before(d, i, j) <==> Before(c, i, j);
  }

  lemma ReduceKeepsLinks(c: Chain, id: OrderId, quantity: nat)
    requires Linked(c) && id in c
    ensures Linked(Reduce(c, id, quantity))
  {
    hide IsPrevious, IsNext;
    var d := Reduce(c, id, quantity);
    forall j | j in d ensures IsPrevious(d, d[j].previous, j) && IsNext(d, d[j].next, j) {
      assert IsPrevious(c, c[j].previous, j) && IsNext(c, c[j].next, j);
      NeighboursTransfer(c, d, c[j].previous, j);
      NeighboursTransfer(c, d, c[j].next, j);
    }
  }

  lemma ReduceDescribes(c: Chain, id: OrderId, quantity: nat, key: ListKey, q: AuctionQueue, reduced: AuctionQueue)
    requires id in c && Describes(q, c, key) && quantity <= c[id].quantity
    requires reduced == if key == c[id].key then q.(totalQuantity := reduced.totalQuantity) else q
    requires key == c[id].key ==> reduced.totalQuantity == q.totalQuantity - (c[id].quantity - quantity)
    ensures Describes(reduced, Reduce(c, id, quantity), key)
  {
    var d := Reduce(c, id, quantity);
    assert Members(d, key) == Members(c, key);
    if key == c[id].key {
      TotalTake(NodeQuantities(c), Members(c, key), id);
      TotalTake(NodeQuantities(d), Members(d, key), id);
      TotalAgree(NodeQuantities(d), NodeQuantities(c), Members(c, key) - {id});
    } else {
      TotalAgree(NodeQuantities(d), NodeQuantities(c), Members(c, key));
    }
  }

  // ----- links and aggregates are determined by keys, ranks and quantities

  lemma LinksAreDetermined(c: Chain, d: Chain)
    requires Linked(c) && Linked(d) && SameContents(c, d)
    ensures c == d
  {
    hide IsPrevious, IsNext;
    forall id | id in c
      ensures c[id] == d[id]
    {
      assert IsPrevious(c, c[id].previous, id) && IsPrevious(d, d[id].previous, id);
      assert IsNext(c, c[id].next, id) && IsNext(d, d[id].next, id);
      NeighboursTransfer(d, c, d[id].previous, id);
      NeighboursTransfer(d, c, d[id].next, id);
      PreviousIsUnique(c, c[id].previous, d[id].previous, id);
      NextIsUnique(c, c[id].next, d[id].next, id);
    }
  }

  lemma QueueIsDetermined(c: Chain, key: ListKey, q: AuctionQueue, r: AuctionQueue)
    requires DistinctRanks(c) && Describes(q, c, key) && Describes(r, c, key)
    ensures q == r
  {
  }

  // ----- walking a list from its head

  /** The members of a list below a position; past the end, all of them. */
  ghost function Lower(c: Chain, key: ListKey, at: Option<OrderId>): set<OrderId> {
    set id | id in Members(c, key) && (at.None? || (at.value in c && c[id].rank < c[at.value].rank))
  }

  /** A walk position: a member, or the end. */
  ghost predicate OnWalk(c: Chain, key: ListKey, at: Option<OrderId>) {
    at.Some? ==> at.value in Members(c, key)
  }

  /** A walk of a described list stands at `at`, having come from `previous`. */
  ghost predicate OnListWalk(c: Chain, key: ListKey, q: AuctionQueue, at: Option<OrderId>, previous: Option<OrderId>) {
    && Linked(c) && Describes(q, c, key) && OnWalk(c, key, at)
    && if at.Some? then c[at.value].previous == previous else previous == q.tail
  }

  lemma WalkBegins(c: Chain, key: ListKey, q: AuctionQueue)
    requires Linked(c) && Describes(q, c, key)
    ensures OnListWalk(c, key, q, q.head, None)
    ensures Lower(c, key, q.head) == {}
  {
    DescribesEnds(q, c, key);
    if q.head.Some? {
      HeadHasNoPrevious(c, key, q.head.value);
    }
  }

  lemma HeadHasNoPrevious(c: Chain, key: ListKey, h: OrderId)
    requires Linked(c) && IsHead(c, key, Some(h))
    ensures c[h].previous == None
  {
    assert IsPrevious(c, c[h].previous, h);
    LinkedHasDistinctRanks(c);
    hide Linked;
    forall j: OrderId ensures !Before(c, j, h) {
      assert Before(c, j, h) ==> j in Members(c, key);
    }
    PreviousIsUnique(c, c[h].previous, None, h);
  }

  lemma NextOnWalk(c: Chain, key: ListKey, at: OrderId)
    requires Linked(c) && at in Members(c, key)
    ensures OnWalk(c, key, c[at].next)
    ensures c[at].next.Some? ==> c[c[at].next.value].previous == Some(at)
    ensures c[at].next.None? ==> IsTail(c, key, Some(at))
  {
    assert IsNext(c, c[at].next, at);
    if c[at].next.Some? {
      assert Before(c, at, c[at].next.value);
      hide Linked;
      LinksMirror(c, at, c[at].next.value);
    } else {
      LinkedHasDistinctRanks(c);
      hide Linked;
      forall j | j in Members(c, key) ensures c[j].rank <= c[at].rank { assert !Before(c, at, j); }
    }
  }

  /** Within a list, everything above a node is its `next` or above that. */
  lemma AboveNext(c: Chain, key: ListKey, at: OrderId, id: OrderId)
    requires Linked(c) && at in Members(c, key) && id in Members(c, key)
    ensures id != at ==> c[id].rank != c[at].rank
    ensures c[at].rank < c[id].rank <==> c[at].next.Some? && c[at].next.value in c && c[c[at].next.value].rank <= c[id].rank
  {
    hide Linked;
    LinkedHasDistinctRanks(c);
    NextOf(c, at);
    assert Before(c, at, id) <==> c[at].rank < c[id].rank;
    if c[at].next.Some? { assert Before(c, at, c[at].next.value); }
  }

  lemma NextOf(c: Chain, id: OrderId)
    requires Linked(c) && id in c
    ensures IsNext(c, c[id].next, id)
  {
  }

  lemma NextIsAbove(c: Chain, key: ListKey, at: OrderId)
    requires Linked(c) && at in Members(c, key) && OnWalk(c, key, c[at].next)
    ensures at !in Lower(c, key, Some(at)) && Lower(c, key, c[at].next) == Lower(c, key, Some(at)) + {at}
  {
    hide Linked;
    forall id | id in Members(c, key)
      ensures id in Lower(c, key, c[at].next) <==> id in Lower(c, key, Some(at)) || id == at
    {
      AboveNext(c, key, at, id);
    }
  }

  /** Following `next` visits exactly one more member. */
  lemma WalkContinues(c: Chain, key: ListKey, q: AuctionQueue, at: OrderId, previous: Option<OrderId>)
    requires OnListWalk(c, key, q, Some(at), previous)
    ensures at in c && c[at].key == key && c[at].previous == previous
    ensures OnListWalk(c, key, q, c[at].next, Some(at))
    ensures at !in Lower(c, key, Some(at)) && Lower(c, key, c[at].next) == Lower(c, key, Some(at)) + {at}
    ensures |Lower(c, key, Some(at))| < q.orderCount
  {
    hide Linked, Lower, IsTail;
    NextOnWalk(c, key, at);
    NextIsAbove(c, key, at);
    if c[at].next.None? { TailIsUnique(c, key, q, at); }
    LowerWithin(c, key, at);
    LowerIsSmaller(Lower(c, key, Some(at)), Members(c, key), at);
  }

  lemma LowerWithin(c: Chain, key: ListKey, at: OrderId)
    requires at in c
    ensures Lower(c, key, Some(at)) <= Members(c, key) - {at}
  {
  }

  lemma TailIsUnique(c: Chain, key: ListKey, q: AuctionQueue, at: OrderId)
    requires Linked(c) && Describes(q, c, key) && IsTail(c, key, Some(at))
    ensures q.tail == Some(at)
  {
    DescribesEnds(q, c, key);
    LinkedHasDistinctRanks(c);
    hide Linked, Describes;
  }

  lemma LowerIsSmaller(lower: set<OrderId>, members: set<OrderId>, at: OrderId)
    requires lower <= members - {at} && at in members
    ensures |lower| < |members|
  {
    assert |members - {at}| == |members| - 1;
    assert members - {at} == lower + (members - {at} - lower);
    assert |members - {at}| == |lower| + |members - {at} - lower|;
  }

  /** A walk that has counted every member is past the end and has visited them all. */
  lemma WalkEnds(c: Chain, key: ListKey, q: AuctionQueue, at: Option<OrderId>, previous: Option<OrderId>)
    requires OnListWalk(c, key, q, at, previous)
    ensures at.None? <==> |Lower(c, key, at)| == q.orderCount
    ensures at.None? ==> Lower(c, key, at) == Members(c, key) && previous == q.tail
  {
    if at.Some? {
      WalkContinues(c, key, q, at.value, previous);
    } else {
      assert Lower(c, key, at) == Members(c, key);
    }
  }
}
