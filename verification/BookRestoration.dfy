/** Rebuilding a book from saved parts that nobody has checked: repeated identities are refused
    before linking, and the book's own audit has the last word. */
module BookRestoration {
  import opened AbstractBook
  import opened Ascending
  import opened AuctionBook
  import opened BookAudit
  import opened Chains
  import opened Domain
  import opened RestingIndex
  import Restoration

  datatype BookRestorationError = RepeatedAcceptedIdentity | UnacceptedActiveOrder | RepeatedActiveOrder | AuditRefused

  ghost predicate DistinctIds(ids: seq<OrderId>) {
    forall i, j :: 0 <= i < j < |ids| ==> ids[i] != ids[j]
  }

  ghost predicate DistinctOrders(orders: seq<CallAuctionOrderSnapshot>) {
    forall i, j :: 0 <= i < j < |orders| ==> orders[i].orderId != orders[j].orderId
  }

  ghost predicate DistinctSavedPriorities(orders: seq<CallAuctionOrderSnapshot>) {
    forall i, j :: 0 <= i < j < |orders| ==> orders[i].prioritySequence != orders[j].prioritySequence
  }

  /** The book that saved parts describe. */
  ghost function SavedModel(definition: InstrumentDefinition, limits: CallAuctionBookLimits, activeOrders: seq<CallAuctionOrderSnapshot>,
                            acceptedOrderIds: seq<OrderId>, nextPrioritySequence: u64, nextTradeId: u64, stateRevision: u64): BookModel
  {
    BookModel(definition, limits, Restoration.OrdersOf(activeOrders), IdSet(acceptedOrderIds), nextPrioritySequence, nextTradeId, stateRevision)
  }

  lemma {:induction false} SavedOrders(orders: seq<CallAuctionOrderSnapshot>)
    ensures Restoration.OrdersOf(orders).Keys == SnapshotIds(orders)
    ensures DistinctOrders(orders) ==> forall i {:trigger orders[i]} :: 0 <= i < |orders| ==> Restoration.OrdersOf(orders)[orders[i].orderId] == orders[i]
  {
    if orders == [] {
      assert SnapshotIds(orders) == {};
    } else {
      var n := |orders| - 1;
      SavedOrders(orders[..n]);
      LastId(orders);
      if DistinctOrders(orders) {
        assert DistinctOrders(orders[..n]);
        forall i | 0 <= i < |orders| ensures Restoration.OrdersOf(orders)[orders[i].orderId] == orders[i] {
          if i < n { assert orders[..n][i] == orders[i]; }
        }
      }
    }
  }

  lemma LastId(orders: seq<CallAuctionOrderSnapshot>)
    requires orders != []
    ensures SnapshotIds(orders) == SnapshotIds(orders[..|orders| - 1]) + {orders[|orders| - 1].orderId}
  {
    var n := |orders| - 1;
    forall id: OrderId ensures id in SnapshotIds(orders) <==> id in SnapshotIds(orders[..n]) || id == orders[n].orderId {
      if id in SnapshotIds(orders[..n]) {
        var i :| 0 <= i < n && orders[..n][i].orderId == id;
        assert orders[i].orderId == id;
      }
      if id in SnapshotIds(orders) && id != orders[n].orderId {
        var i :| 0 <= i < |orders| && orders[i].orderId == id;
        assert orders[..n][i].orderId == id;
      }
    }
  }

  lemma SavedAreGathered(orders: seq<CallAuctionOrderSnapshot>)
    requires DistinctOrders(orders) && DistinctSavedPriorities(orders)
    ensures var active := Restoration.OrdersOf(orders);
            Gathered(orders, active, active.Keys) && DistinctPriorities(active) && |active| == |orders|
  {
    SavedOrders(orders);
    var active := Restoration.OrdersOf(orders);
    forall i | 0 <= i < |orders| ensures orders[i].orderId in active { assert orders[i].orderId in SnapshotIds(orders); }
    GatheredSize(orders, active, active.Keys);
    assert |active| == |active.Keys|;
    hide Restoration.OrdersOf;
    forall a, b | a in active && b in active && a != b ensures active[a].prioritySequence != active[b].prioritySequence {
      var i :| 0 <= i < |orders| && orders[i].orderId == a;
      var j :| 0 <= j < |orders| && orders[j].orderId == b;
      assert active[a] == orders[i] && active[b] == orders[j];
      if i < j {} else {}
    }
  }

  method AcceptedAreDistinct(ids: seq<OrderId>) returns (ok: bool)
    ensures ok <==> DistinctIds(ids)
  {
    var seen: set<OrderId> := {};
    for k := 0 to |ids|
      invariant DistinctIds(ids[..k]) && seen == IdSet(ids[..k])
    {
      if ids[k] in seen {
        var i :| 0 <= i < k && ids[..k][i] == ids[k];
        assert ids[i] == ids[k];
        return false;
      }
      forall id ensures id in IdSet(ids[..k + 1]) <==> id in seen || id == ids[k] {
        if id in seen {
          var i :| 0 <= i < k && ids[..k][i] == id;
          assert ids[..k + 1][i] == id;
        }
        assert ids[..k + 1][k] == ids[k];
      }
      seen := seen + {ids[k]};
    }
    assert ids[..|ids|] == ids;
    return true;
  }

  /** Every saved order has an accepted identity of its own. */
  method ActiveAreAccepted(orders: seq<CallAuctionOrderSnapshot>, accepted: set<OrderId>) returns (error: Option<BookRestorationError>)
    ensures error.None? <==> DistinctOrders(orders) && SnapshotIds(orders) <= accepted
    ensures error.Some? ==> error.value == UnacceptedActiveOrder || error.value == RepeatedActiveOrder
  {
    var linked: set<OrderId> := {};
    SavedOrders([]);
    for k := 0 to |orders|
      invariant DistinctOrders(orders[..k]) && linked == SnapshotIds(orders[..k]) <= accepted
    {
      LastId(orders[..k + 1]);
      assert orders[..k + 1][..k] == orders[..k];
      assert orders[k].orderId in SnapshotIds(orders);
      if orders[k].orderId !in accepted {
        return Some(UnacceptedActiveOrder);
      }
      if orders[k].orderId in linked {
        var i :| 0 <= i < k && orders[..k][i].orderId == orders[k].orderId;
        assert orders[i].orderId == orders[k].orderId;
        return Some(RepeatedActiveOrder);
      }
      forall i | 0 <= i < k ensures orders[i].orderId != orders[k].orderId { assert orders[..k][i].orderId in linked; }
      linked := linked + {orders[k].orderId};
    }
    assert orders[..|orders|] == orders;
    return None;
  }

  lemma ValidSaves(definition: InstrumentDefinition, limits: CallAuctionBookLimits, activeOrders: seq<CallAuctionOrderSnapshot>,
                   acceptedOrderIds: seq<OrderId>, nextPrioritySequence: u64, nextTradeId: u64, stateRevision: u64)
    requires SavedModel(definition, limits, activeOrders, acceptedOrderIds, nextPrioritySequence, nextTradeId, stateRevision).Valid()
    ensures SnapshotIds(activeOrders) <= IdSet(acceptedOrderIds)
    ensures |Restoration.OrdersOf(activeOrders)| <= limits.maxActiveOrders
  {
    var m := SavedModel(definition, limits, activeOrders, acceptedOrderIds, nextPrioritySequence, nextTradeId, stateRevision);
    SavedOrders(activeOrders);
    MaximumHolds(m);
    hide BookModel.Valid, Restoration.OrdersOf, IdSet;
    forall id | id in SnapshotIds(activeOrders) ensures id in IdSet(acceptedOrderIds) {
      assert id in m.active;
      OrderFacts(m, id);
    }
  }

  /** Rebuilds a book exactly when no identity repeats and the saved parts are those of a valid book. */
  method FromCheckpointState(instanceId: nat, definition: InstrumentDefinition, limits: CallAuctionBookLimits,
                             activeOrders: seq<CallAuctionOrderSnapshot>, acceptedOrderIds: seq<OrderId>,
                             nextPrioritySequence: u64, nextTradeId: u64, stateRevision: u64)
    returns (r: Result<CallAuctionBook, BookRestorationError>)
    requires definition.Valid() && limits.Valid() && DistinctSavedPriorities(activeOrders)
    ensures r.Ok? <==>
              && DistinctIds(acceptedOrderIds) && DistinctOrders(activeOrders)
              && SavedModel(definition, limits, activeOrders, acceptedOrderIds, nextPrioritySequence, nextTradeId, stateRevision).Valid()
    ensures r.Ok? ==>
              && fresh(r.value) && r.value.Valid() && r.value.instanceId == instanceId && r.value.indicated == {} && r.value.issued == {}
              && r.value.availableLeases == limits.maxPreparedUncrosses && r.value.definition == definition && r.value.limits == limits
              && r.value.Model() == SavedModel(definition, limits, activeOrders, acceptedOrderIds, nextPrioritySequence, nextTradeId, stateRevision)
    ensures r.Err? ==>
              && (r.error == RepeatedAcceptedIdentity <==> !DistinctIds(acceptedOrderIds))
              && (r.error == AuditRefused <==>
                    DistinctIds(acceptedOrderIds) && DistinctOrders(activeOrders) && SnapshotIds(activeOrders) <= IdSet(acceptedOrderIds))
  {
    hide *;
    ghost var m := SavedModel(definition, limits, activeOrders, acceptedOrderIds, nextPrioritySequence, nextTradeId, stateRevision);
    SavedModelIs(definition, limits, activeOrders, acceptedOrderIds, nextPrioritySequence, nextTradeId, stateRevision);
    if m.Valid() { ValidSaves(definition, limits, activeOrders, acceptedOrderIds, nextPrioritySequence, nextTradeId, stateRevision); }
    var distinct := AcceptedAreDistinct(acceptedOrderIds);
    if !distinct {
      return Err(RepeatedAcceptedIdentity);
    }
    var error := ActiveAreAccepted(activeOrders, IdSet(acceptedOrderIds));
    if error.Some? {
      return Err(error.value);
    }
    SavedAreGathered(activeOrders);
    if |activeOrders| > limits.maxActiveOrders {
      return Err(AuditRefused);
    }
    var book := new CallAuctionBook.FromParts(instanceId, definition, limits, activeOrders, acceptedOrderIds,
                                              nextPrioritySequence, nextTradeId, stateRevision, m);
    IndexedIsOpen(book);
    SoundExactly(book);
    var ok := Validate(book);
    if !ok {
      return Err(AuditRefused);
    }
    return Ok(book);
  }

  lemma SavedModelIs(definition: InstrumentDefinition, limits: CallAuctionBookLimits, activeOrders: seq<CallAuctionOrderSnapshot>,
                     acceptedOrderIds: seq<OrderId>, nextPrioritySequence: u64, nextTradeId: u64, stateRevision: u64)
    ensures SavedModel(definition, limits, activeOrders, acceptedOrderIds, nextPrioritySequence, nextTradeId, stateRevision) ==
              BookModel(definition, limits, Restoration.OrdersOf(activeOrders), IdSet(acceptedOrderIds), nextPrioritySequence, nextTradeId, stateRevision)
  {
  }

  /** What the audit leaves open holds of every indexed book. */
  lemma IndexedIsOpen(b: CallAuctionBook)
    requires PriceIndexed(PriceChain(b.orders), b.queues) && AccountIndexed(LaneChain(b.orders), b.accountOrders)
    ensures DistinctRanks(PriceChain(b.orders)) && NoEmptyLevel(b.queues) && LanesRise(LaneChain(b.orders))
  {
    hide *;
    IndexedIsListed(b.orders, b.queues, b.accountOrders);
  }
}
