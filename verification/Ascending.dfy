/** Canonical ascending lists of order snapshots, as a sort by identity or an ordered index gives them. */
module Ascending {
  import opened AbstractBook
  import opened Domain

  type Active = map<OrderId, CallAuctionOrderSnapshot>

  ghost predicate IsAscending(s: seq<CallAuctionOrderSnapshot>) {
    forall i, j :: 0 <= i < j < |s| ==> s[i].orderId < s[j].orderId
  }

  ghost function SnapshotIds(s: seq<CallAuctionOrderSnapshot>): set<OrderId> {
    set i | 0 <= i < |s| :: s[i].orderId
  }

  /** `s` is exactly the orders of `ids`, each once, by ascending identity. */
  ghost predicate AscendingOf(s: seq<CallAuctionOrderSnapshot>, active: Active, ids: set<OrderId>) {
    && IsAscending(s) && SnapshotIds(s) == ids
    && forall i {:trigger s[i]} :: 0 <= i < |s| ==> s[i].orderId in active && s[i] == active[s[i].orderId]
  }

  function InsertById(s: seq<CallAuctionOrderSnapshot>, order: CallAuctionOrderSnapshot): seq<CallAuctionOrderSnapshot> {
    if s == [] then [order]
    else if order.orderId < s[0].orderId then [order] + s
    else [s[0]] + InsertById(s[1..], order)
  }

  /** The library sort by identity. */
  function SortById(s: seq<CallAuctionOrderSnapshot>): seq<CallAuctionOrderSnapshot> {
    if s == [] then [] else InsertById(SortById(s[1..]), s[0])
  }

  lemma IdsPrepend(first: CallAuctionOrderSnapshot, rest: seq<CallAuctionOrderSnapshot>)
    ensures SnapshotIds([first] + rest) == {first.orderId} + SnapshotIds(rest)
  {
    var whole := [first] + rest;
    forall i | 0 <= i < |rest| ensures rest[i].orderId in SnapshotIds(whole) {
      assert whole[i + 1] == rest[i];
    }
    assert whole[0] == first;
  }

  ghost predicate Above(first: CallAuctionOrderSnapshot, rest: seq<CallAuctionOrderSnapshot>) {
    forall x :: x in rest ==> first.orderId < x.orderId
  }

  lemma AscendingHead(first: CallAuctionOrderSnapshot, rest: seq<CallAuctionOrderSnapshot>)
    requires IsAscending([first] + rest)
    ensures IsAscending(rest) && Above(first, rest)
  {
    var whole := [first] + rest;
    forall i, j | 0 <= i < j < |rest| ensures rest[i].orderId < rest[j].orderId {
      assert whole[i + 1].orderId < whole[j + 1].orderId;
    }
    forall x | x in rest ensures first.orderId < x.orderId {
      var k :| 0 <= k < |rest| && rest[k] == x;
      assert whole[0].orderId < whole[k + 1].orderId;
    }
  }

  lemma AscendingPrepend(first: CallAuctionOrderSnapshot, rest: seq<CallAuctionOrderSnapshot>)
    requires IsAscending(rest) && Above(first, rest)
    ensures IsAscending([first] + rest)
  {
    var whole := [first] + rest;
    forall i, j | 0 <= i < j < |whole| ensures whole[i].orderId < whole[j].orderId {
      assert whole[j] == rest[j - 1] && rest[j - 1] in rest;
      if i > 0 { assert whole[i] == rest[i - 1]; }
    }
  }

  lemma {:induction false} InsertHolds(s: seq<CallAuctionOrderSnapshot>, order: CallAuctionOrderSnapshot)
    ensures SnapshotIds(InsertById(s, order)) == SnapshotIds(s) + {order.orderId}
    ensures forall x :: x in InsertById(s, order) ==> x == order || x in s
  {
    if s == [] || order.orderId < s[0].orderId {
      IdsPrepend(order, s);
      assert [order] + s == InsertById(s, order);
    } else {
      InsertHolds(s[1..], order);
      IdsPrepend(s[0], s[1..]);
      IdsPrepend(s[0], InsertById(s[1..], order));
      assert s == [s[0]] + s[1..];
    }
  }

  lemma {:induction false} InsertAscends(s: seq<CallAuctionOrderSnapshot>, order: CallAuctionOrderSnapshot)
    requires IsAscending(s) && order.orderId !in SnapshotIds(s)
    ensures IsAscending(InsertById(s, order))
    ensures SnapshotIds(InsertById(s, order)) == SnapshotIds(s) + {order.orderId}
    ensures forall x :: x in InsertById(s, order) ==> x == order || x in s
  {
    hide IsAscending, SnapshotIds;
    InsertHolds(s, order);
    if s == [] {
      NoneAscend();
      AscendingPrepend(order, s);
      assert [order] + s == [order];
    } else {
      assert s == [s[0]] + s[1..];
      AscendingHead(s[0], s[1..]);
      IdsPrepend(s[0], s[1..]);
      if order.orderId < s[0].orderId {
        AscendingPrepend(order, s);
      } else {
        InsertAscends(s[1..], order);
        AscendingPrepend(s[0], InsertById(s[1..], order));
      }
    }
  }

  lemma NoneAscend()
    ensures IsAscending([])
  {
  }

  lemma InsertAscendingOf(s: seq<CallAuctionOrderSnapshot>, active: Active, ids: set<OrderId>, id: OrderId)
    requires AscendingOf(s, active, ids) && id in active && id !in ids && active[id].orderId == id
    ensures AscendingOf(InsertById(s, active[id]), active, ids + {id})
  {
    InsertAscends(s, active[id]);
    var r := InsertById(s, active[id]);
    hide InsertById;
    forall i | 0 <= i < |r| ensures r[i].orderId in active && r[i] == active[r[i].orderId] {
      assert r[i] in r;
    }
  }

  /** `s` holds the orders of `ids`, each once, in any order. */
  ghost predicate Gathered(s: seq<CallAuctionOrderSnapshot>, active: Active, ids: set<OrderId>) {
    && SnapshotIds(s) == ids
    && (forall i, j :: 0 <= i < j < |s| ==> s[i].orderId != s[j].orderId)
    && (forall i {:trigger s[i]} :: 0 <= i < |s| ==> s[i].orderId in active && s[i] == active[s[i].orderId])
  }

  lemma GatherNone(active: Active)
    ensures Gathered([], active, {})
  {
  }

  lemma GatherOne(s: seq<CallAuctionOrderSnapshot>, active: Active, ids: set<OrderId>, id: OrderId)
    requires Gathered(s, active, ids) && id in active && active[id].orderId == id && id !in ids
    ensures Gathered(s + [active[id]], active, ids + {id})
  {
    var t := s + [active[id]];
    forall i | 0 <= i < |s| ensures t[i].orderId in ids && t[i].orderId != id { assert s[i].orderId in SnapshotIds(s); }
    forall other | other in ids ensures other in SnapshotIds(t) {
      var i :| 0 <= i < |s| && s[i].orderId == other;
      assert t[i] == s[i];
    }
    assert t[|s|].orderId == id;
  }

  lemma {:induction false} GatheredSize(s: seq<CallAuctionOrderSnapshot>, active: Active, ids: set<OrderId>)
    requires Gathered(s, active, ids)
    ensures |s| == |ids|
  {
    if s == [] {
      assert ids == {};
    } else {
      GatheredTail(s, active, ids);
      GatheredSize(s[1..], active, ids - {s[0].orderId});
    }
  }

  lemma GatheredTail(s: seq<CallAuctionOrderSnapshot>, active: Active, ids: set<OrderId>)
    requires Gathered(s, active, ids) && s != []
    ensures s[0].orderId in ids && Gathered(s[1..], active, ids - {s[0].orderId})
  {
    assert s == [s[0]] + s[1..];
    IdsPrepend(s[0], s[1..]);
  }

  /** Gathered in any order, sorting gives the ascending list. */
  lemma {:induction false} SortAscends(s: seq<CallAuctionOrderSnapshot>, active: Active, ids: set<OrderId>)
    requires Gathered(s, active, ids)
    ensures AscendingOf(SortById(s), active, ids)
  {
    if s != [] {
      GatheredTail(s, active, ids);
      SortAscends(s[1..], active, ids - {s[0].orderId});
      InsertAscendingOf(SortById(s[1..]), active, ids - {s[0].orderId}, s[0].orderId);
      assert ids - {s[0].orderId} + {s[0].orderId} == ids;
    }
  }

  ghost function AscendingOrders(active: Active, ids: set<OrderId>): seq<CallAuctionOrderSnapshot>
    requires ids <= active.Keys
  {
    if ids == {} then [] else
    var id :| id in ids;
    InsertById(AscendingOrders(active, ids - {id}), active[id])
  }

  lemma {:induction false} AscendingOrdersAre(active: Active, ids: set<OrderId>)
    requires ids <= active.Keys && forall id :: id in active ==> active[id].orderId == id
    ensures AscendingOf(AscendingOrders(active, ids), active, ids)
    decreases |ids|
  {
    if ids != {} {
      var id :| id in ids && AscendingOrders(active, ids) == InsertById(AscendingOrders(active, ids - {id}), active[id]);
      AscendingOrdersAre(active, ids - {id});
      InsertAscendingOf(AscendingOrders(active, ids - {id}), active, ids - {id}, id);
      assert ids - {id} + {id} == ids;
    }
  }

  lemma TailAscends(s: seq<CallAuctionOrderSnapshot>, active: Active, ids: set<OrderId>)
    requires AscendingOf(s, active, ids) && s != []
    ensures s[0].orderId in ids && AscendingOf(s[1..], active, ids - {s[0].orderId})
  {
    assert s == [s[0]] + s[1..];
    IdsPrepend(s[0], s[1..]);
  }

  lemma FirstIsLeast(a: seq<CallAuctionOrderSnapshot>, b: seq<CallAuctionOrderSnapshot>, active: Active, ids: set<OrderId>)
    requires AscendingOf(a, active, ids) && AscendingOf(b, active, ids) && a != []
    ensures b != [] && a[0] == b[0]
  {
    assert a[0].orderId in ids;
    var j :| 0 <= j < |b| && b[j].orderId == a[0].orderId;
    assert b[0].orderId in ids;
    var i :| 0 <= i < |a| && a[i].orderId == b[0].orderId;
  }

  /** There is one ascending list of a set of orders. */
  lemma {:induction false} AscendingIsUnique(a: seq<CallAuctionOrderSnapshot>, b: seq<CallAuctionOrderSnapshot>, active: Active, ids: set<OrderId>)
    requires AscendingOf(a, active, ids) && AscendingOf(b, active, ids)
    ensures a == b
  {
    if a == [] {
      if b != [] { FirstIsLeast(b, a, active, ids); }
    } else {
      FirstIsLeast(a, b, active, ids);
      TailAscends(a, active, ids);
      TailAscends(b, active, ids);
      AscendingIsUnique(a[1..], b[1..], active, ids - {a[0].orderId});
      assert a == [a[0]] + a[1..] && b == [b[0]] + b[1..];
    }
  }

  // ----- by priority sequence

  lemma NextSnapshot(s: seq<CallAuctionOrderSnapshot>, active: Active, ids: set<OrderId>, i: nat)
    requires AscendingOf(s, active, ids) && i < |s|
    ensures s[i].orderId in active && s[i].orderId in ids && s[i].orderId !in SnapshotIds(s[..i])
    ensures SnapshotIds(s[..i + 1]) == SnapshotIds(s[..i]) + {s[i].orderId}
  {
    var before, after := s[..i], s[..i + 1];
    assert s[i].orderId in SnapshotIds(s);
    forall id | id in SnapshotIds(before) ensures id in SnapshotIds(after) {
      var k :| 0 <= k < i && before[k].orderId == id;
      assert after[k] == before[k];
    }
    assert after[i] == s[i];
    forall id | id in SnapshotIds(after) ensures id in SnapshotIds(before) || id == s[i].orderId {
      var k :| 0 <= k <= i && after[k].orderId == id;
      if k < i { assert before[k] == after[k]; }
    }
  }

  lemma AllSnapshots(s: seq<CallAuctionOrderSnapshot>, active: Active, ids: set<OrderId>)
    requires AscendingOf(s, active, ids)
    ensures SnapshotIds(s[..|s|]) == ids && SnapshotIds(s[..0]) == {}
  {
    assert s[..|s|] == s;
  }

  ghost predicate InRank(s: seq<CallAuctionOrderSnapshot>) {
    forall i, j :: 0 <= i < j < |s| ==> s[i].prioritySequence <= s[j].prioritySequence
  }

  function InsertByRank(s: seq<CallAuctionOrderSnapshot>, order: CallAuctionOrderSnapshot): seq<CallAuctionOrderSnapshot> {
    if s == [] then [order]
    else if order.prioritySequence <= s[0].prioritySequence then [order] + s
    else [s[0]] + InsertByRank(s[1..], order)
  }

  /** The library sort by priority sequence. */
  function SortByRank(s: seq<CallAuctionOrderSnapshot>): seq<CallAuctionOrderSnapshot> {
    if s == [] then [] else InsertByRank(SortByRank(s[1..]), s[0])
  }

  lemma GatherPrepend(first: CallAuctionOrderSnapshot, rest: seq<CallAuctionOrderSnapshot>, active: Active, ids: set<OrderId>)
    requires Gathered(rest, active, ids) && first.orderId in active && active[first.orderId] == first && first.orderId !in ids
    ensures Gathered([first] + rest, active, ids + {first.orderId})
  {
    IdsPrepend(first, rest);
    forall i | 0 <= i < |rest| ensures rest[i].orderId != first.orderId { assert rest[i].orderId in SnapshotIds(rest); }
  }

  lemma {:induction false} InsertKeepsRank(s: seq<CallAuctionOrderSnapshot>, active: Active, ids: set<OrderId>, order: CallAuctionOrderSnapshot)
    requires Gathered(s, active, ids) && InRank(s)
    requires order.orderId in active && active[order.orderId] == order && order.orderId !in ids
    ensures Gathered(InsertByRank(s, order), active, ids + {order.orderId}) && InRank(InsertByRank(s, order))
    ensures forall x :: x in InsertByRank(s, order) ==> x == order || x in s
  {
    if s == [] {
      GatherPrepend(order, s, active, ids);
      assert [order] + s == [order];
    } else if order.prioritySequence <= s[0].prioritySequence {
      GatherPrepend(order, s, active, ids);
    } else {
      var first, rest := s[0], s[1..];
      GatheredTail(s, active, ids);
      InsertKeepsRank(rest, active, ids - {first.orderId}, order);
      var inserted := InsertByRank(rest, order);
      GatherPrepend(first, inserted, active, ids - {first.orderId} + {order.orderId});
      assert ids - {first.orderId} + {order.orderId} + {first.orderId} == ids + {order.orderId};
      hide Gathered, InsertByRank;
      PrependInRank(s, order, inserted);
    }
  }

  lemma PrependInRank(s: seq<CallAuctionOrderSnapshot>, order: CallAuctionOrderSnapshot, inserted: seq<CallAuctionOrderSnapshot>)
    requires s != [] && InRank(s) && InRank(inserted) && s[0].prioritySequence <= order.prioritySequence
    requires forall x :: x in inserted ==> x == order || x in s[1..]
    ensures InRank([s[0]] + inserted)
    ensures forall x :: x in [s[0]] + inserted ==> x == order || x in s
  {
    forall i | 0 <= i < |inserted| ensures s[0].prioritySequence <= inserted[i].prioritySequence {
      assert inserted[i] in inserted;
      if inserted[i] != order {
        var k :| 0 <= k < |s[1..]| && s[1..][k] == inserted[i];
        assert s[k + 1] == inserted[i];
      }
    }
    assert s == [s[0]] + s[1..];
  }

  /** Sorting by rank keeps what was gathered. */
  lemma {:induction false} SortByRankGathers(s: seq<CallAuctionOrderSnapshot>, active: Active, ids: set<OrderId>)
    requires Gathered(s, active, ids)
    ensures Gathered(SortByRank(s), active, ids) && InRank(SortByRank(s))
  {
    if s != [] {
      GatheredTail(s, active, ids);
      SortByRankGathers(s[1..], active, ids - {s[0].orderId});
      InsertKeepsRank(SortByRank(s[1..]), active, ids - {s[0].orderId}, s[0]);
      assert ids - {s[0].orderId} + {s[0].orderId} == ids;
    }
  }
}
