/** Sums of per-order quantities over finite sets of orders. */
module SetSums {
  import opened Domain

  type Weights = map<OrderId, nat>

  ghost function Total(w: Weights, ids: set<OrderId>): nat
    requires ids <= w.Keys
  {
    if ids == {} then 0 else
    var id :| id in ids;
    w[id] + Total(w, ids - {id})
  }

  /** The total does not depend on which element is taken first. */
  lemma {:induction false} TotalTake(w: Weights, ids: set<OrderId>, id: OrderId)
    requires ids <= w.Keys && id in ids
    ensures Total(w, ids) == w[id] + Total(w, ids - {id})
    decreases |ids|
  {
    var first :| first in ids && Total(w, ids) == w[first] + Total(w, ids - {first});
    if first != id {
      TotalTake(w, ids - {first}, id);
      TotalTake(w, ids - {id}, first);
      assert ids - {first} - {id} == ids - {id} - {first};
    }
  }

  lemma TotalAdd(w: Weights, ids: set<OrderId>, id: OrderId)
    requires ids <= w.Keys && id in w && id !in ids
    ensures Total(w, ids + {id}) == Total(w, ids) + w[id]
  {
    TotalTake(w, ids + {id}, id);
    assert ids + {id} - {id} == ids;
  }

  lemma {:induction false} TotalAgree(v: Weights, w: Weights, ids: set<OrderId>)
    requires ids <= v.Keys && ids <= w.Keys
    requires forall id :: id in ids ==> v[id] == w[id]
    ensures Total(v, ids) == Total(w, ids)
    decreases |ids|
  {
    if ids != {} {
      var id :| id in ids;
      TotalTake(v, ids, id);
      TotalTake(w, ids, id);
      TotalAgree(v, w, ids - {id});
    }
  }

  lemma {:induction false} TotalUnion(w: Weights, a: set<OrderId>, b: set<OrderId>)
    requires a <= w.Keys && b <= w.Keys && a !! b
    ensures Total(w, a + b) == Total(w, a) + Total(w, b)
    decreases |b|
  {
    if b == {} {
      assert a + b == a;
    } else {
      var id :| id in b;
      TotalUnion(w, a, b - {id});
      TotalTake(w, b, id);
      TotalTake(w, a + b, id);
      assert a + b - {id} == a + (b - {id});
    }
  }

  /** A total of positive machine quantities is bounded by the count and is zero only when empty. */
  lemma {:induction false} TotalBounds(w: Weights, ids: set<OrderId>, most: nat)
    requires ids <= w.Keys && forall id :: id in ids ==> 1 <= w[id] <= most
    ensures |ids| <= Total(w, ids) <= |ids| * most
    decreases |ids|
  {
    if ids != {} {
      var id :| id in ids;
      TotalTake(w, ids, id);
      TotalBounds(w, ids - {id}, most);
      assert |ids| == |ids - {id}| + 1;
      ProductStep(|ids - {id}|, most);
    }
  }

  lemma ProductStep(n: nat, most: nat)
    ensures (n + 1) * most == n * most + most
  {
  }

  lemma {:induction false} TotalMonotone(w: Weights, a: set<OrderId>, b: set<OrderId>)
    requires a <= b <= w.Keys
    ensures Total(w, a) <= Total(w, b)
  {
    TotalUnion(w, a, b - a);
    assert a + (b - a) == b;
  }
}
