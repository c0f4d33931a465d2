/** Deterministic counterparty pairing: two fill lists consumed lot by lot from the front. */
module Pairing {
  import opened Allocation
  import opened Domain

  type Fills = seq<AuctionOrderFill>

  /** The two current fills and what is left of each. */
  datatype Cursor = Cursor(buy: nat, sell: nat, buyLeft: u64, sellLeft: u64)

  /** One counterparty pair: positions in the two fill lists and the lots they exchange. */
  datatype Pair = Pair(buy: nat, sell: nat, lots: Quantity)

  function LotsAt(fills: Fills, i: nat): u64 {
    if i < |fills| then fills[i].quantityLots else 0
  }

  function Start(buys: Fills, sells: Fills): Cursor {
    Cursor(0, 0, LotsAt(buys, 0), LotsAt(sells, 0))
  }

  predicate Live(c: Cursor, buys: Fills, sells: Fills) {
    c.buy < |buys| && c.sell < |sells|
  }

  function PairLots(c: Cursor): u64 {
    if c.buyLeft <= c.sellLeft then c.buyLeft else c.sellLeft
  }

  /** Both sides give the pair's lots; an exhausted fill yields to the next one. */
  function Advance(c: Cursor, buys: Fills, sells: Fills): Cursor {
    var lots := PairLots(c);
    Cursor(if c.buyLeft == lots then c.buy + 1 else c.buy,
           if c.sellLeft == lots then c.sell + 1 else c.sell,
           if c.buyLeft == lots then LotsAt(buys, c.buy + 1) else c.buyLeft - lots,
           if c.sellLeft == lots then LotsAt(sells, c.sell + 1) else c.sellLeft - lots)
  }

  predicate Drained(c: Cursor, buys: Fills, sells: Fills) {
    c == Cursor(|buys|, |sells|, 0, 0)
  }

  ghost function LotsFrom(fills: Fills, i: nat): nat
    decreases |fills| - i
  {
    if i >= |fills| then 0 else fills[i].quantityLots + LotsFrom(fills, i + 1)
  }

  ghost function Outstanding(fills: Fills, at: nat, left: nat): nat {
    if at >= |fills| then 0 else left + LotsFrom(fills, at + 1)
  }

  ghost predicate InRange(fills: Fills, at: nat, left: nat) {
    at <= |fills| && if at < |fills| then 1 <= left <= fills[at].quantityLots else left == 0
  }

  /** What remains of both lists is the same quantity. */
  ghost predicate Balanced(c: Cursor, buys: Fills, sells: Fills) {
    && InRange(buys, c.buy, c.buyLeft) && InRange(sells, c.sell, c.sellLeft)
    && Outstanding(buys, c.buy, c.buyLeft) == Outstanding(sells, c.sell, c.sellLeft)
  }

  ghost function Steps(c: Cursor, buys: Fills, sells: Fills): int {
    (|buys| - c.buy) + (|sells| - c.sell)
  }

  lemma StartIsBalanced(buys: Fills, sells: Fills)
    ensures LotsFrom(buys, 0) == LotsFrom(sells, 0) ==> Balanced(Start(buys, sells), buys, sells)
  {
  }

  lemma AdvanceKeepsBalance(c: Cursor, buys: Fills, sells: Fills)
    requires Balanced(c, buys, sells) && Live(c, buys, sells)
    ensures PairLots(c) >= 1
    ensures Balanced(Advance(c, buys, sells), buys, sells)
    ensures Steps(Advance(c, buys, sells), buys, sells) < Steps(c, buys, sells)
    ensures Live(Advance(c, buys, sells), buys, sells) || Steps(Advance(c, buys, sells), buys, sells) <= Steps(c, buys, sells) - 2
  {
    var d := Advance(c, buys, sells);
    assert Outstanding(buys, d.buy, d.buyLeft) == Outstanding(buys, c.buy, c.buyLeft) - PairLots(c);
    assert Outstanding(sells, d.sell, d.sellLeft) == Outstanding(sells, c.sell, c.sellLeft) - PairLots(c);
    assert d.buy < |buys| <==> Outstanding(buys, d.buy, d.buyLeft) > 0;
    assert d.sell < |sells| <==> Outstanding(sells, d.sell, d.sellLeft) > 0;
  }

  /** A balanced pairing stops only when both lists are spent. */
  lemma BalancedStop(c: Cursor, buys: Fills, sells: Fills)
    requires Balanced(c, buys, sells) && !Live(c, buys, sells)
    ensures Drained(c, buys, sells)
  {
  }

  /** All pairs from a cursor on. */
  ghost function PairsFrom(c: Cursor, buys: Fills, sells: Fills): seq<Pair>
    decreases Steps(c, buys, sells)
  {
    if !Live(c, buys, sells) || PairLots(c) == 0 then [] else
    [Pair(c.buy, c.sell, PairLots(c))] + PairsFrom(Advance(c, buys, sells), buys, sells)
  }

  ghost function Pairs(buys: Fills, sells: Fills): seq<Pair> {
    PairsFrom(Start(buys, sells), buys, sells)
  }

  /** Lots of one order among the fills from position `i`. */
  ghost function FilledFrom(fills: Fills, i: nat, id: OrderId): nat
    decreases |fills| - i
  {
    if i >= |fills| then 0 else (if fills[i].orderId == id then fills[i].quantityLots else 0) + FilledFrom(fills, i + 1, id)
  }

  ghost function Filled(fills: Fills, id: OrderId): nat {
    FilledFrom(fills, 0, id)
  }

  ghost function FilledLeft(fills: Fills, at: nat, left: nat, id: OrderId): nat {
    if at >= |fills| then 0 else (if fills[at].orderId == id then left else 0) + FilledFrom(fills, at + 1, id)
  }

  ghost predicate WellPaired(pairs: seq<Pair>, buys: Fills, sells: Fills) {
    forall k {:trigger pairs[k]} :: 0 <= k < |pairs| ==> pairs[k].buy < |buys| && pairs[k].sell < |sells|
  }

  /** Lots of one order among the pairs, on one side. */
  ghost function PairedLots(pairs: seq<Pair>, fills: Fills, side: Side, id: OrderId): nat
    requires forall k {:trigger pairs[k]} :: 0 <= k < |pairs| ==> (if side == Buy then pairs[k].buy else pairs[k].sell) < |fills|
  {
    if pairs == [] then 0 else
    var at := if side == Buy then pairs[0].buy else pairs[0].sell;
    (if fills[at].orderId == id then pairs[0].lots else 0) + PairedLots(pairs[1..], fills, side, id)
  }

  ghost function TotalLots(pairs: seq<Pair>): nat {
    if pairs == [] then 0 else pairs[0].lots + TotalLots(pairs[1..])
  }

  lemma {:induction false} PairsAreInRange(c: Cursor, buys: Fills, sells: Fills)
    ensures WellPaired(PairsFrom(c, buys, sells), buys, sells)
    decreases Steps(c, buys, sells)
  {
    if Live(c, buys, sells) && PairLots(c) != 0 {
      PairsAreInRange(Advance(c, buys, sells), buys, sells);
    }
  }

  lemma AdvanceConsumes(c: Cursor, buys: Fills, sells: Fills, id: OrderId)
    requires Balanced(c, buys, sells) && Live(c, buys, sells)
    ensures var d, lots := Advance(c, buys, sells), PairLots(c);
            && Outstanding(buys, c.buy, c.buyLeft) == lots + Outstanding(buys, d.buy, d.buyLeft)
            && FilledLeft(buys, c.buy, c.buyLeft, id) == (if buys[c.buy].orderId == id then lots else 0) + FilledLeft(buys, d.buy, d.buyLeft, id)
            && FilledLeft(sells, c.sell, c.sellLeft, id) == (if sells[c.sell].orderId == id then lots else 0) + FilledLeft(sells, d.sell, d.sellLeft, id)
  {
  }

  /** From a balanced cursor the pairs consume exactly what is outstanding, of every order. */
  lemma {:induction false} PairsConsume(c: Cursor, buys: Fills, sells: Fills, id: OrderId)
    requires Balanced(c, buys, sells)
    ensures var pairs := PairsFrom(c, buys, sells);
            && WellPaired(pairs, buys, sells)
            && TotalLots(pairs) == Outstanding(buys, c.buy, c.buyLeft) == Outstanding(sells, c.sell, c.sellLeft)
            && PairedLots(pairs, buys, Buy, id) == FilledLeft(buys, c.buy, c.buyLeft, id)
            && PairedLots(pairs, sells, Sell, id) == FilledLeft(sells, c.sell, c.sellLeft, id)
            && |pairs| <= if Live(c, buys, sells) then Steps(c, buys, sells) - 1 else 0
    decreases Steps(c, buys, sells)
  {
    PairsAreInRange(c, buys, sells);
    if Live(c, buys, sells) {
      AdvanceKeepsBalance(c, buys, sells);
      AdvanceConsumes(c, buys, sells, id);
      var d := Advance(c, buys, sells);
      PairsConsume(d, buys, sells, id);
      var pairs := PairsFrom(c, buys, sells);
      assert pairs[1..] == PairsFrom(d, buys, sells) && pairs[0] == Pair(c.buy, c.sell, PairLots(c));
      hide FilledLeft, Outstanding, Advance;
    } else {
      BalancedStop(c, buys, sells);
    }
  }

  /** Pairing conserves quantity: whole lists are consumed, order by order, in at most
      buys + sells - 1 positive pairs. */
  lemma PairingConserves(buys: Fills, sells: Fills, id: OrderId)
    requires LotsFrom(buys, 0) == LotsFrom(sells, 0)
    ensures var pairs := Pairs(buys, sells);
            && WellPaired(pairs, buys, sells)
            && TotalLots(pairs) == LotsFrom(buys, 0)
            && PairedLots(pairs, buys, Buy, id) == Filled(buys, id)
            && PairedLots(pairs, sells, Sell, id) == Filled(sells, id)
            && (if buys == [] || sells == [] then pairs == [] else 1 <= |pairs| <= |buys| + |sells| - 1)
  {
    StartIsBalanced(buys, sells);
    PairsConsume(Start(buys, sells), buys, sells, id);
  }

  /** Counts the pairs without building them; `None` exactly when the lists do not balance. */
  method RequiredPairCount(buys: Fills, sells: Fills) returns (count: Option<nat>)
    ensures buys != [] && sells != [] && LotsFrom(buys, 0) == LotsFrom(sells, 0) ==> count == Some(|Pairs(buys, sells)|)
    ensures count.Some? ==> count.value == |Pairs(buys, sells)|
  {
    if buys == [] || sells == [] {
      return None;
    }
    var c := Start(buys, sells);
    var n: nat := 0;
    ghost var good := LotsFrom(buys, 0) == LotsFrom(sells, 0);
    StartIsBalanced(buys, sells);
    while Live(c, buys, sells)
      invariant good ==> Balanced(c, buys, sells)
      invariant n + |PairsFrom(c, buys, sells)| == |Pairs(buys, sells)|
      decreases Steps(c, buys, sells)
    {
      if good { AdvanceKeepsBalance(c, buys, sells); }
      if PairLots(c) == 0 {
        return None;
      }
      n := n + 1;
      c := Advance(c, buys, sells);
    }
    if good { BalancedStop(c, buys, sells); }
    if Drained(c, buys, sells) {
      return Some(n);
    }
    return None;
  }

  // ----- fills of one side, order by order

  /** Fills in source order name each order at most once. */
  ghost predicate DistinctFills(fills: Fills) {
    forall i, j :: 0 <= i < j < |fills| ==> fills[i].orderId != fills[j].orderId
  }

  lemma {:induction false} NotFilled(fills: Fills, i: nat, id: OrderId)
    requires forall k {:trigger fills[k]} :: i <= k < |fills| ==> fills[k].orderId != id
    ensures FilledFrom(fills, i, id) == 0
    decreases |fills| - i
  {
    if i < |fills| { NotFilled(fills, i + 1, id); }
  }

  lemma {:induction false} FilledAt(fills: Fills, i: nat, k: nat)
    requires DistinctFills(fills) && i <= k < |fills|
    ensures FilledFrom(fills, i, fills[k].orderId) == fills[k].quantityLots
    decreases k - i
  {
    if i == k {
      NotFilled(fills, k + 1, fills[k].orderId);
    } else {
      FilledAt(fills, i + 1, k);
    }
  }
}
