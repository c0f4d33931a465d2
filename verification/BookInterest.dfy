/** Buy and sell interest of a book at any price, as the plain map of active orders defines it:
    the canonical order list of a side, demand and supply, and the best clearing state of a band. */
module BookInterest {
  import opened Allocation
  import opened AbstractBook
  import opened Clearing
  import opened Discovery
  import opened Domain
  import opened SetSums

  type Active = map<OrderId, CallAuctionOrderSnapshot>

  ghost function AsAuctionOrder(order: CallAuctionOrderSnapshot): AuctionOrder {
    AuctionOrder(order.orderId, order.constraint, order.quantity, order.priorityClass, order.prioritySequence)
  }

  ghost predicate Keyed(active: Active) {
    forall id :: id in active ==> active[id].orderId == id
  }

  ghost function SideIds(active: Active, side: Side): set<OrderId> {
    set id | id in active && active[id].side == side
  }

  ghost function EligibleIds(active: Active, side: Side, price: Price): set<OrderId> {
    set id | id in active && active[id].side == side && IsEligible(AsAuctionOrder(active[id]), side, price)
  }

  ghost function Lots(active: Active): (w: Weights)
    ensures w.Keys == active.Keys
  {
    map id | id in active :: active[id].quantity
  }

  /** Lots of one side that may trade at a price. */
  ghost function Interest(active: Active, side: Side, price: Price): nat {
    Total(Lots(active), EligibleIds(active, side, price))
  }

  // ----- the canonical order list of one side

  ghost function Ids(orders: seq<AuctionOrder>): set<OrderId> {
    set i | 0 <= i < |orders| :: orders[i].orderId
  }

  /** `orders` is exactly the orders of `ids`, each once, in execution priority. */
  ghost predicate Lists(orders: seq<AuctionOrder>, active: Active, ids: set<OrderId>, side: Side) {
    && InPriority(orders, side) && Ids(orders) == ids
    && forall i {:trigger orders[i]} :: 0 <= i < |orders| ==>
         orders[i].orderId in active && orders[i] == AsAuctionOrder(active[orders[i].orderId])
  }

  function InsertByPriority(orders: seq<AuctionOrder>, order: AuctionOrder, side: Side): (r: seq<AuctionOrder>) {
    if orders == [] then [order]
    else if Precedes(order, orders[0], side) then [order] + orders
    else [orders[0]] + InsertByPriority(orders[1..], order, side)
  }

  /** The library sort, as an insertion sort: priority is total on distinct orders, so every
      comparison sort agrees. */
  function SortByPriority(orders: seq<AuctionOrder>, side: Side): seq<AuctionOrder> {
    if orders == [] then [] else InsertByPriority(SortByPriority(orders[1..], side), orders[0], side)
  }

  lemma PriorityIsTotal(a: AuctionOrder, b: AuctionOrder, side: Side)
    ensures a.orderId != b.orderId ==> Precedes(a, b, side) || Precedes(b, a, side)
    ensures !(Precedes(a, b, side) && Precedes(b, a, side))
  {
  }

  lemma IdsPrepend(first: AuctionOrder, rest: seq<AuctionOrder>)
    ensures Ids([first] + rest) == {first.orderId} + Ids(rest)
  {
    var whole := [first] + rest;
    forall i | 0 <= i < |rest| ensures rest[i].orderId in Ids(whole) {
      assert whole[i + 1] == rest[i];
    }
    assert whole[0] == first;
  }

  lemma TailInPriority(orders: seq<AuctionOrder>, side: Side)
    requires orders != [] && InPriority(orders, side)
    ensures InPriority(orders[1..], side)
  {
    hide Precedes;
  }

  ghost predicate Heads(first: AuctionOrder, rest: seq<AuctionOrder>, side: Side) {
    forall i {:trigger rest[i]} :: 0 <= i < |rest| ==> Precedes(first, rest[i], side)
  }

  lemma PrependInPriority(first: AuctionOrder, rest: seq<AuctionOrder>, side: Side)
    requires InPriority(rest, side) && Heads(first, rest, side)
    ensures InPriority([first] + rest, side)
  {
    hide Precedes;
  }

  lemma {:induction false} InsertKeepsPriority(orders: seq<AuctionOrder>, order: AuctionOrder, side: Side)
    requires InPriority(orders, side) && order.orderId !in Ids(orders)
    ensures InPriority(InsertByPriority(orders, order, side), side)
    ensures Ids(InsertByPriority(orders, order, side)) == Ids(orders) + {order.orderId}
    ensures forall x :: x in InsertByPriority(orders, order, side) ==> x == order || x in orders
  {
    hide Precedes;
    if orders == [] {
      IdsPrepend(order, orders);
      assert [order] + orders == [order];
    } else if Precedes(order, orders[0], side) {
      IdsPrepend(order, orders);
      forall i | 0 <= i < |orders| ensures Precedes(order, orders[i], side) {
        if i > 0 { PrecedesIsTransitive(order, orders[0], orders[i], side); }
      }
      PrependInPriority(order, orders, side);
    } else {
      var first, rest := orders[0], orders[1..];
      assert orders == [first] + rest;
      TailInPriority(orders, side);
      IdsPrepend(first, rest);
      InsertKeepsPriority(rest, order, side);
      var inserted := InsertByPriority(rest, order, side);
      IdsPrepend(first, inserted);
      PriorityIsTotal(order, first, side);
      forall i | 0 <= i < |inserted| ensures Precedes(first, inserted[i], side) {
        assert inserted[i] in inserted;
        if inserted[i] != order {
          var k :| 0 <= k < |rest| && rest[k] == inserted[i];
          assert orders[k + 1] == rest[k];
        }
      }
      PrependInPriority(first, inserted, side);
    }
  }

  lemma InsertLists(orders: seq<AuctionOrder>, active: Active, ids: set<OrderId>, side: Side, id: OrderId)
    requires Lists(orders, active, ids, side) && id in active && id !in ids && active[id].orderId == id
    ensures Lists(InsertByPriority(orders, AsAuctionOrder(active[id]), side), active, ids + {id}, side)
  {
    var order := AsAuctionOrder(active[id]);
    InsertKeepsPriority(orders, order, side);
    var r := InsertByPriority(orders, order, side);
    hide InsertByPriority, InPriority;
    forall i | 0 <= i < |r| ensures r[i].orderId in active && r[i] == AsAuctionOrder(active[r[i].orderId]) {
      assert r[i] in r;
    }
  }

  ghost function ListOf(active: Active, ids: set<OrderId>, side: Side): seq<AuctionOrder>
    requires ids <= active.Keys
  {
    if ids == {} then [] else
    var id :| id in ids;
    InsertByPriority(ListOf(active, ids - {id}, side), AsAuctionOrder(active[id]), side)
  }

  lemma {:induction false} ListOfLists(active: Active, ids: set<OrderId>, side: Side)
    requires ids <= active.Keys && Keyed(active)
    ensures Lists(ListOf(active, ids, side), active, ids, side)
    decreases |ids|
  {
    if ids != {} {
      var id :| id in ids && ListOf(active, ids, side) == InsertByPriority(ListOf(active, ids - {id}, side), AsAuctionOrder(active[id]), side);
      ListOfLists(active, ids - {id}, side);
      InsertLists(ListOf(active, ids - {id}, side), active, ids - {id}, side, id);
      assert ids - {id} + {id} == ids;
    }
  }

  /** The orders of one side in execution priority. */
  ghost function SideOrders(active: Active, side: Side): seq<AuctionOrder> {
    ListOf(active, SideIds(active, side), side)
  }

  lemma TailLists(orders: seq<AuctionOrder>, active: Active, ids: set<OrderId>, side: Side)
    requires Lists(orders, active, ids, side) && orders != []
    ensures orders[0].orderId in ids && Lists(orders[1..], active, ids - {orders[0].orderId}, side)
  {
    assert orders == [orders[0]] + orders[1..];
    IdsPrepend(orders[0], orders[1..]);
    TailInPriority(orders, side);
    hide Precedes;
    forall i | 0 <= i < |orders[1..]| ensures orders[1..][i].orderId != orders[0].orderId {
      assert Precedes(orders[0], orders[i + 1], side);
      PriorityIsTotal(orders[0], orders[i + 1], side);
    }
  }

  lemma HeadsAgree(a: seq<AuctionOrder>, b: seq<AuctionOrder>, active: Active, ids: set<OrderId>, side: Side)
    requires Lists(a, active, ids, side) && Lists(b, active, ids, side) && a != []
    ensures b != [] && a[0] == b[0]
  {
    hide Precedes;
    assert a[0].orderId in ids;
    var j :| 0 <= j < |b| && b[j].orderId == a[0].orderId;
    assert b[0].orderId in ids;
    var i :| 0 <= i < |a| && a[i].orderId == b[0].orderId;
    PriorityIsTotal(a[0], b[0], side);
  }

  /** A side has one canonical list: any two lists of the same orders are equal. */
  lemma {:induction false} ListIsUnique(a: seq<AuctionOrder>, b: seq<AuctionOrder>, active: Active, ids: set<OrderId>, side: Side)
    requires Lists(a, active, ids, side) && Lists(b, active, ids, side)
    ensures a == b
    decreases |a|
  {
    if a == [] {
      if b != [] { HeadsAgree(b, a, active, ids, side); }
    } else {
      HeadsAgree(a, b, active, ids, side);
      TailLists(a, active, ids, side);
      TailLists(b, active, ids, side);
      ListIsUnique(a[1..], b[1..], active, ids - {a[0].orderId}, side);
      assert a == [a[0]] + a[1..] && b == [b[0]] + b[1..];
    }
  }

  /** `s` holds the orders of `ids`, each once, in any order. */
  ghost predicate Collected(s: seq<AuctionOrder>, active: Active, ids: set<OrderId>) {
    && Ids(s) == ids
    && (forall i, j :: 0 <= i < j < |s| ==> s[i].orderId != s[j].orderId)
    && (forall i {:trigger s[i]} :: 0 <= i < |s| ==> s[i].orderId in active && s[i] == AsAuctionOrder(active[s[i].orderId]))
  }

  lemma CollectNone(active: Active)
    ensures Collected([], active, {})
  {
  }

  lemma CollectOne(s: seq<AuctionOrder>, active: Active, ids: set<OrderId>, id: OrderId)
    requires Collected(s, active, ids) && id in active && active[id].orderId == id && id !in ids
    ensures Collected(s + [AsAuctionOrder(active[id])], active, ids + {id})
  {
    var t := s + [AsAuctionOrder(active[id])];
    forall i | 0 <= i < |s| ensures t[i].orderId in ids && t[i].orderId != id { assert s[i].orderId in Ids(s); }
    forall other | other in ids ensures other in Ids(t) {
      var i :| 0 <= i < |s| && s[i].orderId == other;
      assert t[i] == s[i];
    }
    assert t[|s|].orderId == id;
  }

  lemma CollectedTail(s: seq<AuctionOrder>, active: Active, ids: set<OrderId>)
    requires Collected(s, active, ids) && s != []
    ensures s[0].orderId in ids && Collected(s[1..], active, ids - {s[0].orderId})
  {
    assert s == [s[0]] + s[1..];
    IdsPrepend(s[0], s[1..]);
  }

  /** Collected in any order, sorting gives the canonical list. */
  lemma {:induction false} SortLists(s: seq<AuctionOrder>, active: Active, ids: set<OrderId>, side: Side)
    requires Collected(s, active, ids) && Keyed(active)
    ensures Lists(SortByPriority(s, side), active, ids, side) && RunsInOrder(SortByPriority(s, side), side)
  {
    hide RunsInOrder;
    if s != [] {
      CollectedTail(s, active, ids);
      SortLists(s[1..], active, ids - {s[0].orderId}, side);
      InsertLists(SortByPriority(s[1..], side), active, ids - {s[0].orderId}, side, s[0].orderId);
      assert ids - {s[0].orderId} + {s[0].orderId} == ids;
    }
    InPriorityMeans(SortByPriority(s, side), side);
  }

  lemma SortGivesSide(s: seq<AuctionOrder>, active: Active, side: Side)
    requires Collected(s, active, SideIds(active, side)) && Keyed(active)
    ensures SortByPriority(s, side) == SideOrders(active, side) && RunsInOrder(SideOrders(active, side), side)
  {
    hide Collected, Lists, SortByPriority, RunsInOrder;
    SortLists(s, active, SideIds(active, side), side);
    ListOfLists(active, SideIds(active, side), side);
    ListIsUnique(SortByPriority(s, side), SideOrders(active, side), active, SideIds(active, side), side);
  }

  // ----- lists and levels measure the same interest

  ghost function PrefixIds(orders: seq<AuctionOrder>, n: nat): set<OrderId>
    requires n <= |orders|
  {
    if n == 0 then {} else PrefixIds(orders, n - 1) + {orders[n - 1].orderId}
  }

  lemma {:induction false} PrefixIdsAre(orders: seq<AuctionOrder>, n: nat)
    requires n <= |orders|
    ensures forall id :: id in PrefixIds(orders, n) <==> exists i :: 0 <= i < n && orders[i].orderId == id
  {
    if n > 0 {
      PrefixIdsAre(orders, n - 1);
    }
  }

  lemma ListsAreDistinct(orders: seq<AuctionOrder>, active: Active, ids: set<OrderId>, side: Side)
    requires Lists(orders, active, ids, side)
    ensures forall i, j :: 0 <= i < j < |orders| ==> orders[i].orderId != orders[j].orderId
  {
    hide Precedes;
    forall i, j | 0 <= i < j < |orders| ensures orders[i].orderId != orders[j].orderId {
      assert Precedes(orders[i], orders[j], side);
      PriorityIsTotal(orders[i], orders[j], side);
    }
  }

  lemma {:induction false} PrefixInterest(orders: seq<AuctionOrder>, active: Active, side: Side, price: Price, n: nat)
    requires Lists(orders, active, SideIds(active, side), side) && n <= |orders|
    ensures EligibleCum(orders, side, price, n) == Total(Lots(active), EligibleIds(active, side, price) * PrefixIds(orders, n))
  {
    var eligible := EligibleIds(active, side, price);
    if n == 0 {
      assert eligible * {} == {};
    } else {
      PrefixInterest(orders, active, side, price, n - 1);
      var id := orders[n - 1].orderId;
      assert id in Ids(orders);
      PrefixIdsAre(orders, n - 1);
      ListsAreDistinct(orders, active, SideIds(active, side), side);
      var before := eligible * PrefixIds(orders, n - 1);
      if id in eligible {
        assert eligible * PrefixIds(orders, n) == before + {id};
        TotalAdd(Lots(active), before, id);
      } else {
        assert eligible * PrefixIds(orders, n) == before;
      }
    }
  }

  lemma ListInterest(orders: seq<AuctionOrder>, active: Active, side: Side, price: Price)
    requires Lists(orders, active, SideIds(active, side), side)
    ensures EligibleQuantity(orders, side, price) == Interest(active, side, price)
  {
    PrefixInterest(orders, active, side, price, |orders|);
    PrefixIdsAre(orders, |orders|);
    assert EligibleIds(active, side, price) * PrefixIds(orders, |orders|) == EligibleIds(active, side, price) by {
      forall id | id in EligibleIds(active, side, price) ensures id in PrefixIds(orders, |orders|) {
        assert id in Ids(orders);
      }
    }
  }

  ghost function LevelIds(active: Active, side: Side, price: Price): set<OrderId> {
    set id | id in active && active[id].side == side && active[id].constraint == Limit(price)
  }

  ghost function MarketIds(active: Active, side: Side): set<OrderId> {
    set id | id in active && active[id].side == side && active[id].constraint == AuctionOrderConstraint.Market
  }

  ghost predicate PricedIn(levels: seq<AuctionLevel>, n: nat, constraint: AuctionOrderConstraint) {
    constraint.Limit? && exists k {:trigger levels[k]} :: 0 <= k < n <= |levels| && levels[k].price == constraint.price
  }

  /** `levels` is every occupied limit price of a side with its exact total, best first. */
  ghost predicate LevelsOf(levels: seq<AuctionLevel>, active: Active, side: Side) {
    && (forall i, j :: 0 <= i < j < |levels| ==> StrictlyBetter(levels[i], levels[j], side))
    && (forall i {:trigger levels[i]} :: 0 <= i < |levels| ==> levels[i].quantity == Total(Lots(active), LevelIds(active, side, levels[i].price)))
    && forall id :: id in active && active[id].side == side && active[id].constraint.Limit? ==> PricedIn(levels, |levels|, active[id].constraint)
  }

  ghost function PricedIds(levels: seq<AuctionLevel>, n: nat, active: Active, side: Side, price: Price): set<OrderId> {
    set id | id in EligibleIds(active, side, price) && PricedIn(levels, n, active[id].constraint)
  }

  lemma PricedStep(levels: seq<AuctionLevel>, active: Active, side: Side, price: Price, n: nat)
    requires LevelsOf(levels, active, side) && n < |levels|
    ensures var before, here := PricedIds(levels, n, active, side, price), LevelIds(active, side, levels[n].price);
            && before !! here
            && PricedIds(levels, n + 1, active, side, price) == if LevelEligible(levels[n], side, price) then before + here else before
  {
    hide Lots, Total;
    var last := levels[n];
    var before, here := PricedIds(levels, n, active, side, price), LevelIds(active, side, last.price);
    forall id | id in before ensures id !in here {
      var k :| 0 <= k < n && levels[k].price == active[id].constraint.price;
      assert StrictlyBetter(levels[k], levels[n], side);
    }
    forall id | id in EligibleIds(active, side, price)
      ensures PricedIn(levels, n + 1, active[id].constraint) <==> PricedIn(levels, n, active[id].constraint) || id in here
    {
      PricedInStep(levels, n, active[id].constraint);
    }
  }

  lemma PricedInStep(levels: seq<AuctionLevel>, n: nat, constraint: AuctionOrderConstraint)
    requires n < |levels|
    ensures PricedIn(levels, n + 1, constraint) <==> PricedIn(levels, n, constraint) || constraint == Limit(levels[n].price)
  {
  }

  lemma {:induction false} PrefixLevels(levels: seq<AuctionLevel>, active: Active, side: Side, price: Price, n: nat)
    requires LevelsOf(levels, active, side) && n <= |levels|
    ensures EligibleTotal(levels[..n], side, price) == Total(Lots(active), PricedIds(levels, n, active, side, price))
  {
    if n == 0 {
      assert PricedIds(levels, 0, active, side, price) == {};
    } else {
      PrefixLevels(levels, active, side, price, n - 1);
      assert levels[..n][..n - 1] == levels[..n - 1];
      var last := levels[n - 1];
      PricedStep(levels, active, side, price, n - 1);
      if LevelEligible(last, side, price) {
        TotalUnion(Lots(active), PricedIds(levels, n - 1, active, side, price), LevelIds(active, side, last.price));
      }
    }
  }

  lemma LevelsInterest(levels: seq<AuctionLevel>, active: Active, side: Side, price: Price)
    requires LevelsOf(levels, active, side)
    ensures Total(Lots(active), MarketIds(active, side)) + EligibleTotal(levels, side, price) == Interest(active, side, price)
  {
    PrefixLevels(levels, active, side, price, |levels|);
    assert levels[..|levels|] == levels;
    var limits := PricedIds(levels, |levels|, active, side, price);
    assert EligibleIds(active, side, price) == MarketIds(active, side) + limits;
    TotalUnion(Lots(active), MarketIds(active, side), limits);
  }

  /** Every eligible set fits machine totals. */
  ghost predicate Fits(active: Active) {
    forall side: Side, price: Price :: Interest(active, side, price) <= U128_MAX
  }

  lemma InterestFits(m: BookModel)
    requires m.Valid()
    ensures Keyed(m.active) && Fits(m.active)
  {
    forall id | id in m.active ensures m.active[id].orderId == id { assert m.OrderOk(id); }
    hide BookModel.Valid;
    MaximumHolds(m);
    forall side: Side, price: Price ensures Interest(m.active, side, price) <= U128_MAX {
      var ids := EligibleIds(m.active, side, price);
      TotalBounds(Lots(m.active), ids, U64_MAX);
      SubsetSize(ids, m.active.Keys);
      ScaleBound(|ids|, U64_MAX);
    }
  }

  lemma ScaleBound(n: int, most: int)
    requires 0 <= n <= U64_MAX && most == U64_MAX
    ensures n * most <= U128_MAX
  {
  }

  /** `market` is what the aggregate indexes of the book say. */
  ghost predicate Aggregates(market: AggregateMarket, active: Active) {
    && LevelsOf(market.bids, active, Buy) && LevelsOf(market.asks, active, Sell)
    && market.interest.buyQuantity == Total(Lots(active), MarketIds(active, Buy))
    && market.interest.sellQuantity == Total(Lots(active), MarketIds(active, Sell))
  }

  lemma MarketInterest(market: AggregateMarket, active: Active, price: Price)
    requires Aggregates(market, active)
    ensures market.Demand(price) == Interest(active, Buy, price)
    ensures market.Supply(price) == Interest(active, Sell, price)
  {
    LevelsInterest(market.bids, active, Buy, price);
    LevelsInterest(market.asks, active, Sell, price);
  }

  lemma {:induction false} AllEligible(levels: seq<AuctionLevel>, side: Side, price: Price)
    requires price == if side == Buy then I64_MIN else I64_MAX
    ensures EligibleTotal(levels, side, price) == TotalOf(levels)
  {
    if levels != [] {
      AllEligible(levels[..|levels| - 1], side, price);
    }
  }

  lemma MarketFits(market: AggregateMarket, active: Active)
    requires Aggregates(market, active) && Fits(active)
    ensures market.Representable()
  {
    MarketInterest(market, active, I64_MIN);
    MarketInterest(market, active, I64_MAX);
    AllEligible(market.bids, Buy, I64_MIN);
    AllEligible(market.asks, Sell, I64_MAX);
  }

  // ----- the best clearing state of a band, by trying every price

  ghost function BookState(active: Active, price: Price): (c: AuctionClearing)
    requires Fits(active)
    ensures c.price == price && WellFormed(c)
  {
    FromQuantities(price, Interest(active, Buy, price), Interest(active, Sell, price))
  }

  /** `best` outranks every other crossing candidate of the band below `upTo`. */
  ghost predicate IsBest(best: Option<AuctionClearing>, active: Active, grid: AuctionPriceGrid, band: AuctionPriceBand,
                         upTo: int, reference: Price, policy: AuctionPricePolicy)
    requires grid.Valid() && Fits(active)
  {
    match best
    case None =>
      forall price: Price :: IsCandidate(price, grid, band) && price < upTo ==> BookState(active, price).executableQuantity == 0
    case Some(c) =>
      && IsCandidate(c.price, grid, band) && c.price < upTo && c == BookState(active, c.price) && c.executableQuantity > 0
      && forall price: Price :: IsCandidate(price, grid, band) && price < upTo && price != c.price ==>
           BookState(active, price).executableQuantity > 0 ==> IsBetterThan(c, BookState(active, price), reference, policy)
  }

  /** `best` is what trying every candidate price of the band and keeping the best gives. */
  ghost predicate IsBookDiscovery(best: Option<AuctionClearing>, active: Active, grid: AuctionPriceGrid, band: AuctionPriceBand,
                                  reference: Price, policy: AuctionPricePolicy)
    requires grid.Valid() && Fits(active)
  {
    IsBest(best, active, grid, band, band.maximum + 1, reference, policy)
  }

  lemma StatesOfOneBook(active: Active, a: Price, b: Price)
    requires Fits(active)
    ensures OnOneMarket(BookState(active, a), BookState(active, b))
  {
    if a <= b {
      TotalMonotone(Lots(active), EligibleIds(active, Buy, b), EligibleIds(active, Buy, a));
      TotalMonotone(Lots(active), EligibleIds(active, Sell, a), EligibleIds(active, Sell, b));
    }
    if b <= a {
      TotalMonotone(Lots(active), EligibleIds(active, Buy, a), EligibleIds(active, Buy, b));
      TotalMonotone(Lots(active), EligibleIds(active, Sell, b), EligibleIds(active, Sell, a));
    }
  }

  lemma ChallengerWins(active: Active, a: Price, b: Price, c: Price, reference: Price, policy: AuctionPricePolicy)
    requires Fits(active)
    requires IsBetterThan(BookState(active, a), BookState(active, b), reference, policy)
    requires b == c || IsBetterThan(BookState(active, b), BookState(active, c), reference, policy)
    ensures IsBetterThan(BookState(active, a), BookState(active, c), reference, policy)
  {
    hide IsBetterThan, FromQuantities;
    if b != c {
      StatesOfOneBook(active, a, b);
      StatesOfOneBook(active, b, c);
      StatesOfOneBook(active, a, c);
      RankingIsTransitive(BookState(active, a), BookState(active, b), BookState(active, c), reference, policy);
    }
  }

  lemma {:induction false} BestExists(active: Active, grid: AuctionPriceGrid, band: AuctionPriceBand, upTo: int, reference: Price, policy: AuctionPricePolicy)
    returns (best: Option<AuctionClearing>)
    requires grid.Valid() && Fits(active) && band.minimum <= upTo <= band.maximum + 1
    ensures IsBest(best, active, grid, band, upTo, reference, policy)
    decreases upTo - band.minimum
  {
    hide BookState, IsBetterThan;
    if upTo == band.minimum {
      best := None;
    } else {
      best := BestExists(active, grid, band, upTo - 1, reference, policy);
      var price: Price := upTo - 1;
      if IsCandidate(price, grid, band) && BookState(active, price).executableQuantity > 0 {
        var challenger := BookState(active, price);
        if best.None? || IsBetterThan(challenger, best.value, reference, policy) {
          var incumbent := best;
          best := Some(challenger);
          forall other: Price | IsCandidate(other, grid, band) && other < price && BookState(active, other).executableQuantity > 0
            ensures IsBetterThan(challenger, BookState(active, other), reference, policy)
          {
            ChallengerWins(active, price, incumbent.value.price, other, reference, policy);
          }
        } else {
          RankingIsTotal(challenger, best.value, reference, policy);
        }
      }
    }
  }

  /** The one best clearing state of the band, if any price crosses. */
  ghost function BookDiscovery(active: Active, grid: AuctionPriceGrid, band: AuctionPriceBand, reference: Price, policy: AuctionPricePolicy)
    : (best: Option<AuctionClearing>)
    requires grid.Valid() && Fits(active)
    ensures IsBookDiscovery(best, active, grid, band, reference, policy)
  {
    SomeBestExists(active, grid, band, reference, policy);
    var best :| IsBookDiscovery(best, active, grid, band, reference, policy);
    best
  }

  lemma SomeBestExists(active: Active, grid: AuctionPriceGrid, band: AuctionPriceBand, reference: Price, policy: AuctionPricePolicy)
    requires grid.Valid() && Fits(active)
    ensures exists best :: IsBookDiscovery(best, active, grid, band, reference, policy)
  {
    if band.minimum <= band.maximum {
      var best := BestExists(active, grid, band, band.maximum + 1, reference, policy);
      assert IsBookDiscovery(best, active, grid, band, reference, policy);
    } else {
      assert IsBookDiscovery(None, active, grid, band, reference, policy);
    }
  }

  /** Sweeping the aggregate levels finds exactly the best state of the book. */
  lemma SweepFindsBest(best: Option<AuctionClearing>, market: AggregateMarket, active: Active, grid: AuctionPriceGrid,
                       band: AuctionPriceBand, reference: Price, policy: AuctionPricePolicy)
    requires grid.Valid() && Fits(active) && Aggregates(market, active) && market.Representable()
    requires IsDiscovery(best, market, grid, band, reference, policy)
    ensures best == BookDiscovery(active, grid, band, reference, policy)
  {
    forall price: Price ensures market.StateAt(price) == BookState(active, price) {
      MarketInterest(market, active, price);
    }
    var book := BookDiscovery(active, grid, band, reference, policy);
    assert IsBookDiscovery(book, active, grid, band, reference, policy);
    forall price: Price ensures market.Crosses(price) <==> BookState(active, price).executableQuantity > 0 {
      assert market.StateAt(price) == BookState(active, price);
    }
    hide BookState, IsBetterThan, AggregateMarket.StateAt, AggregateMarket.Crosses, Aggregates, Fits;
    assert IsDiscovery(book, market, grid, band, reference, policy);
    DiscoveryIsUnique(best, book, market, grid, band, reference, policy);
  }

  // ----- the best state in interest alone

  /** The state at the one price of the band, on the grid, that is to be preferred to every other where
      both sides of the book have interest, or none without such a price. */
  ghost predicate IsBestOfBook(best: Option<AuctionClearing>, active: Active, grid: AuctionPriceGrid, band: AuctionPriceBand,
                               reference: Price, policy: AuctionPricePolicy)
    requires grid.Valid()
  {
    match best
    case None =>
      forall q: Price :: band.minimum <= q <= band.maximum && q % grid.tick == 0 ==> Interest(active, Buy, q) == 0 || Interest(active, Sell, q) == 0
    case Some(c) =>
      && band.minimum <= c.price <= band.maximum && c.price % grid.tick == 0
      && Interest(active, Buy, c.price) > 0 && Interest(active, Sell, c.price) > 0
      && Records(c, Interest(active, Buy, c.price), Interest(active, Sell, c.price))
      && forall q: Price :: && band.minimum <= q <= band.maximum && q % grid.tick == 0 && q != c.price
                            && Interest(active, Buy, q) > 0 && Interest(active, Sell, q) > 0 ==>
           ClearsBetter(c.price, Interest(active, Buy, c.price), Interest(active, Sell, c.price),
                        q, Interest(active, Buy, q), Interest(active, Sell, q), reference, policy)
  }

  lemma BookStateRecords(c: AuctionClearing, active: Active, price: Price)
    requires Fits(active)
    ensures WellFormed(BookState(active, price)) && BookState(active, price).price == price
    ensures BookState(active, price).buyQuantity == Interest(active, Buy, price) && BookState(active, price).sellQuantity == Interest(active, Sell, price)
    ensures BookState(active, price).executableQuantity > 0 <==> Interest(active, Buy, price) > 0 && Interest(active, Sell, price) > 0
    ensures c.price == price ==> (c == BookState(active, price) <==> Records(c, Interest(active, Buy, price), Interest(active, Sell, price)))
  {
    hide Fits, Interest;
    if c.price == price { RecordsState(c, BookState(active, price)); }
  }

  lemma BookAnswerMeans(best: Option<AuctionClearing>, active: Active, grid: AuctionPriceGrid, band: AuctionPriceBand,
                        reference: Price, policy: AuctionPricePolicy)
    requires grid.Valid() && Fits(active)
    ensures IsBookDiscovery(best, active, grid, band, reference, policy) <==> IsBestOfBook(best, active, grid, band, reference, policy)
  {
    hide IsBetterThan, ClearsBetter, BookState, Interest, Fits, Records;
    forall price: Price {:trigger Interest(active, Buy, price)} {:trigger BookState(active, price)}
      ensures IsCandidate(price, grid, band) <==> band.minimum <= price <= band.maximum && price % grid.tick == 0
      ensures BookState(active, price).executableQuantity > 0 <==> Interest(active, Buy, price) > 0 && Interest(active, Sell, price) > 0
    {
      if best.Some? { BookStateRecords(best.value, active, price); } else { BookStateRecords(BookState(active, price), active, price); }
    }
    match best
    case None =>
    case Some(c) =>
      BookStateRecords(c, active, c.price);
      forall price: Price {:trigger Interest(active, Buy, price)} {:trigger BookState(active, price)} | c == BookState(active, c.price) && price != c.price
        ensures IsBetterThan(c, BookState(active, price), reference, policy) <==>
                  ClearsBetter(c.price, Interest(active, Buy, c.price), Interest(active, Sell, c.price),
                               price, Interest(active, Buy, price), Interest(active, Sell, price), reference, policy)
      {
        BookStateRecords(c, active, price);
        RankingMeans(c, BookState(active, price), reference, policy);
      }
  }

  lemma BookAnswerIsUnique(a: Option<AuctionClearing>, b: Option<AuctionClearing>, active: Active, grid: AuctionPriceGrid, band: AuctionPriceBand,
                           reference: Price, policy: AuctionPricePolicy)
    requires grid.Valid() && Fits(active)
    requires IsBookDiscovery(a, active, grid, band, reference, policy) && IsBookDiscovery(b, active, grid, band, reference, policy)
    ensures a == b
  {
    hide IsBetterThan, BookState, Fits;
    if a.Some? && b.Some? && a.value.price != b.value.price {
      RankingIsAsymmetric(a.value, b.value, reference, policy);
    }
  }

  /** The brute-force answer of a book is exactly the best state in interest alone. */
  lemma BookDiscoveryMeans(best: Option<AuctionClearing>, active: Active, grid: AuctionPriceGrid, band: AuctionPriceBand,
                           reference: Price, policy: AuctionPricePolicy)
    requires grid.Valid() && Fits(active)
    ensures best == BookDiscovery(active, grid, band, reference, policy) <==> IsBestOfBook(best, active, grid, band, reference, policy)
  {
    hide IsBookDiscovery, IsBestOfBook, Fits;
    var book := BookDiscovery(active, grid, band, reference, policy);
    BookAnswerMeans(book, active, grid, band, reference, policy);
    BookAnswerMeans(best, active, grid, band, reference, policy);
    if IsBestOfBook(best, active, grid, band, reference, policy) {
      BookAnswerIsUnique(best, book, active, grid, band, reference, policy);
    }
  }
}
