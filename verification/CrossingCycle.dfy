/** Clients of the collection book: one whole crossing, and a lease taken and given back. */
module CrossingCycle {
  import opened AbstractBook
  import opened AuctionBook
  import opened BookInterest
  import opened Clearing
  import opened Discovery
  import opened Domain
  import opened Uncross
  import opened UncrossLaws

  lemma GridHolds(m: BookModel)
    requires m.definition.Valid()
    ensures Grid(m).Valid()
  {
  }

  lemma PreparedAt(m: BookModel, bookInstanceId: nat, leases: usize, indicative: CallAuctionIndicative, policy: CallAuctionUncrossPolicy,
                   t: PreparedCallAuctionUncross)
    requires PrepareAnswers(Ok(t), m, bookInstanceId, leases, indicative, policy)
    ensures t.plan.clearing == indicative.clearing && t.policy == policy && t.bookInstanceId == bookInstanceId && t.stateRevision == m.stateRevision
  {
    hide ClearsAt, TradeIdsFit, SelfPairOf, SideFills, PreparedTrades, SideRemainders, PairsOf;
  }

  lemma AnswersAgree(r: Result<PreparedCallAuctionUncross, CallAuctionPrepareError>, s: Result<PreparedCallAuctionUncross, CallAuctionPrepareError>,
                     m: BookModel, bookInstanceId: nat, leases: usize, indicative: CallAuctionIndicative, policy: CallAuctionUncrossPolicy)
    requires PrepareAnswers(r, m, bookInstanceId, leases, indicative, policy) && PrepareAnswers(s, m, bookInstanceId, leases, indicative, policy)
    ensures r == s
  {
    hide ClearsAt, PreparationOutcome;
  }

  lemma CommittedAt(r: Result<(), CallAuctionCommitError>, m: BookModel, bookInstanceId: nat, t: PreparedCallAuctionUncross, n: BookModel)
    requires CommitAnswers(r, m, bookInstanceId, t, n) && t.bookInstanceId == bookInstanceId && t.stateRevision == m.stateRevision
    ensures ClearsAt(m, t.plan.clearing) && m.stateRevision < U64_MAX && TradeIdsFit(m, t.plan.clearing, t.policy.allocation)
    ensures n == Uncrossed(m, t.plan.clearing, t.policy)
  {
    hide ClearsAt, TradeIdsFit, Uncrossed, PreparationOutcome;
  }

  lemma UncrossedIs(m: BookModel, c: AuctionClearing, policy: CallAuctionUncrossPolicy)
    requires ClearsAt(m, c) && m.stateRevision < U64_MAX && TradeIdsFit(m, c, policy.allocation)
    ensures var n := Uncrossed(m, c, policy); n.active == ActiveAfter(m, c, policy) && n.definition == m.definition
  {
    hide ClearsAt, TradeIdsFit, ActiveAfter, PairsOf;
  }

  /** Prepares and drops the preparation: the book, its tokens aside, is as it was. */
  method PrepareAndDrop(b: CallAuctionBook, indicative: CallAuctionIndicative, policy: CallAuctionUncrossPolicy)
    returns (r: Result<PreparedCallAuctionUncross, CallAuctionPrepareError>)
    requires b.Valid() && (indicative.bookInstanceId == b.instanceId ==> indicative in b.indicated)
    modifies b`buyOrderScratch, b`sellOrderScratch, b`availableLeases, b`issued, b`leased
    ensures b.Valid() && b.Model() == old(b.Model())
    ensures PrepareAnswers(r, b.Model(), b.instanceId, b.availableLeases, indicative, policy)
    ensures b.availableLeases == old(b.availableLeases) && b.leased == old(b.leased)
  {
    hide *;
    ghost var m := b.Model();
    ghost var leases := b.availableLeases;
    b.Unfold();
    r := b.PrepareUncross(indicative, policy);
    b.Unfold();
    assert PrepareAnswers(r, m, b.instanceId, leases, indicative, policy);
    if r.Ok? {
      b.Release(r.value);
      b.Unfold();
    }
  }

  /** Dropping a preparation gives its lease back: preparing the same indicative again answers the
      same, however few leases there were. */
  method PrepareDropPrepare(b: CallAuctionBook, indicative: CallAuctionIndicative, policy: CallAuctionUncrossPolicy)
    returns (first: Result<PreparedCallAuctionUncross, CallAuctionPrepareError>, second: Result<PreparedCallAuctionUncross, CallAuctionPrepareError>)
    requires b.Valid() && (indicative.bookInstanceId == b.instanceId ==> indicative in b.indicated)
    modifies b`buyOrderScratch, b`sellOrderScratch, b`availableLeases, b`issued, b`leased
    ensures b.Valid() && b.Model() == old(b.Model()) && second == first
    ensures b.availableLeases == old(b.availableLeases) && b.leased == old(b.leased)
  {
    hide *;
    first := PrepareAndDrop(b, indicative, policy);
    second := PrepareAndDrop(b, indicative, policy);
    AnswersAgree(first, second, b.Model(), b.instanceId, b.availableLeases, indicative, policy);
  }

  /** Discovers, prepares and commits over one band: uncrosses at the best state of the band exactly
      when there is one and it can be prepared, and changes nothing otherwise. */
  method Cross(b: CallAuctionBook, band: AuctionPriceBand, reference: Price, pricePolicy: AuctionPricePolicy, policy: CallAuctionUncrossPolicy)
    returns (crossed: Option<AuctionClearing>)
    requires b.Valid()
    modifies b
    ensures b.Valid()
    ensures Crossing(old(b.Model()), b.Model(), b.instanceId, old(b.availableLeases), crossed, band, reference, pricePolicy, policy)
  {
    hide *;
    b.Unfold();
    ghost var m := b.Model();
    ghost var leases := b.availableLeases;
    RulesHold(m);
    InterestFits(m);
    GridHolds(m);
    CrossingIs(m, m, b.instanceId, leases, None, band, reference, pricePolicy, policy);
    var first := b.IndicativeClearing(band, reference, pricePolicy);
    b.Unfold();
    if first.Err? || first.value.None? {
      return None;
    }
    var indicative := first.value.value;
    var prepared := b.PrepareUncross(indicative, policy);
    b.Unfold();
    PrepareAnswersIs(m, b.instanceId, leases, indicative, policy);
    if prepared.Err? {
      return None;
    }
    PreparedAt(m, b.instanceId, leases, indicative, policy, prepared.value);
    var committed := b.CommitUncross(prepared.value);
    CommittedAt(committed, m, b.instanceId, prepared.value, b.Model());
    CrossingIs(m, b.Model(), b.instanceId, leases, Some(indicative.clearing), band, reference, pricePolicy, policy);
    b.Unfold();
    b.Release(prepared.value);
    b.Unfold();
    return Some(indicative.clearing);
  }

  ghost predicate Crossing(m: BookModel, n: BookModel, bookInstanceId: nat, leases: usize, crossed: Option<AuctionClearing>, band: AuctionPriceBand,
                           reference: Price, pricePolicy: AuctionPricePolicy, policy: CallAuctionUncrossPolicy) {
    && m.definition.Valid() && Fits(m.active) && Grid(m).Valid()
    && var best := BookDiscovery(m.active, Grid(m), band, reference, pricePolicy);
       if !BandIsAligned(m, band, reference) || best.None? || m.stateRevision == U64_MAX || leases == 0 then crossed == None && n == m
       else Settles(m, n, bookInstanceId, crossed, best.value, policy)
  }

  ghost predicate Settles(m: BookModel, n: BookModel, bookInstanceId: nat, crossed: Option<AuctionClearing>, c: AuctionClearing,
                          policy: CallAuctionUncrossPolicy)
    requires m.stateRevision < U64_MAX
  {
    && ClearsAt(m, c)
    && if PreparationOutcome(m, bookInstanceId, c, policy).Err? then crossed == None && n == m
       else crossed == Some(c) && TradeIdsFit(m, c, policy.allocation) && n == Uncrossed(m, c, policy)
  }

  lemma CrossingIs(m: BookModel, n: BookModel, bookInstanceId: nat, leases: usize, crossed: Option<AuctionClearing>, band: AuctionPriceBand,
                   reference: Price, pricePolicy: AuctionPricePolicy, policy: CallAuctionUncrossPolicy)
    requires m.definition.Valid() && Fits(m.active) && Grid(m).Valid()
    ensures Crossing(m, n, bookInstanceId, leases, crossed, band, reference, pricePolicy, policy) <==>
              var best := BookDiscovery(m.active, Grid(m), band, reference, pricePolicy);
              if !BandIsAligned(m, band, reference) || best.None? || m.stateRevision == U64_MAX || leases == 0 then crossed == None && n == m
              else
                && ClearsAt(m, best.value)
                && if PreparationOutcome(m, bookInstanceId, best.value, policy).Err? then crossed == None && n == m
                   else crossed == best && TradeIdsFit(m, best.value, policy.allocation) && n == Uncrossed(m, best.value, policy)
  {
    hide InstrumentDefinition.Valid, Fits, BookDiscovery, ClearsAt, TradeIdsFit, Uncrossed, PreparationOutcome, BandIsAligned;
  }

  lemma CrossingFacts(m: BookModel, n: BookModel, bookInstanceId: nat, leases: usize, crossed: Option<AuctionClearing>, band: AuctionPriceBand,
                      reference: Price, pricePolicy: AuctionPricePolicy, policy: CallAuctionUncrossPolicy)
    requires Crossing(m, n, bookInstanceId, leases, crossed, band, reference, pricePolicy, policy)
    ensures m.definition.Valid() && Fits(m.active) && Grid(m).Valid() && n.definition == m.definition && Grid(n) == Grid(m)
    ensures forall later :: BandIsAligned(n, band, later) <==> BandIsAligned(m, band, later)
  {
    hide InstrumentDefinition.Valid, Fits, BookDiscovery, ClearsAt, TradeIdsFit, PreparationOutcome;
  }

  /** What is left after a crossing has no best state over the band. */
  lemma CrossingIsSpent(m: BookModel, n: BookModel, bookInstanceId: nat, leases: usize, crossed: Option<AuctionClearing>, band: AuctionPriceBand,
                        reference: Price, pricePolicy: AuctionPricePolicy, policy: CallAuctionUncrossPolicy, laterReference: Price,
                        laterPolicy: AuctionPricePolicy)
    requires Crossing(m, n, bookInstanceId, leases, crossed, band, reference, pricePolicy, policy) && crossed.Some?
    requires Fits(n.active) && Grid(n).Valid()
    ensures BookDiscovery(n.active, Grid(n), band, laterReference, laterPolicy) == None
  {
    hide *;
    CrossingFacts(m, n, bookInstanceId, leases, crossed, band, reference, pricePolicy, policy);
    CrossingIs(m, n, bookInstanceId, leases, crossed, band, reference, pricePolicy, policy);
    UncrossedIs(m, crossed.value, policy);
    RediscoveryFindsNothing(m, crossed.value, policy, band, reference, pricePolicy, laterReference, laterPolicy);
  }

  /** Crosses over one band and discovers over the band again. When the uncross commits, the second
      discovery finds nothing, whatever its reference and policy. */
  method CrossAndRediscover(b: CallAuctionBook, band: AuctionPriceBand, reference: Price, pricePolicy: AuctionPricePolicy,
                            policy: CallAuctionUncrossPolicy, laterReference: Price, laterPolicy: AuctionPricePolicy)
    returns (crossed: Option<AuctionClearing>, again: Result<Option<CallAuctionIndicative>, AuctionError>)
    requires b.Valid()
    modifies b
    ensures b.Valid() && Crossing(old(b.Model()), b.Model(), b.instanceId, old(b.availableLeases), crossed, band, reference, pricePolicy, policy)
    ensures Grid(old(b.Model())).Valid() && (crossed.Some? && BandIsAligned(old(b.Model()), band, laterReference) ==> again == Ok(None))
  {
    hide *;
    ghost var m := b.Model();
    ghost var leases := b.availableLeases;
    crossed := Cross(b, band, reference, pricePolicy, policy);
    ghost var n := b.Model();
    CrossingFacts(m, n, b.instanceId, leases, crossed, band, reference, pricePolicy, policy);
    b.Unfold();
    again := b.IndicativeClearing(band, laterReference, laterPolicy);
    b.Unfold();
    if crossed.Some? {
      CrossingIsSpent(m, n, b.instanceId, leases, crossed, band, reference, pricePolicy, policy, laterReference, laterPolicy);
    }
  }
}
