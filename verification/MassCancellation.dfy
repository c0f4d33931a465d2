/** The outcome of a mass cancellation, as the plain book defines it. */
module MassCancellation {
  import opened AbstractBook
  import opened Ascending
  import opened BookInterest
  import opened Domain
  import opened SetSums

  lemma {:induction false} SelectionFits(m: BookModel, accountId: AccountId, scope: MassCancelScope)
    requires m.Valid()
    ensures |Selected(m, accountId, scope)| <= |m.active| <= U64_MAX && Total(Lots(m.active), Selected(m, accountId, scope)) <= U128_MAX
    ensures Selected(m, accountId, scope) == {} <==> |Selected(m, accountId, scope)| == 0
  {
    var ids := Selected(m, accountId, scope);
    MaximumHolds(m);
    hide BookModel.Valid;
    SubsetSize(ids, m.active.Keys);
    assert |m.active| == |m.active.Keys|;
    TotalBounds(Lots(m.active), ids, U64_MAX);
    ScaleBound(|ids|, U64_MAX);
  }

  /** What a mass cancellation will remove, or that its revision is exhausted. */
  ghost function MassCancelOutcome(m: BookModel, accountId: AccountId, scope: MassCancelScope): Result<CallAuctionMassCancelResult, CallAuctionMassCancelError>
    requires m.Valid()
  {
    var ids := Selected(m, accountId, scope);
    SelectionFits(m, accountId, scope);
    if ids == {} then Ok(CallAuctionMassCancelResult(0, 0, m.stateRevision))
    else if m.stateRevision == U64_MAX then Err(MassCancelRevisionExhausted)
    else Ok(CallAuctionMassCancelResult(|ids|, Total(Lots(m.active), ids), m.stateRevision + 1))
  }

  ghost function MassCancelIntoOutcome(m: BookModel, accountId: AccountId, scope: MassCancelScope, output: seq<CallAuctionOrderSnapshot>, capacity: nat)
    : Result<CallAuctionMassCancelResult, CallAuctionMassCancelError>
    requires m.Valid()
  {
    if output != [] then Err(OutputNotEmpty)
    else if MassCancelOutcome(m, accountId, scope).Ok? && capacity < |Selected(m, accountId, scope)|
    then Err(OutputCapacityExceeded(|Selected(m, accountId, scope)|, capacity))
    else MassCancelOutcome(m, accountId, scope)
  }

  lemma MassCancelOutcomeIs(m: BookModel, accountId: AccountId, scope: MassCancelScope)
    requires m.Valid()
    ensures var ids, r := Selected(m, accountId, scope), MassCancelOutcome(m, accountId, scope);
            && |ids| <= U64_MAX && Total(Lots(m.active), ids) <= U128_MAX && (ids == {} <==> |ids| == 0) && (|ids| == 0 ==> Total(Lots(m.active), ids) == 0)
            && r == if |ids| == 0 then Ok(CallAuctionMassCancelResult(0, 0, m.stateRevision))
                    else if m.stateRevision == U64_MAX then Err(MassCancelRevisionExhausted)
                    else Ok(CallAuctionMassCancelResult(|ids|, Total(Lots(m.active), ids), m.stateRevision + 1))
  {
    SelectionFits(m, accountId, scope);
  }

  lemma MassCancelIntoIs(m: BookModel, accountId: AccountId, scope: MassCancelScope, output: seq<CallAuctionOrderSnapshot>, capacity: nat)
    requires m.Valid()
    ensures MassCancelIntoOutcome(m, accountId, scope, output, capacity) ==
              if output != [] then Err(OutputNotEmpty)
              else if MassCancelOutcome(m, accountId, scope).Ok? && capacity < |Selected(m, accountId, scope)|
              then Err(OutputCapacityExceeded(|Selected(m, accountId, scope)|, capacity))
              else MassCancelOutcome(m, accountId, scope)
  {
  }

  lemma AscendingSelection(m: BookModel, accountId: AccountId, scope: MassCancelScope)
    requires m.Valid()
    ensures Selected(m, accountId, scope) <= m.active.Keys
    ensures AscendingOf(AscendingOrders(m.active, Selected(m, accountId, scope)), m.active, Selected(m, accountId, scope))
    ensures Selected(m, accountId, scope) == {} ==> AscendingOrders(m.active, Selected(m, accountId, scope)) == []
  {
    InterestFits(m);
    AscendingOrdersAre(m.active, Selected(m, accountId, scope));
  }

  // ----- the check after sorting

  ghost function ListedLots(s: seq<CallAuctionOrderSnapshot>): nat {
    if s == [] then 0 else ListedLots(s[..|s| - 1]) + s[|s| - 1].quantity
  }

  lemma {:induction false} ListedLotsGrow(s: seq<CallAuctionOrderSnapshot>, n: nat)
    requires n < |s|
    ensures ListedLots(s[..n + 1]) == ListedLots(s[..n]) + s[n].quantity <= ListedLots(s)
    decreases |s| - n
  {
    assert s[..n + 1][..n] == s[..n];
    if n + 1 < |s| {
      ListedLotsGrow(s, n + 1);
    } else {
      assert s[..n + 1] == s;
    }
  }

  /** `snapshot` is an active order of the account and scope, as it stands. */
  ghost predicate Picks(snapshot: CallAuctionOrderSnapshot, active: map<OrderId, CallAuctionOrderSnapshot>, accountId: AccountId, scope: MassCancelScope) {
    && snapshot.accountId == accountId && Includes(scope, snapshot.side)
    && snapshot.orderId in active && active[snapshot.orderId] == snapshot
  }

  ghost predicate AllPicked(s: seq<CallAuctionOrderSnapshot>, active: map<OrderId, CallAuctionOrderSnapshot>, accountId: AccountId, scope: MassCancelScope) {
    forall i {:trigger s[i]} :: 0 <= i < |s| ==> Picks(s[i], active, accountId, scope)
  }

  ghost predicate NoRepeats(s: seq<CallAuctionOrderSnapshot>) {
    forall i {:trigger s[i]} :: 0 < i < |s| ==> s[i - 1].orderId != s[i].orderId
  }

  ghost predicate SelectionAgrees(s: seq<CallAuctionOrderSnapshot>, active: map<OrderId, CallAuctionOrderSnapshot>, accountId: AccountId,
                                  scope: MassCancelScope, lots: nat) {
    NoRepeats(s) && AllPicked(s, active, accountId, scope) && ListedLots(s) == lots
  }

  lemma AgreesIs(s: seq<CallAuctionOrderSnapshot>, active: map<OrderId, CallAuctionOrderSnapshot>, accountId: AccountId, scope: MassCancelScope, lots: nat)
    ensures SelectionAgrees(s, active, accountId, scope, lots) <==> NoRepeats(s) && AllPicked(s, active, accountId, scope) && ListedLots(s) == lots
    ensures ListedLots(s[..0]) == 0 && AllPicked(s[..0], active, accountId, scope)
    ensures |s| <= 1 ==> NoRepeats(s)
    ensures |s| >= 1 ==> NoRepeats(s[..1])
  {
  }

  lemma RepeatsGrow(s: seq<CallAuctionOrderSnapshot>, n: nat)
    requires 0 < n < |s|
    ensures NoRepeats(s[..n + 1]) <==> NoRepeats(s[..n]) && s[n - 1].orderId != s[n].orderId
    ensures n + 1 == |s| ==> s[..n + 1] == s
    ensures NoRepeats(s) ==> NoRepeats(s[..n + 1])
  {
    if n + 1 < |s| { RepeatsCut(s, n + 1); }
    RepeatsCut(s[..n + 1], n);
    assert s[..n + 1][..n] == s[..n];
  }

  lemma RepeatsCut(s: seq<CallAuctionOrderSnapshot>, n: nat)
    requires 0 < n < |s|
    ensures NoRepeats(s) ==> NoRepeats(s[..n]) && s[n - 1].orderId != s[n].orderId
    ensures n + 1 == |s| ==> (NoRepeats(s) <==> NoRepeats(s[..n]) && s[n - 1].orderId != s[n].orderId)
  {
    if NoRepeats(s) {
      forall i | 0 < i < n ensures s[..n][i - 1].orderId != s[..n][i].orderId { assert s[..n][i] == s[i]; }
    }
    if n + 1 == |s| && NoRepeats(s[..n]) && s[n - 1].orderId != s[n].orderId {
      forall i | 0 < i < |s| ensures s[i - 1].orderId != s[i].orderId {
        if i < n { assert s[..n][i] == s[i]; }
      }
    }
  }

  lemma PicksGrow(s: seq<CallAuctionOrderSnapshot>, active: map<OrderId, CallAuctionOrderSnapshot>, accountId: AccountId, scope: MassCancelScope, n: nat)
    requires n < |s|
    ensures AllPicked(s[..n + 1], active, accountId, scope) <==>
              && AllPicked(s[..n], active, accountId, scope) && s[n].accountId == accountId && Includes(scope, s[n].side)
              && s[n].orderId in active && active[s[n].orderId] == s[n]
    ensures AllPicked(s, active, accountId, scope) ==> AllPicked(s[..n + 1], active, accountId, scope)
  {
    var a, b := s[..n], s[..n + 1];
    if AllPicked(b, active, accountId, scope) {
      forall i | 0 <= i < n ensures Picks(a[i], active, accountId, scope) { assert b[i] == a[i]; }
      assert b[n] == s[n];
    }
  }

  lemma {:induction false} ListedLotsAre(s: seq<CallAuctionOrderSnapshot>, active: map<OrderId, CallAuctionOrderSnapshot>, ids: set<OrderId>, n: nat)
    requires AscendingOf(s, active, ids) && n <= |s|
    ensures SnapshotIds(s[..n]) <= active.Keys == Lots(active).Keys
    ensures ListedLots(s[..n]) == Total(Lots(active), SnapshotIds(s[..n]))
  {
    if n == 0 {
      assert SnapshotIds(s[..0]) == {};
    } else {
      ListedLotsAre(s, active, ids, n - 1);
      NextSnapshot(s, active, ids, n - 1);
      assert s[..n][..n - 1] == s[..n - 1] && s[n - 1] == active[s[n - 1].orderId];
      hide AscendingOf, SnapshotIds;
      TotalAdd(Lots(active), SnapshotIds(s[..n - 1]), s[n - 1].orderId);
    }
  }

  /** The ascending list of the selection passes its check. */
  lemma AscendingAgrees(s: seq<CallAuctionOrderSnapshot>, m: BookModel, accountId: AccountId, scope: MassCancelScope)
    requires AscendingOf(s, m.active, Selected(m, accountId, scope))
    ensures Lots(m.active).Keys == m.active.Keys
    ensures SelectionAgrees(s, m.active, accountId, scope, Total(Lots(m.active), Selected(m, accountId, scope)))
  {
    var ids := Selected(m, accountId, scope);
    ListedLotsAre(s, m.active, ids, |s|);
    AllSnapshots(s, m.active, ids);
    assert s[..|s|] == s;
    forall i | 0 <= i < |s| ensures Picks(s[i], m.active, accountId, scope) {
      assert s[i].orderId in SnapshotIds(s);
    }
  }
}
