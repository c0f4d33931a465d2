/** The fixed-capacity hash index: dense entries behind open-addressed buckets, with linear probing
    and backward-shift deletion, proved to behave as a finite map. */
module BoundedHash {
  import opened Domain

  datatype Bucket = Empty | Occupied(hash: u64, entryIndex: nat)

  datatype DenseEntry<K, V> = DenseEntry(key: K, value: V, bucketIndex: nat)

  datatype Search = Found(bucketIndex: nat, entryIndex: nat) | Vacant(vacantIndex: nat)

  datatype BoundedHashError = CapacityLayout | Full(maximum: usize)

  type Buckets = seq<Bucket>

  // ----- layout

  ghost predicate IsPowerOfTwo(n: nat) {
    n == 1 || (n > 1 && n % 2 == 0 && IsPowerOfTwo(n / 2))
  }

  /** The least power of two from `p` on that is at least `n`. */
  function NextPowerOfTwo(n: nat, p: nat): (r: nat)
    requires 1 <= p && IsPowerOfTwo(p) && (p == 1 || p < 2 * n)
    ensures IsPowerOfTwo(r) && r >= n && r >= p && (r == 1 || r < 2 * n)
    decreases n - p
  {
    if p >= n then p else NextPowerOfTwo(n, 2 * p)
  }

  /** Buckets of a table: a power of two at least twice the semantic maximum. */
  function BucketCount(maximum: usize): (r: Result<usize, BoundedHashError>)
    ensures r.Ok? ==> IsPowerOfTwo(r.value) && r.value >= 1 && 2 * maximum <= r.value && (r.value == 1 || r.value < 4 * maximum)
  {
    if 2 * maximum > U64_MAX then Err(CapacityLayout)
    else
      var count := NextPowerOfTwo(Max(2 * maximum, 1), 1);
      if count > U64_MAX then Err(CapacityLayout) else Ok(count)
  }

  // ----- cyclic positions; masking by a power of two less one is the remainder

  function Home(hash: u64, count: nat): (b: nat)
    requires count >= 1
    ensures b < count
  {
    hash % count
  }

  function Next(b: nat, count: nat): (r: nat)
    requires b < count
    ensures r == if b + 1 == count then 0 else b + 1
  {
    (b + 1) % count
  }

  /** How many steps a probe from `home` takes to reach `index`. */
  function ProbeDistance(home: nat, index: nat, count: nat): (d: nat)
    requires home < count && index < count
    ensures d == if index >= home then index - home else index - home + count
  {
    if index < home then WrapsOnce(index - home, count); (index - home) % count else (index - home) % count
  }

  lemma WrapsOnce(x: int, count: nat)
    requires -(count as int) < x < 0
    ensures x % count == x + count
  {
    assert x == -1 * count + (x + count);
  }

  // ----- invariants

  /** Every position a probe passes before reaching bucket `b` is occupied, or is the hole. */
  ghost predicate Reachable(bs: Buckets, b: nat, hole: int)
    requires b < |bs| && bs[b].Occupied?
  {
    var home := Home(bs[b].hash, |bs|);
    forall p {:trigger bs[p]} :: 0 <= p < |bs| && ProbeDistance(home, p, |bs|) < ProbeDistance(home, b, |bs|) ==> bs[p].Occupied? || p == hole
  }

  ghost predicate Probing(bs: Buckets) {
    forall b {:trigger bs[b]} :: 0 <= b < |bs| && bs[b].Occupied? ==> Reachable(bs, b, -1)
  }

  /** Entries and occupied buckets name each other, except for the entry `gone`. */
  ghost predicate Linked<K(!new), V>(entries: seq<DenseEntry<K, V>>, bs: Buckets, hashOne: K -> u64, gone: int) {
    && (forall i {:trigger entries[i]} :: 0 <= i < |entries| && i != gone ==>
          entries[i].bucketIndex < |bs| && bs[entries[i].bucketIndex] == Occupied(hashOne(entries[i].key), i))
    && (forall b {:trigger bs[b]} :: 0 <= b < |bs| && bs[b].Occupied? ==>
          bs[b].entryIndex < |entries| && bs[b].entryIndex != gone && entries[bs[b].entryIndex].bucketIndex == b)
  }

  ghost predicate DistinctKeys<K(!new), V>(entries: seq<DenseEntry<K, V>>) {
    forall i, j :: 0 <= i < j < |entries| ==> entries[i].key != entries[j].key
  }

  ghost predicate Layout<K(!new), V>(entries: seq<DenseEntry<K, V>>, bs: Buckets, hashOne: K -> u64) {
    Linked(entries, bs, hashOne, -1) && DistinctKeys(entries) && Probing(bs) && |entries| < |bs|
  }

  /** The finite map the dense entries hold. */
  ghost function Contents<K(!new), V>(entries: seq<DenseEntry<K, V>>): map<K, V> {
    if entries == [] then map[] else Contents(entries[..|entries| - 1])[entries[|entries| - 1].key := entries[|entries| - 1].value]
  }

  lemma {:induction false} ContentsAt<K(!new), V>(entries: seq<DenseEntry<K, V>>, i: nat)
    requires DistinctKeys(entries) && i < |entries|
    ensures entries[i].key in Contents(entries) && Contents(entries)[entries[i].key] == entries[i].value
  {
    if i < |entries| - 1 { ContentsAt(entries[..|entries| - 1], i); }
  }

  lemma {:induction false} ContentsMeans<K(!new), V>(entries: seq<DenseEntry<K, V>>, key: K)
    ensures key in Contents(entries) <==> exists i :: 0 <= i < |entries| && entries[i].key == key
  {
    if entries != [] { ContentsMeans(entries[..|entries| - 1], key); }
  }

  // ----- an empty bucket always exists

  ghost function BucketsOf<K, V>(entries: seq<DenseEntry<K, V>>, n: nat): set<nat>
    requires n <= |entries|
  {
    if n == 0 then {} else BucketsOf(entries, n - 1) + {entries[n - 1].bucketIndex}
  }

  lemma {:induction false} BucketsOfIsSmall<K, V>(entries: seq<DenseEntry<K, V>>, n: nat)
    requires n <= |entries|
    ensures |BucketsOf(entries, n)| <= n
    ensures forall i {:trigger entries[i]} :: 0 <= i < n ==> entries[i].bucketIndex in BucketsOf(entries, n)
  {
    if n > 0 { BucketsOfIsSmall(entries, n - 1); }
  }

  ghost function Below(n: nat): set<nat> {
    if n == 0 then {} else Below(n - 1) + {n - 1}
  }

  lemma {:induction false} BelowSize(n: nat)
    ensures |Below(n)| == n && forall b {:trigger b in Below(n)} :: b in Below(n) <==> 0 <= b < n
  {
    if n > 0 { BelowSize(n - 1); }
  }

  lemma {:induction false} SubsetIsSmaller(a: set<nat>, b: set<nat>)
    requires a <= b
    ensures |a| <= |b|
    decreases a
  {
    if a != {} {
      var x :| x in a;
      SubsetIsSmaller(a - {x}, b - {x});
    }
  }

  /** Fewer entries than buckets leave some bucket empty, so every probe stops. */
  lemma SomeBucketIsEmpty<K(!new), V>(entries: seq<DenseEntry<K, V>>, bs: Buckets, hashOne: K -> u64) returns (v: nat)
    requires Linked(entries, bs, hashOne, -1) && |entries| < |bs|
    ensures v < |bs| && bs[v].Empty?
  {
    if forall b :: 0 <= b < |bs| ==> bs[b].Occupied? {
      BucketsOfIsSmall(entries, |entries|);
      BelowSize(|bs|);
      forall b | b in Below(|bs|) ensures b in BucketsOf(entries, |entries|) {
        assert bs[b].Occupied?;
      }
      SubsetIsSmaller(Below(|bs|), BucketsOf(entries, |entries|));
      assert false;
    }
    v :| v < |bs| && !bs[v].Occupied?;
  }

  // ----- what a step changes

  /** The first `d` buckets of a probe are occupied by other keys. */
  ghost predicate Passed<K(!new), V>(entries: seq<DenseEntry<K, V>>, bs: Buckets, key: K, home: nat, d: nat)
    requires home < |bs|
  {
    forall p {:trigger bs[p]} :: 0 <= p < |bs| && ProbeDistance(home, p, |bs|) < d ==>
      bs[p].Occupied? && bs[p].entryIndex < |entries| && entries[bs[p].entryIndex].key != key
  }

  lemma NothingPassed<K(!new), V>(entries: seq<DenseEntry<K, V>>, bs: Buckets, key: K, home: nat)
    requires home < |bs|
    ensures Passed(entries, bs, key, home, ProbeDistance(home, home, |bs|))
  {
  }

  lemma PassesOne<K(!new), V>(entries: seq<DenseEntry<K, V>>, bs: Buckets, key: K, home: nat, b: nat, vacancy: nat)
    requires home < |bs| && b < |bs| && vacancy < |bs| && bs[vacancy].Empty?
    requires Passed(entries, bs, key, home, ProbeDistance(home, b, |bs|)) && ProbeDistance(home, b, |bs|) <= ProbeDistance(home, vacancy, |bs|)
    requires bs[b].Occupied? && bs[b].entryIndex < |entries| && entries[bs[b].entryIndex].key != key
    ensures Passed(entries, bs, key, home, ProbeDistance(home, Next(b, |bs|), |bs|))
    ensures ProbeDistance(home, b, |bs|) < ProbeDistance(home, Next(b, |bs|), |bs|) <= ProbeDistance(home, vacancy, |bs|)
  {
  }

  lemma LayoutIsLinked<K(!new), V>(entries: seq<DenseEntry<K, V>>, bs: Buckets, hashOne: K -> u64)
    requires Layout(entries, bs, hashOne)
    ensures Linked(entries, bs, hashOne, -1) && DistinctKeys(entries) && Probing(bs) && |entries| < |bs|
  {
  }

  lemma LayoutOf<K(!new), V>(entries: seq<DenseEntry<K, V>>, bs: Buckets, hashOne: K -> u64)
    requires Linked(entries, bs, hashOne, -1) && DistinctKeys(entries) && Probing(bs) && |entries| < |bs|
    ensures Layout(entries, bs, hashOne)
  {
  }

  lemma EntryBucket<K(!new), V>(entries: seq<DenseEntry<K, V>>, bs: Buckets, hashOne: K -> u64, i: nat)
    requires Linked(entries, bs, hashOne, -1) && i < |entries|
    ensures entries[i].bucketIndex < |bs| && bs[entries[i].bucketIndex] == Occupied(hashOne(entries[i].key), i)
  {
  }

  lemma LinkAt<K(!new), V>(entries: seq<DenseEntry<K, V>>, bs: Buckets, hashOne: K -> u64, gone: int, b: nat)
    requires Linked(entries, bs, hashOne, gone) && b < |bs| && bs[b].Occupied?
    ensures bs[b].entryIndex < |entries| && bs[b].entryIndex != gone && entries[bs[b].entryIndex].bucketIndex == b
    ensures bs[b].hash == hashOne(entries[bs[b].entryIndex].key)
  {
    assert bs[entries[bs[b].entryIndex].bucketIndex] == bs[b];
    var entry := entries[bs[b].entryIndex];
  }

  /** A bucket with another hash, or with an entry of another key, holds another key. */
  lemma DifferentKey<K(!new), V>(entries: seq<DenseEntry<K, V>>, bs: Buckets, hashOne: K -> u64, key: K, b: nat)
    requires Linked(entries, bs, hashOne, -1) && b < |bs| && bs[b].Occupied? && bs[b].entryIndex < |entries|
    requires bs[b].hash != hashOne(key) || entries[bs[b].entryIndex].key != key
    ensures entries[bs[b].entryIndex].key != key
  {
    hide Linked;
    LinkAt(entries, bs, hashOne, -1, b);
  }

  /** A probe that stops at an empty bucket has shown that no entry has the key. */
  lemma ProbeFindsEntry<K(!new), V>(entries: seq<DenseEntry<K, V>>, bs: Buckets, hashOne: K -> u64, key: K, stop: nat)
    requires Layout(entries, bs, hashOne) && stop < |bs| && bs[stop].Empty?
    requires Passed(entries, bs, key, Home(hashOne(key), |bs|), ProbeDistance(Home(hashOne(key), |bs|), stop, |bs|))
    ensures forall i {:trigger entries[i]} :: 0 <= i < |entries| ==> entries[i].key != key
  {
    hide Home;
    forall i | 0 <= i < |entries| ensures entries[i].key != key {
      var b := entries[i].bucketIndex;
      assert bs[b] == Occupied(hashOne(entries[i].key), i) && Reachable(bs, b, -1);
    }
  }

  /** Filling the empty bucket a probe stopped at keeps every entry reachable. */
  lemma InsertKeepsLayout<K(!new), V>(entries: seq<DenseEntry<K, V>>, bs: Buckets, hashOne: K -> u64, key: K, value: V, b: nat)
    requires Layout(entries, bs, hashOne) && b < |bs| && bs[b].Empty? && |entries| + 1 < |bs|
    requires forall i {:trigger entries[i]} :: 0 <= i < |entries| ==> entries[i].key != key
    requires Passed(entries, bs, key, Home(hashOne(key), |bs|), ProbeDistance(Home(hashOne(key), |bs|), b, |bs|))
    ensures Layout(entries + [DenseEntry(key, value, b)], bs[b := Occupied(hashOne(key), |entries|)], hashOne)
    ensures Contents(entries + [DenseEntry(key, value, b)]) == Contents(entries)[key := value]
  {
    hide Probing, Passed, Home, ProbeDistance;
    var all := entries + [DenseEntry(key, value, b)];
    assert all[..|all| - 1] == entries;
    InsertKeepsProbing(entries, bs, hashOne(key), key, b);
  }

  lemma InsertKeepsProbing<K(!new), V>(entries: seq<DenseEntry<K, V>>, bs: Buckets, hash: u64, key: K, b: nat)
    requires Probing(bs) && b < |bs| && bs[b].Empty? && Passed(entries, bs, key, Home(hash, |bs|), ProbeDistance(Home(hash, |bs|), b, |bs|))
    ensures Probing(bs[b := Occupied(hash, |entries|)])
  {
    hide Home;
    var now := bs[b := Occupied(hash, |entries|)];
    forall c | 0 <= c < |now| && now[c].Occupied? ensures Reachable(now, c, -1) {
      if c != b { assert Reachable(bs, c, -1); }
    }
  }

  /** Replacing one value changes nothing else. */
  lemma {:induction false} ReplaceChangesContents<K(!new), V>(entries: seq<DenseEntry<K, V>>, i: nat, value: V)
    requires DistinctKeys(entries) && i < |entries|
    ensures DistinctKeys(entries[i := entries[i].(value := value)])
    ensures Contents(entries[i := entries[i].(value := value)]) == Contents(entries)[entries[i].key := value]
  {
    var n := |entries| - 1;
    var now := entries[i := entries[i].(value := value)];
    if i < n {
      ReplaceChangesContents(entries[..n], i, value);
      assert now[..n] == entries[..n][i := entries[i].(value := value)];
    } else {
      assert now[..n] == entries[..n];
    }
  }

  lemma ReplaceKeepsLayout<K(!new), V>(entries: seq<DenseEntry<K, V>>, bs: Buckets, hashOne: K -> u64, i: nat, value: V)
    requires Layout(entries, bs, hashOne) && i < |entries|
    ensures Layout(entries[i := entries[i].(value := value)], bs, hashOne)
  {
  }

  // ----- backward-shift deletion

  /** A deletion in progress: `hole` is empty, every probe passes only occupied buckets and perhaps
      the hole, and whatever still has to be pulled over the hole lies at `scan` or beyond. */
  ghost predicate Shifting(bs: Buckets, hole: nat, scan: nat) {
    && hole < |bs| && scan < |bs| && bs[hole].Empty?
    && (forall b {:trigger bs[b]} :: 0 <= b < |bs| && bs[b].Occupied? ==> Reachable(bs, b, hole))
    && (forall b {:trigger bs[b]} :: 0 <= b < |bs| && bs[b].Occupied?
          && ProbeDistance(Home(bs[b].hash, |bs|), hole, |bs|) < ProbeDistance(Home(bs[b].hash, |bs|), b, |bs|)
          ==> ProbeDistance(hole, b, |bs|) >= ProbeDistance(hole, scan, |bs|))
    && forall p {:trigger bs[p]} :: 0 <= p < |bs| && 0 < ProbeDistance(hole, p, |bs|) < ProbeDistance(hole, scan, |bs|) ==> bs[p].Occupied?
  }

  lemma ShiftStarts(bs: Buckets, hole: nat)
    requires Probing(bs) && hole < |bs| && |bs| > 1
    ensures Shifting(bs[hole := Empty], hole, Next(hole, |bs|))
  {
    var now := bs[hole := Empty];
    forall b | 0 <= b < |now| && now[b].Occupied? ensures Reachable(now, b, hole) {
      assert Reachable(bs, b, -1);
    }
  }

  /** At an empty bucket the deletion is complete: nothing needs the hole any more. */
  lemma ShiftStops(bs: Buckets, hole: nat, scan: nat)
    requires Shifting(bs, hole, scan) && bs[scan].Empty? && scan != hole
    ensures Probing(bs)
  {
    forall b | 0 <= b < |bs| && bs[b].Occupied? ensures Reachable(bs, b, -1) {
      assert Reachable(bs, b, hole);
      var home := Home(bs[b].hash, |bs|);
      assert ProbeDistance(home, hole, |bs|) >= ProbeDistance(home, b, |bs|) by {
        assert bs[scan].Empty?;
      }
    }
  }

  /** A bucket whose probe never passes the hole stays. */
  lemma ShiftSkips(bs: Buckets, hole: nat, scan: nat)
    requires Shifting(bs, hole, scan) && bs[scan].Occupied? && Next(scan, |bs|) != hole
    requires ProbeDistance(Home(bs[scan].hash, |bs|), scan, |bs|) <= ProbeDistance(Home(bs[scan].hash, |bs|), hole, |bs|)
    ensures Shifting(bs, hole, Next(scan, |bs|))
  {
  }

  /** A bucket whose probe passes the hole is pulled into it, and leaves the next hole. */
  lemma ShiftMoves(bs: Buckets, hole: nat, scan: nat)
    requires Shifting(bs, hole, scan) && bs[scan].Occupied? && |bs| > 1
    requires ProbeDistance(Home(bs[scan].hash, |bs|), scan, |bs|) > ProbeDistance(Home(bs[scan].hash, |bs|), hole, |bs|)
    ensures Shifting(bs[hole := bs[scan]][scan := Empty], scan, Next(scan, |bs|))
  {
    var now := bs[hole := bs[scan]][scan := Empty];
    forall b | 0 <= b < |now| && now[b].Occupied? ensures Reachable(now, b, scan) {
      if b == hole {
        assert Reachable(bs, scan, hole);
      } else {
        assert Reachable(bs, b, hole);
      }
    }
  }

  lemma MoveKeepsLinks<K(!new), V>(entries: seq<DenseEntry<K, V>>, bs: Buckets, hashOne: K -> u64, gone: nat, hole: nat, scan: nat)
    requires Linked(entries, bs, hashOne, gone) && hole < |bs| && scan < |bs| && bs[hole].Empty? && bs[scan].Occupied?
    ensures var e := bs[scan].entryIndex;
            && e < |entries| && e != gone
            && Linked(entries[e := entries[e].(bucketIndex := hole)], bs[hole := bs[scan]][scan := Empty], hashOne, gone)
  {
  }

  lemma UnlinkOne<K(!new), V>(entries: seq<DenseEntry<K, V>>, bs: Buckets, hashOne: K -> u64, b: nat)
    requires Linked(entries, bs, hashOne, -1) && b < |bs| && bs[b].Occupied?
    ensures Linked(entries, bs[b := Empty], hashOne, bs[b].entryIndex)
  {
  }

  /** The scan moves one step closer to the empty bucket and never returns to the hole. */
  lemma ScanAdvances(hole: nat, scan: nat, next: nat, vacancy: nat, count: nat)
    requires hole < count && scan < count && vacancy < count && next == Next(scan, count) && scan != vacancy && scan != hole && vacancy != hole
    requires ProbeDistance(hole, scan, count) + ProbeDistance(scan, vacancy, count) == ProbeDistance(hole, vacancy, count)
    ensures next != hole && next != scan && ProbeDistance(next, vacancy, count) < ProbeDistance(scan, vacancy, count)
    ensures ProbeDistance(hole, next, count) + ProbeDistance(next, vacancy, count) == ProbeDistance(hole, vacancy, count)
    ensures ProbeDistance(scan, next, count) + ProbeDistance(next, vacancy, count) == ProbeDistance(scan, vacancy, count)
  {
  }

  lemma HoleIsEmpty(bs: Buckets, hole: nat, scan: nat)
    requires Shifting(bs, hole, scan)
    ensures hole < |bs| && bs[hole].Empty?
  {
  }

  lemma SameAsIs<K(!new), V>(entries: seq<DenseEntry<K, V>>)
    ensures SameData(entries, entries)
  {
  }

  lemma MoveKeepsData<K(!new), V>(entries: seq<DenseEntry<K, V>>, before: seq<DenseEntry<K, V>>, e: nat, hole: nat)
    requires SameData(entries, before) && e < |entries|
    ensures SameData(entries[e := entries[e].(bucketIndex := hole)], before)
  {
  }

  /** Two entry lists that differ at most in bucket positions. */
  ghost predicate SameData<K(!new), V>(a: seq<DenseEntry<K, V>>, b: seq<DenseEntry<K, V>>) {
    |a| == |b| && forall i {:trigger a[i]} {:trigger b[i]} :: 0 <= i < |a| ==> a[i].key == b[i].key && a[i].value == b[i].value
  }

  lemma SameDataAt<K(!new), V>(a: seq<DenseEntry<K, V>>, b: seq<DenseEntry<K, V>>, i: nat)
    requires SameData(a, b) && i < |b|
    ensures |a| == |b| && a[i].key == b[i].key && a[i].value == b[i].value
    ensures DistinctKeys(b) ==> DistinctKeys(a)
  {
  }

  lemma {:induction false} SameContents<K(!new), V>(a: seq<DenseEntry<K, V>>, b: seq<DenseEntry<K, V>>)
    requires SameData(a, b)
    ensures Contents(a) == Contents(b)
  {
    if a != [] { SameContents(a[..|a| - 1], b[..|b| - 1]); }
  }

  /** The dense list after the last entry takes the place of entry `r`. */
  function SwapRemoved<T>(s: seq<T>, r: nat): seq<T>
    requires r < |s|
  {
    s[r := s[|s| - 1]][..|s| - 1]
  }

  lemma SwapRemovedAt<T>(s: seq<T>, r: nat, i: nat)
    requires r < |s| && i < |s| - 1
    ensures |SwapRemoved(s, r)| == |s| - 1 && SwapRemoved(s, r)[i] == if i == r then s[|s| - 1] else s[i]
  {
  }

  lemma SwapRemoveIsDistinct<K(!new), V>(entries: seq<DenseEntry<K, V>>, r: nat)
    requires DistinctKeys(entries) && r < |entries|
    ensures DistinctKeys(SwapRemoved(entries, r))
  {
    var left := SwapRemoved(entries, r);
    forall i, j | 0 <= i < j < |left| ensures left[i].key != left[j].key {
      SwapRemovedAt(entries, r, i);
      SwapRemovedAt(entries, r, j);
    }
  }

  /** What becomes of one key. */
  lemma SwapRemoveAt<K(!new), V>(entries: seq<DenseEntry<K, V>>, r: nat, key: K)
    requires DistinctKeys(entries) && r < |entries|
    ensures key in Contents(SwapRemoved(entries, r)) <==> key in Contents(entries) && key != entries[r].key
    ensures key in Contents(SwapRemoved(entries, r)) ==> Contents(SwapRemoved(entries, r))[key] == Contents(entries)[key]
  {
    hide Contents, SwapRemoved;
    var left, n := SwapRemoved(entries, r), |entries| - 1;
    SwapRemoveIsDistinct(entries, r);
    ContentsMeans(left, key);
    ContentsMeans(entries, key);
    if key in Contents(left) {
      var i :| 0 <= i < |left| && left[i].key == key;
      SwapRemovedLength(entries, r);
      SwapRemovedAt(entries, r, i);
      ContentsAt(left, i);
      ContentsAt(entries, if i == r then n else i);
    } else if key in Contents(entries) {
      var i :| 0 <= i <= n && entries[i].key == key;
      SwapRemovedLength(entries, r);
      if i < n { SwapRemovedAt(entries, r, i); } else if r < n { SwapRemovedAt(entries, r, r); }
    }
  }

  lemma SwapRemovedLength<T>(s: seq<T>, r: nat)
    requires r < |s|
    ensures |SwapRemoved(s, r)| == |s| - 1
  {
  }

  lemma SwapRemoveDropsKey<K(!new), V>(entries: seq<DenseEntry<K, V>>, r: nat)
    requires DistinctKeys(entries) && r < |entries|
    ensures DistinctKeys(SwapRemoved(entries, r))
    ensures Contents(SwapRemoved(entries, r)) == Contents(entries) - {entries[r].key}
  {
    hide Contents, SwapRemoved, DistinctKeys;
    SwapRemoveIsDistinct(entries, r);
    forall key
      ensures key in Contents(SwapRemoved(entries, r)) <==> key in Contents(entries) && key != entries[r].key
      ensures key in Contents(SwapRemoved(entries, r)) ==> Contents(SwapRemoved(entries, r))[key] == Contents(entries)[key]
    {
      SwapRemoveAt(entries, r, key);
    }
  }

  /** Moving the last entry re-aims its one bucket. */
  lemma SwapRemoveLinks<K(!new), V>(entries: seq<DenseEntry<K, V>>, bs: Buckets, hashOne: K -> u64, r: nat)
    requires Linked(entries, bs, hashOne, r) && Probing(bs) && r < |entries|
    ensures var left := SwapRemoved(entries, r);
            && (r < |left| ==> left[r].bucketIndex < |bs| && bs[left[r].bucketIndex] == Occupied(hashOne(left[r].key), |left|))
            && var now := if r < |left| then bs[left[r].bucketIndex := Occupied(hashOne(left[r].key), r)] else bs;
               Linked(left, now, hashOne, -1) && Probing(now)
  {
    var left, n := SwapRemoved(entries, r), |entries| - 1;
    assert forall i :: 0 <= i < n ==> left[i] == if i == r then entries[n] else entries[i];
    if r < n {
      var b := entries[n].bucketIndex;
      assert bs[b] == Occupied(hashOne(entries[n].key), n);
      var now := bs[b := Occupied(hashOne(entries[n].key), r)];
      forall c | 0 <= c < |now| && now[c].Occupied? ensures Reachable(now, c, -1) { assert Reachable(bs, c, -1); }
    }
  }

  class BoundedHashMap<K(==, !new), V> {
    const maximum: usize
    const bucketCount: usize
    const hashOne: K -> u64
    const buckets: array<Bucket>
    var entries: seq<DenseEntry<K, V>>

    ghost predicate Valid()
      reads this, buckets
    {
      && BucketCount(maximum) == Ok(bucketCount) && buckets.Length == bucketCount
      && |entries| <= maximum && Layout(entries, buckets[..], hashOne)
    }

    /** The finite map this index refines. */
    ghost function Model(): map<K, V>
      reads this
    {
      Contents(entries)
    }

    constructor (maximum: usize, bucketCount: usize, hashOne: K -> u64)
      requires BucketCount(maximum) == Ok(bucketCount)
      ensures Valid() && Model() == map[] && this.maximum == maximum && this.hashOne == hashOne && fresh(buckets)
    {
      this.maximum, this.bucketCount, this.hashOne := maximum, bucketCount, hashOne;
      buckets := new Bucket[bucketCount](_ => Empty);
      entries := [];
    }

    /** Probes from the home bucket until the key or an empty bucket turns up; an empty bucket
        always exists, so the probe ends before it would come round. */
    method Search(key: K) returns (r: Search)
      requires Valid()
      ensures match r
              case Found(b, i) => i < |entries| && entries[i].key == key && entries[i].bucketIndex == b < buckets.Length
              case Vacant(b) =>
                && b < buckets.Length && buckets[b].Empty?
                && (forall i {:trigger entries[i]} :: 0 <= i < |entries| ==> entries[i].key != key)
                && Passed(entries, buckets[..], key, Home(hashOne(key), buckets.Length), ProbeDistance(Home(hashOne(key), buckets.Length), b, buckets.Length))
    {
      hide Layout, Linked, Probing, DistinctKeys, Passed, Home;
      var n, hash := buckets.Length, hashOne(key);
      ghost var bs := buckets[..];
      var home := Home(hash, n);
      var bucketIndex: nat := home;
      LayoutIsLinked(entries, bs, hashOne);
      ghost var vacancy := SomeBucketIsEmpty(entries, bs, hashOne);
      NothingPassed(entries, bs, key, home);
      while true
        invariant bucketIndex < n && ProbeDistance(home, bucketIndex, n) <= ProbeDistance(home, vacancy, n)
        invariant Passed(entries, bs, key, home, ProbeDistance(home, bucketIndex, n))
        decreases ProbeDistance(home, vacancy, n) - ProbeDistance(home, bucketIndex, n)
      {
        assert bs[bucketIndex] == buckets[bucketIndex];
        match buckets[bucketIndex] {
          case Empty =>
            ProbeFindsEntry(entries, bs, hashOne, key, bucketIndex);
            return Vacant(bucketIndex);
          case Occupied(candidateHash, entryIndex) =>
            LinkAt(entries, bs, hashOne, -1, bucketIndex);
            if candidateHash == hash && entries[entryIndex].key == key {
              return Found(bucketIndex, entryIndex);
            }
            DifferentKey(entries, bs, hashOne, key, bucketIndex);
            PassesOne(entries, bs, key, home, bucketIndex, vacancy);
            bucketIndex := Next(bucketIndex, n);
        }
      }
    }

    method Get(key: K) returns (r: Option<V>)
      requires Valid()
      ensures r == if key in Model() then Some(Model()[key]) else None
    {
      var found := Search(key);
      ContentsMeans(entries, key);
      match found {
        case Found(_, entryIndex) =>
          ContentsAt(entries, entryIndex);
          r := Some(entries[entryIndex].value);
        case Vacant(_) =>
          r := None;
      }
    }

    /** Inserts or replaces; only a new key can find the index full, and it joins after all others. */
    method TryInsert(key: K, value: V) returns (r: Result<Option<V>, BoundedHashError>)
      requires Valid()
      modifies this`entries, buckets
      ensures Valid()
      ensures r == if key in old(Model()) then Ok(Some(old(Model())[key])) else if |old(entries)| >= maximum then Err(Full(maximum)) else Ok(None)
      ensures Model() == if r.Ok? then old(Model())[key := value] else old(Model())
      ensures r.Err? ==> entries == old(entries)
      ensures r == Ok(None) ==> |entries| == |old(entries)| + 1 && entries[..|old(entries)|] == old(entries)
                                && entries[|old(entries)|].key == key && entries[|old(entries)|].value == value
    {
      var found := Search(key);
      ContentsMeans(entries, key);
      match found {
        case Found(_, entryIndex) =>
          ContentsAt(entries, entryIndex);
          ReplaceChangesContents(entries, entryIndex, value);
          ReplaceKeepsLayout(entries, buckets[..], hashOne, entryIndex, value);
          r := Ok(Some(entries[entryIndex].value));
          entries := entries[entryIndex := entries[entryIndex].(value := value)];
        case Vacant(bucketIndex) =>
          if |entries| >= maximum {
            return Err(Full(maximum));
          }
          InsertKeepsLayout(entries, buckets[..], hashOne, key, value, bucketIndex);
          ghost var now := buckets[..][bucketIndex := Occupied(hashOne(key), |entries|)];
          buckets[bucketIndex] := Occupied(hashOne(key), |entries|);
          assert buckets[..] == now;
          entries := entries + [DenseEntry(key, value, bucketIndex)];
          r := Ok(None);
      }
    }

    /** Empties one bucket and pulls later entries of its cluster back over the hole. */
    method EraseBucket(hole0: nat, ghost gone: nat)
      requires buckets.Length > 1 && hole0 < buckets.Length && gone < |entries|
      requires Linked(entries, buckets[..], hashOne, -1) && Probing(buckets[..]) && |entries| < buckets.Length
      requires buckets[hole0].Occupied? && buckets[hole0].entryIndex == gone
      modifies this`entries, buckets
      ensures Linked(entries, buckets[..], hashOne, gone) && Probing(buckets[..]) && SameData(entries, old(entries))
    {
      hide Shifting, Linked, Probing, SameData, Home, ProbeDistance, Next;
      ghost var vacancy := SomeBucketIsEmpty(entries, buckets[..], hashOne);
      var n := buckets.Length;
      var hole: nat := hole0;
      ghost var start := buckets[..];
      ShiftStarts(start, hole);
      UnlinkOne(entries, start, hashOne, hole);
      buckets[hole] := Empty;
      assert buckets[..] == start[hole := Empty];
      var scan: nat := Next(hole, n);
      SameAsIs(entries);
      while buckets[scan].Occupied?
        invariant hole < n && scan < n && scan != hole && Shifting(buckets[..], hole, scan)
        invariant vacancy < n && buckets[vacancy].Empty? && vacancy != hole
        invariant ProbeDistance(hole, scan, n) + ProbeDistance(scan, vacancy, n) == ProbeDistance(hole, vacancy, n)
        invariant Linked(entries, buckets[..], hashOne, gone) && SameData(entries, old(entries))
        decreases ProbeDistance(scan, vacancy, n)
      {
        ghost var now := buckets[..];
        assert now[scan] == buckets[scan] && now[vacancy] == buckets[vacancy] && now[hole] == buckets[hole];
        var Occupied(hash, entryIndex) := buckets[scan];
        HoleIsEmpty(now, hole, scan);
        var next: nat := Next(scan, n);
        ScanAdvances(hole, scan, next, vacancy, n);
        var ideal := Home(hash, n);
        if ProbeDistance(ideal, scan, n) > ProbeDistance(ideal, hole, n) {
          ShiftMoves(now, hole, scan);
          MoveKeepsLinks(entries, now, hashOne, gone, hole, scan);
          MoveKeepsData(entries, old(entries), entryIndex, hole);
          buckets[hole] := buckets[scan];
          buckets[scan] := Empty;
          assert buckets[..] == now[hole := now[scan]][scan := Empty];
          entries := entries[entryIndex := entries[entryIndex].(bucketIndex := hole)];
          hole := scan;
        } else {
          ShiftSkips(now, hole, scan);
        }
        scan := next;
      }
      ShiftStops(buckets[..], hole, scan);
    }

    /** Removes one key; the last dense entry takes its place. */
    method Remove(key: K) returns (r: Option<V>)
      requires Valid()
      modifies this`entries, buckets
      ensures Valid()
      ensures r == if key in old(Model()) then Some(old(Model())[key]) else None
      ensures Model() == old(Model()) - {key}
    {
      hide Layout, Linked, Probing, DistinctKeys, Passed, Contents, SameData, SwapRemoved, BucketCount;
      var found := Search(key);
      ContentsMeans(entries, key);
      LayoutIsLinked(entries, buckets[..], hashOne);
      match found {
        case Vacant(_) =>
          assert Model() - {key} == Model();
          r := None;
        case Found(bucketIndex, entryIndex) =>
          ContentsAt(entries, entryIndex);
          EntryBucket(entries, buckets[..], hashOne, entryIndex);
          EraseBucket(bucketIndex, entryIndex);
          SameContents(entries, old(entries));
          SameDataAt(entries, old(entries), entryIndex);
          SwapRemoveDropsKey(entries, entryIndex);
          SwapRemoveLinks(entries, buckets[..], hashOne, entryIndex);
          SwapRemovedLength(entries, entryIndex);
          r := Some(entries[entryIndex].value);
          entries := SwapRemoved(entries, entryIndex);
          if entryIndex < |entries| {
            ghost var now := buckets[..];
            var moved := entries[entryIndex].bucketIndex;
            buckets[moved] := Occupied(buckets[moved].hash, entryIndex);
            assert buckets[..] == now[moved := Occupied(now[moved].hash, entryIndex)];
          }
          LayoutOf(entries, buckets[..], hashOne);
      }
    }

    /** Empties every occupied bucket and forgets every entry. */
    method Clear()
      requires Valid()
      modifies this`entries, buckets
      ensures Valid() && Model() == map[]
    {
      ghost var before := buckets[..];
      for k := 0 to |entries|
        invariant entries == old(entries) && Linked(entries, before, hashOne, -1) && buckets.Length == |before|
        invariant forall b {:trigger buckets[b]} :: 0 <= b < buckets.Length ==>
                    buckets[b] == if before[b].Occupied? && before[b].entryIndex < k then Empty else before[b]
      {
        assert before[entries[k].bucketIndex] == Occupied(hashOne(entries[k].key), k);
        buckets[entries[k].bucketIndex] := Empty;
      }
      assert forall b {:trigger buckets[b]} :: 0 <= b < buckets.Length ==> buckets[b].Empty? by {
        forall b | 0 <= b < buckets.Length ensures buckets[b].Empty? { assert before[b].Occupied? ==> before[b].entryIndex < |entries|; }
      }
      entries := [];
    }
  }
}
