/** Sums over sequences of naturals. */
module Sums {
  ghost function Sum(s: seq<nat>): nat {
    if s == [] then 0 else s[0] + Sum(s[1..])
  }

  lemma {:induction false} SumAppend(a: seq<nat>, b: seq<nat>)
    ensures Sum(a + b) == Sum(a) + Sum(b)
  {
    if a == [] {
      assert a + b == b;
    } else {
      assert (a + b)[1..] == a[1..] + b;
      SumAppend(a[1..], b);
    }
  }

  lemma SumStep(s: seq<nat>, n: nat)
    requires n < |s|
    ensures Sum(s[..n + 1]) == Sum(s[..n]) + s[n]
  {
    assert s[..n + 1] == s[..n] + [s[n]];
    SumAppend(s[..n], [s[n]]);
  }

  lemma {:induction false} SumPrefix(s: seq<nat>, n: nat)
    requires n <= |s|
    ensures Sum(s[..n]) + Sum(s[n..]) == Sum(s)
  {
    assert s[..n] + s[n..] == s;
    SumAppend(s[..n], s[n..]);
  }

  ghost function Zeros(n: nat): (s: seq<nat>)
    ensures |s| == n && forall i :: 0 <= i < n ==> s[i] == 0
  {
    seq(n, _ => 0)
  }

  lemma {:induction false} SumZeros(s: seq<nat>)
    requires forall i :: 0 <= i < |s| ==> s[i] == 0
    ensures Sum(s) == 0
  {
    if s != [] {
      SumZeros(s[1..]);
    }
  }

  /** Scaling a vector scales its sum. */
  lemma {:induction false} SumScaled(s: seq<nat>, scaled: seq<nat>, factor: nat)
    requires |s| == |scaled| && forall i :: 0 <= i < |s| ==> scaled[i] == s[i] * factor
    ensures Sum(scaled) == Sum(s) * factor
  {
    if s != [] {
      SumScaled(s[1..], scaled[1..], factor);
    }
  }

  /** Giving one more to each of the first `extra` entries adds exactly `extra`. */
  lemma {:induction false} SumIncremented(s: seq<nat>, more: seq<nat>, extra: nat)
    requires |s| == |more| && extra <= |s|
    requires forall i :: 0 <= i < |s| ==> more[i] == s[i] + if i < extra then 1 else 0
    ensures Sum(more) == Sum(s) + extra
  {
    if s != [] {
      SumIncremented(s[1..], more[1..], if extra == 0 then 0 else extra - 1);
    }
  }
}
