/** What the thread pool and the channels share: threads are places in a sequence, and the counters
    the code keeps about them are sums over it. */
module Threads {
  ghost function Sum<T>(s: seq<T>, weight: T -> nat): nat {
    if s == [] then 0 else weight(s[0]) + Sum(s[1..], weight)
  }

  lemma {:induction false} SumUpdate<T>(s: seq<T>, weight: T -> nat, i: nat, x: T)
    requires i < |s|
    ensures Sum(s[i := x], weight) == Sum(s, weight) - weight(s[i]) + weight(x)
  {
    if i == 0 {
      assert s[0 := x][1..] == s[1..];
    } else {
      assert s[i := x][1..] == s[1..][i - 1 := x];
      SumUpdate(s[1..], weight, i - 1, x);
    }
  }

  lemma {:induction false} SumBounds<T>(s: seq<T>, weight: T -> nat, i: nat)
    requires i < |s|
    ensures weight(s[i]) <= Sum(s, weight)
  {
    if i > 0 {
      SumBounds(s[1..], weight, i - 1);
    }
  }

  lemma {:induction false} SumZero<T>(s: seq<T>, weight: T -> nat)
    requires forall i :: 0 <= i < |s| ==> weight(s[i]) == 0
    ensures Sum(s, weight) == 0
  {
    if s != [] {
      forall i | 0 <= i < |s[1..]| ensures weight(s[1..][i]) == 0 { assert s[1..][i] == s[i + 1]; }
      SumZero(s[1..], weight);
    }
  }

  lemma {:induction false} SumAtMost<T>(s: seq<T>, weight: T -> nat, most: nat)
    requires forall x :: weight(x) <= most
    ensures Sum(s, weight) <= most * |s|
  {
    if s != [] {
      SumAtMost(s[1..], weight, most);
      assert most * |s| == most + most * |s[1..]|;
    }
  }
}
