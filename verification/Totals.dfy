/** Sums of a weight over the elements of a sequence. */
module Totals {

  ghost function Total<T>(s: seq<T>, weight: T -> int): int {
    if s == [] then 0 else Total(s[..|s| - 1], weight) + weight(s[|s| - 1])
  }

  lemma TotalSnoc<T>(s: seq<T>, x: T, weight: T -> int)
    ensures Total(s + [x], weight) == Total(s, weight) + weight(x)
  {
    assert (s + [x])[..|s|] == s;
  }

  lemma {:induction false} TotalCons<T>(s: seq<T>, weight: T -> int)
    requires s != []
    ensures Total(s, weight) == weight(s[0]) + Total(s[1..], weight)
  {
    if |s| > 1 {
      var front := s[..|s| - 1];
      TotalCons(front, weight);
      assert s[1..][..|s| - 2] == front[1..];
    } else {
      assert s[..0] == s[1..];
    }
  }

  lemma {:induction false} TotalUpdate<T>(s: seq<T>, i: nat, x: T, weight: T -> int)
    requires i < |s|
    ensures Total(s[i := x], weight) == Total(s, weight) - weight(s[i]) + weight(x)
  {
    var n := |s| - 1;
    if i == n {
      assert s[i := x][..n] == s[..n];
    } else {
      TotalUpdate(s[..n], i, x, weight);
      assert s[i := x][..n] == s[..n][i := x];
    }
  }

  /** With weights from 0 to 1, the total says whether every element, or none, weighs something. */
  lemma {:induction false} TotalBounds<T>(s: seq<T>, weight: T -> int)
    requires forall i | 0 <= i < |s| :: 0 <= weight(s[i]) <= 1
    ensures 0 <= Total(s, weight) <= |s|
    ensures Total(s, weight) == 0 <==> forall i | 0 <= i < |s| :: weight(s[i]) == 0
    ensures Total(s, weight) == |s| <==> forall i | 0 <= i < |s| :: weight(s[i]) == 1
  {
    if s != [] {
      var front, last := s[..|s| - 1], s[|s| - 1];
      TotalBounds(front, weight);
      assert s == front + [last];
    }
  }

  lemma {:induction false} TotalZero<T>(s: seq<T>, weight: T -> int)
    requires forall i | 0 <= i < |s| :: weight(s[i]) == 0
    ensures Total(s, weight) == 0
  {
    if s != [] {
      TotalZero(s[..|s| - 1], weight);
    }
  }

  ghost function Ones<T>(s: seq<T>, weight: T -> int): set<int> {
    set i | 0 <= i < |s| && weight(s[i]) == 1
  }

  /** With weights 0 and 1, the total is the number of positions of weight 1. */
  lemma {:induction false} TotalIsCount<T>(s: seq<T>, weight: T -> int)
    requires forall i | 0 <= i < |s| :: weight(s[i]) == 0 || weight(s[i]) == 1
    ensures Total(s, weight) == |Ones(s, weight)|
  {
    hide Ones;
    if s == [] {
      NoOnes(s, weight);
    } else {
      TotalIsCount(s[..|s| - 1], weight);
      OneMore(s, weight);
    }
  }

  lemma NoOnes<T>(s: seq<T>, weight: T -> int)
    requires s == []
    ensures Ones(s, weight) == {}
  {
  }

  lemma OneMore<T>(s: seq<T>, weight: T -> int)
    requires s != []
    ensures var n := |s| - 1;
            |Ones(s, weight)| == |Ones(s[..n], weight)| + if weight(s[n]) == 1 then 1 else 0
  {
    var n := |s| - 1;
    hide Total;
    var front, before, all := s[..n], Ones(s[..n], weight), Ones(s, weight);
    assert forall i | 0 <= i < n :: front[i] == s[i];
    forall i
      ensures i in all <==> i in before || (i == n && weight(s[n]) == 1)
    {
      if 0 <= i < n {
        assert front[i] == s[i];
      }
    }
    assert n !in before;
    assert all == before + if weight(s[n]) == 1 then {n} else {};
  }
}
