/** Notions that several modules share. */
module Sequences {

  datatype Option<T> = None | Some(value: T)

  ghost predicate NoDuplicates<T(!new)>(s: seq<T>) {
    forall i, j | 0 <= i < j < |s| :: s[i] != s[j]
  }

  ghost function ToSet<T>(s: seq<T>): set<T> {
    set x | x in s
  }

  ghost function Sum(xs: seq<real>): real {
    if xs == [] then 0.0 else Sum(xs[..|xs| - 1]) + xs[|xs| - 1]
  }

  lemma SumSnoc(xs: seq<real>, x: real)
    ensures Sum(xs + [x]) == Sum(xs) + x
  {
    assert (xs + [x])[..|xs|] == xs;
  }

  // ----- Positions -----

  ghost predicate Rising(at: seq<nat>) {
    forall i, j | 0 <= i < j < |at| :: at[i] < at[j]
  }

  // ----- One sequence after the other -----

  ghost function Flatten<T>(parts: seq<seq<T>>): seq<T> {
    if parts == [] then [] else parts[0] + Flatten(parts[1..])
  }

  /** Where part `i` begins: behind all entries of the parts before it. */
  ghost function Offset<T>(parts: seq<seq<T>>, i: nat): nat
    requires i <= |parts|
  {
    if i == 0 then 0 else Offset(parts, i - 1) + |parts[i - 1]|
  }

  lemma {:induction false} OffsetOfFront<T>(parts: seq<seq<T>>, more: seq<T>, i: nat)
    requires i <= |parts|
    ensures Offset(parts + [more], i) == Offset(parts, i)
  {
    if i > 0 {
      OffsetOfFront(parts, more, i - 1);
    }
  }

  lemma {:induction false} FlattenSnoc<T>(parts: seq<seq<T>>, more: seq<T>)
    ensures Flatten(parts + [more]) == Flatten(parts) + more
  {
    if parts == [] {
      assert [more][1..] == [];
    } else {
      assert (parts + [more])[1..] == parts[1..] + [more];
      FlattenSnoc(parts[1..], more);
    }
  }

  lemma {:induction false} FlattenLength<T>(parts: seq<seq<T>>)
    ensures |Flatten(parts)| == Offset(parts, |parts|)
  {
    if parts != [] {
      var n := |parts| - 1;
      assert parts == parts[..n] + [parts[n]];
      FlattenLength(parts[..n]);
      FlattenSnoc(parts[..n], parts[n]);
      OffsetOfFront(parts[..n], parts[n], n);
    }
  }

  /** Each part stands at its offset, and nothing else is there. */
  lemma {:induction false} FlattenAt<T>(parts: seq<seq<T>>, i: nat, j: nat)
    requires i < |parts| && j < |parts[i]|
    ensures |Flatten(parts)| == Offset(parts, |parts|)
    ensures Offset(parts, i) + j < |Flatten(parts)| && Flatten(parts)[Offset(parts, i) + j] == parts[i][j]
  {
    hide Flatten;
    var n := |parts| - 1;
    var front, last := parts[..n], parts[n];
    assert parts == front + [last];
    FlattenLength(parts);
    FlattenLength(front);
    FlattenSnoc(front, last);
    OffsetOfFront(front, last, i);
    if i < n {
      FlattenAt(front, i, j);
    }
  }

  // ----- Parts of at most one entry -----

  /** `at` are the positions of the parts that are not empty, and `all` holds their entries. */
  ghost predicate Picks<T>(parts: seq<seq<T>>, at: seq<nat>, all: seq<T>) {
    && Rising(at) && |at| == |all|
    && (forall k | 0 <= k < |at| :: at[k] < |parts| && |parts[at[k]]| == 1 && all[k] == parts[at[k]][0])
    && forall i | 0 <= i < |parts| && |parts[i]| == 1 :: i in at
  }

  lemma {:induction false} FlattenPicks<T>(parts: seq<seq<T>>) returns (at: seq<nat>)
    requires forall i | 0 <= i < |parts| :: |parts[i]| <= 1
    ensures Picks(parts, at, Flatten(parts))
  {
    at := [];
    if parts != [] {
      var n := |parts| - 1;
      var front, last := parts[..n], parts[n];
      at := FlattenPicks(front);
      assert parts == front + [last];
      FlattenSnoc(front, last);
      PicksSnoc(front, at, Flatten(front), last);
      if |last| == 1 {
        at := at + [n];
      }
    }
  }

  lemma PicksSnoc<T>(parts: seq<seq<T>>, at: seq<nat>, all: seq<T>, last: seq<T>)
    requires Picks(parts, at, all) && |last| <= 1
    ensures Picks(parts + [last], if |last| == 1 then at + [|parts|] else at, all + last)
  {
    var n := |parts|;
    var parts', at', all' := parts + [last], if |last| == 1 then at + [n] else at, all + last;
    assert forall k | 0 <= k < |at| :: at'[k] == at[k] && parts'[at[k]] == parts[at[k]] && all'[k] == all[k];
    if |last| == 1 {
      assert at'[|at|] == n;
    }
    forall i | 0 <= i < |parts'| && |parts'[i]| == 1
      ensures i in at'
    {
      if i < n {
        assert parts[i] == parts'[i];
        assert i in at;
      }
    }
  }
}
