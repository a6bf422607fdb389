/** The order in which the bindings load libraries
    (bindings/python/ns__init__.py, `sort_to_dependencies`).

    Libraries are taken in batches: a batch holds every pending library whose dependencies
    have all been taken before.  There is no check for cycles or for missing dependencies:
    on such input the recursion makes no progress until the interpreter's recursion limit
    stops it.  That limit is the parameter `limit` below.
 */
module DependencyOrder {
  import opened Sequences

  datatype Library = Library(name: string)

  /** The dependencies of each library, and the libraries in the order of the dictionary. */
  datatype Table = Table(keys: seq<Library>, deps: map<Library, seq<Library>>) {
    ghost predicate Valid() {
      NoDuplicates(keys) && forall m :: m in keys <==> m in deps
    }
  }

  // ----- What the dependencies mean -----

  /** A dependency chain starts at a library; each link depends on the next. */
  ghost predicate Chain(t: Table, c: seq<Library>) {
    c != [] && forall i | 0 <= i < |c| - 1 :: Link(t, c, i)
  }

  ghost predicate Link(t: Table, c: seq<Library>, i: nat)
    requires i + 1 < |c|
  {
    c[i] in t.deps && c[i + 1] in t.deps[c[i]]
  }

  ghost predicate Cycle(t: Table, c: seq<Library>) {
    |c| > 1 && Chain(t, c) && c[0] == c[|c| - 1]
  }

  ghost predicate DepsKnown(t: Table, m: Library) {
    m in t.deps && forall d | d in t.deps[m] :: d in t.deps
  }

  ghost predicate ClosedUnderDeps(t: Table) {
    forall m | m in t.deps :: DepsKnown(t, m)
  }

  ghost predicate Acyclic(t: Table) {
    forall c: seq<Library> :: !Cycle(t, c)
  }

  /** The longest dependency chain that starts at `m` has `n` links. */
  ghost predicate Depth(t: Table, m: Library, n: nat) {
    && (exists c: seq<Library> :: Chain(t, c) && c[0] == m && |c| == n + 1)
    && (forall c: seq<Library> :: Chain(t, c) && c[0] == m ==> |c| <= n + 1)
  }

  // ----- Batches -----

  predicate Loadable(t: Table, m: Library, current: seq<Library>) {
    m in t.deps && AllIn(t.deps[m], current)
  }

  predicate AllIn(deps: seq<Library>, current: seq<Library>) {
    deps == [] || (AllIn(deps[..|deps| - 1], current) && deps[|deps| - 1] in current)
  }

  lemma {:induction false} AllInMeans(deps: seq<Library>, current: seq<Library>)
    ensures AllIn(deps, current) <==> forall d | d in deps :: d in current
  {
    if deps != [] {
      var front, last := deps[..|deps| - 1], deps[|deps| - 1];
      AllInMeans(front, current);
      assert deps == front + [last];
    }
  }

  /** The pending libraries that can be loaded, in order. */
  ghost function Batch(t: Table, pending: seq<Library>, current: seq<Library>): (batch: seq<Library>)
    ensures forall m {:trigger m in batch} :: m in batch <==> m in pending && Loadable(t, m, current)
  {
    if pending == [] then [] else
      var front, last := pending[..|pending| - 1], pending[|pending| - 1];
      assert pending == front + [last];
      Batch(t, front, current) + if Loadable(t, last, current) then [last] else []
  }

  /** A batch keeps the pending order: the pending libraries whose dependencies were all taken,
      each once and by position. */
  lemma BatchInOrder(t: Table, pending: seq<Library>, current: seq<Library>) returns (at: seq<nat>)
    ensures var batch := Batch(t, pending, current);
            && Rising(at) && |at| == |batch|
            && (forall k | 0 <= k < |at| :: at[k] < |pending| && batch[k] == pending[at[k]] && IsReady(t, batch[k], current))
            && forall i | 0 <= i < |pending| && IsReady(t, pending[i], current) :: i in at
  {
    var parts := seq(|pending|, i requires 0 <= i < |pending| => BatchPart(t, pending[i], current));
    BatchFlatten(t, pending, current, parts);
    at := FlattenPicks(parts);
    hide Batch;
    forall i | 0 <= i < |pending|
      ensures |parts[i]| == 1 <==> IsReady(t, pending[i], current)
    {
      if pending[i] in t.deps {
        AllInMeans(t.deps[pending[i]], current);
      }
    }
  }

  /** Every dependency is among the current libraries. */
  ghost predicate IsReady(t: Table, m: Library, current: seq<Library>) {
    m in t.deps && forall d | d in t.deps[m] :: d in current
  }

  ghost function BatchPart(t: Table, m: Library, current: seq<Library>): seq<Library> {
    if Loadable(t, m, current) then [m] else []
  }

  lemma {:induction false} BatchFlatten(t: Table, pending: seq<Library>, current: seq<Library>, parts: seq<seq<Library>>)
    requires |parts| == |pending| && forall i | 0 <= i < |pending| :: parts[i] == BatchPart(t, pending[i], current)
    ensures Batch(t, pending, current) == Flatten(parts)
  {
    hide Loadable, Flatten;
    if pending == [] {
      FlattenLength(parts);
    } else {
      var n := |pending| - 1;
      BatchFlatten(t, pending[..n], current, parts[..n]);
      FlattenSnoc(parts[..n], parts[n]);
      assert parts == parts[..n] + [parts[n]];
    }
  }

  /** The libraries of `s` that are not gone, in order. */
  ghost function Without(s: seq<Library>, gone: set<Library>): (rest: seq<Library>)
    ensures forall m {:trigger m in rest} :: m in rest <==> m in s && m !in gone
  {
    if s == [] then [] else
      var front, last := s[..|s| - 1], s[|s| - 1];
      assert s == front + [last];
      Without(front, gone) + if last in gone then [] else [last]
  }

  ghost function Rest(t: Table, pending: seq<Library>, current: seq<Library>): seq<Library> {
    Without(pending, ToSet(Batch(t, pending, current)))
  }

  /** All batches from here on, or None if the recursion limit strikes first. */
  ghost function Batches(t: Table, pending: seq<Library>, current: seq<Library>, limit: nat): Option<seq<seq<Library>>>
    decreases limit
  {
    if limit == 0 then None
    else if pending == [] then Some([])
    else
      var batch := Batch(t, pending, current);
      match Batches(t, Rest(t, pending, current), current + batch, limit - 1)
      case None => None
      case Some(rest) => Some([batch] + rest)
  }

  /** `batches` is the whole sequence of batches that empties `pending`. */
  ghost predicate IsRun(t: Table, pending: seq<Library>, current: seq<Library>, batches: seq<seq<Library>>)
    decreases |batches|
  {
    if batches == [] || pending == [] then batches == [] && pending == []
    else
      && batches[0] == Batch(t, pending, current)
      && IsRun(t, Without(pending, ToSet(batches[0])), current + batches[0], batches[1..])
  }

  /** The recursion ends with these batches exactly when they empty `pending` within the limit. */
  lemma BatchesAreRun(t: Table, pending: seq<Library>, current: seq<Library>, limit: nat, batches: seq<seq<Library>>)
    ensures Batches(t, pending, current, limit) == Some(batches) <==>
            |batches| < limit && IsRun(t, pending, current, batches)
  {
    if Batches(t, pending, current, limit) == Some(batches) {
      BatchesGiveRun(t, pending, current, limit);
    }
    if |batches| < limit && IsRun(t, pending, current, batches) {
      RunGivesBatches(t, pending, current, limit, batches);
    }
  }

  lemma {:induction false} BatchesGiveRun(t: Table, pending: seq<Library>, current: seq<Library>, limit: nat)
    requires Batches(t, pending, current, limit).Some?
    ensures |Batches(t, pending, current, limit).value| < limit
    ensures IsRun(t, pending, current, Batches(t, pending, current, limit).value)
    decreases limit
  {
    if pending != [] {
      var batch := Batch(t, pending, current);
      BatchesGiveRun(t, Rest(t, pending, current), current + batch, limit - 1);
      var rest := Batches(t, Rest(t, pending, current), current + batch, limit - 1).value;
      assert ([batch] + rest)[1..] == rest;
    }
  }

  lemma {:induction false} RunGivesBatches(t: Table, pending: seq<Library>, current: seq<Library>, limit: nat,
                                           batches: seq<seq<Library>>)
    requires |batches| < limit && IsRun(t, pending, current, batches)
    ensures Batches(t, pending, current, limit) == Some(batches)
    decreases limit
  {
    if pending != [] {
      RunGivesBatches(t, Rest(t, pending, current), current + batches[0], limit - 1, batches[1..]);
      assert batches == [batches[0]] + batches[1..];
    }
  }

  lemma {:induction false} BatchUnique(t: Table, pending: seq<Library>, current: seq<Library>)
    requires NoDuplicates(pending)
    ensures NoDuplicates(Batch(t, pending, current))
  {
    if pending != [] {
      var front, last := pending[..|pending| - 1], pending[|pending| - 1];
      BatchUnique(t, front, current);
      assert last !in front && last !in Batch(t, front, current);
    }
  }

  lemma {:induction false} WithoutUnique(s: seq<Library>, gone: set<Library>)
    requires NoDuplicates(s)
    ensures NoDuplicates(Without(s, gone))
  {
    if s != [] {
      var front, last := s[..|s| - 1], s[|s| - 1];
      WithoutUnique(front, gone);
      assert last !in front && last !in Without(front, gone);
    }
  }

  /** What stays pending keeps its order. */
  lemma {:induction false} WithoutConcat(a: seq<Library>, b: seq<Library>, gone: set<Library>)
    ensures Without(a + b, gone) == Without(a, gone) + Without(b, gone)
  {
    if b == [] {
      assert a + b == a;
    } else {
      assert (a + b)[..|a + b| - 1] == a + b[..|b| - 1];
      WithoutConcat(a, b[..|b| - 1], gone);
    }
  }

  // ----- A batch is empty only because of a missing dependency or a cycle -----

  /** The libraries are split into those taken and those pending. */
  ghost predicate Split(t: Table, pending: seq<Library>, current: seq<Library>) {
    && NoDuplicates(pending)
    && forall m :: m in t.deps <==> m in pending || m in current
  }

  /** When nothing can be loaded, a pending library lacks a dependency or there is a cycle of pending ones. */
  lemma Stuck(t: Table, pending: seq<Library>, current: seq<Library>)
    returns (m: Library, d: Library, c: seq<Library>)
    requires Split(t, pending, current)
    requires pending != [] && Batch(t, pending, current) == []
    ensures || (m in pending && m in t.deps && d in t.deps[m] && d !in t.deps)
            || (Cycle(t, c) && forall i | 0 <= i < |c| :: c[i] in pending)
  {
    m, d, c := pending[0], pending[0], [];
    if x, y :| x in pending && x in t.deps && y in t.deps[x] && y !in t.deps {
      m, d := x, y;
    } else {
      forall x | x in pending
        ensures Waits(t, pending, x)
      {
        assert x !in Batch(t, pending, current);
        assert !Loadable(t, x, current);
        AllInMeans(t.deps[x], current);
        var y :| y in t.deps[x] && y !in current;
        assert y in t.deps;
      }
      c := CycleAmong(t, pending);
    }
  }

  lemma CycleAmong(t: Table, pending: seq<Library>) returns (c: seq<Library>)
    requires pending != []
    requires forall x {:trigger Waits(t, pending, x)} :: x in pending ==> Waits(t, pending, x)
    ensures Cycle(t, c) && forall i | 0 <= i < |c| :: c[i] in pending
  {
    var long := LongChain(t, pending, pending[0], |pending|);
    var i, j := Repeated(long, pending);
    c := long[i..j + 1];
    forall k | 0 <= k < |c| - 1
      ensures Link(t, c, k)
    {
      assert Link(t, long, i + k);
    }
  }

  ghost predicate Waits(t: Table, pending: seq<Library>, m: Library) {
    m in t.deps && exists d :: d in t.deps[m] && d in pending
  }

  /** If every pending library waits for another one, chains of pending libraries get as long as one likes. */
  lemma {:induction false} LongChain(t: Table, pending: seq<Library>, m: Library, n: nat)
    returns (c: seq<Library>)
    requires m in pending
    requires forall x {:trigger Waits(t, pending, x)} :: x in pending ==> Waits(t, pending, x)
    ensures Chain(t, c) && c[0] == m && |c| == n + 1
    ensures forall i | 0 <= i < |c| :: c[i] in pending
    decreases n
  {
    if n == 0 {
      c := [m];
    } else {
      assert Waits(t, pending, m);
      var d :| d in t.deps[m] && d in pending;
      c := LongChain(t, pending, d, n - 1);
      ChainCons(t, m, c);
      c := [m] + c;
    }
  }

  lemma ChainCons(t: Table, m: Library, c: seq<Library>)
    requires Chain(t, c) && m in t.deps && c[0] in t.deps[m]
    ensures Chain(t, [m] + c)
  {
    var c' := [m] + c;
    forall i | 0 <= i < |c'| - 1
      ensures Link(t, c', i)
    {
      if i > 0 {
        assert Link(t, c, i - 1);
      }
    }
  }

  /** More entries than there are libraries: one of them comes twice. */
  lemma {:induction false} Repeated(c: seq<Library>, pool: seq<Library>) returns (i: nat, j: nat)
    requires |c| > |pool| && forall k | 0 <= k < |c| :: c[k] in pool
    ensures i < j < |c| && c[i] == c[j]
  {
    var front, last := c[..|c| - 1], c[|c| - 1];
    if k :| 0 <= k < |front| && front[k] == last {
      return k, |c| - 1;
    }
    WithoutShorter(pool, {last}, last);
    i, j := Repeated(front, Without(pool, {last}));
  }

  lemma {:induction false} WithoutNoLonger(s: seq<Library>, gone: set<Library>)
    ensures |Without(s, gone)| <= |s|
  {
    if s != [] {
      WithoutNoLonger(s[..|s| - 1], gone);
    }
  }

  lemma {:induction false} WithoutShorter(s: seq<Library>, gone: set<Library>, m: Library)
    requires m in s && m in gone
    ensures |Without(s, gone)| < |s|
  {
    WithoutNoLonger(s[..|s| - 1], gone);
    var front, last := s[..|s| - 1], s[|s| - 1];
    assert s == front + [last];
    if last != m {
      WithoutShorter(front, gone, m);
    }
  }

  // ----- A run that ends -----

  /** A run is a rearrangement of the pending libraries. */
  lemma {:induction false} RunIsPermutation(t: Table, pending: seq<Library>, current: seq<Library>, batches: seq<seq<Library>>)
    requires IsRun(t, pending, current, batches) && NoDuplicates(pending)
    ensures multiset(Flatten(batches)) == multiset(pending)
    decreases |batches|
  {
    if batches != [] {
      var rest := Without(pending, ToSet(batches[0]));
      BatchUnique(t, pending, current);
      WithoutUnique(pending, ToSet(batches[0]));
      RunIsPermutation(t, rest, current + batches[0], batches[1..]);
      WithoutParts(pending, batches[0]);
    }
  }

  ghost predicate Within(s: seq<Library>, t: Table) {
    forall m | m in s :: m in t.deps
  }

  /** A run finds every dependency among the libraries. */
  lemma {:induction false} RunFindsDeps(t: Table, pending: seq<Library>, current: seq<Library>,
                                        batches: seq<seq<Library>>, m: Library)
    requires IsRun(t, pending, current, batches)
    requires Within(pending, t) && Within(current, t) && m in pending
    ensures DepsKnown(t, m)
    decreases |batches|
  {
    if m in batches[0] {
      AllInMeans(t.deps[m], current);
    } else {
      RunFindsDeps(t, Without(pending, ToSet(batches[0])), current + batches[0], batches[1..], m);
    }
  }

  lemma {:induction false} WithoutParts(s: seq<Library>, gone: seq<Library>)
    requires NoDuplicates(s) && NoDuplicates(gone) && forall m | m in gone :: m in s
    ensures multiset(gone) + multiset(Without(s, ToSet(gone))) == multiset(s)
  {
    if gone == [] {
      assert ToSet(gone) == {};
      WithoutNone(s);
    } else {
      var front, last := gone[..|gone| - 1], gone[|gone| - 1];
      assert gone == front + [last];
      assert last !in front;
      WithoutParts(s, front);
      assert ToSet(gone) == ToSet(front) + {last};
      WithoutOneMore(s, ToSet(front), last);
      RemoveFirstTakesOne(Without(s, ToSet(front)), last);
    }
  }

  lemma {:induction false} WithoutNone(s: seq<Library>)
    ensures Without(s, {}) == s
  {
    if s != [] {
      WithoutNone(s[..|s| - 1]);
      assert s == s[..|s| - 1] + [s[|s| - 1]];
    }
  }

  /** Removing one library with `list.remove`. */
  lemma {:induction false} WithoutOneMore(s: seq<Library>, gone: set<Library>, m: Library)
    requires NoDuplicates(s) && m in s && m !in gone
    ensures Without(s, gone + {m}) == RemoveFirst(Without(s, gone), m)
  {
    var front, last := s[..|s| - 1], s[|s| - 1];
    assert s == front + [last];
    var kept := Without(front, gone);
    if last == m {
      assert m !in front;
      WithoutSame(front, gone, m);
      RemoveLast(kept, m);
    } else {
      WithoutOneMore(front, gone, m);
      assert m in kept;
      if last in gone {
        assert Without(s, gone) == kept;
      } else {
        RemoveBeforeLast(kept, m, last);
        assert Without(s, gone) == kept + [last];
        assert Without(s, gone + {m}) == RemoveFirst(kept, m) + [last];
      }
    }
  }

  lemma {:induction false} RemoveFirstTakesOne(s: seq<Library>, m: Library)
    requires m in s
    ensures multiset(s) == multiset{m} + multiset(RemoveFirst(s, m))
  {
    assert s == [s[0]] + s[1..];
    if s[0] != m {
      RemoveFirstTakesOne(s[1..], m);
    }
  }

  lemma {:induction false} WithoutSame(s: seq<Library>, gone: set<Library>, m: Library)
    requires m !in s
    ensures Without(s, gone + {m}) == Without(s, gone)
  {
    if s != [] {
      WithoutSame(s[..|s| - 1], gone, m);
    }
  }

  /** What `list.remove` leaves: everything but the first occurrence. */
  function RemoveFirst(s: seq<Library>, m: Library): seq<Library> {
    if s == [] then [] else if s[0] == m then s[1..] else [s[0]] + RemoveFirst(s[1..], m)
  }

  lemma {:induction false} RemoveLast(s: seq<Library>, m: Library)
    requires m !in s
    ensures RemoveFirst(s + [m], m) == s
  {
    if s != [] {
      RemoveLast(s[1..], m);
      assert (s + [m])[1..] == s[1..] + [m];
    }
  }

  lemma {:induction false} RemoveBeforeLast(s: seq<Library>, m: Library, last: Library)
    requires m in s
    ensures RemoveFirst(s + [last], m) == RemoveFirst(s, m) + [last]
  {
    assert (s + [last])[1..] == s[1..] + [last];
    if s[0] != m {
      RemoveBeforeLast(s[1..], m, last);
    }
  }

  // ----- Each library comes after its dependencies -----

  lemma {:induction false} AllInMore(deps: seq<Library>, current: seq<Library>, more: seq<Library>)
    requires AllIn(deps, current)
    ensures AllIn(deps, current + more)
  {
    AllInMeans(deps, current);
    AllInMeans(deps, current + more);
  }

  lemma {:induction false} RunIsOrdered(t: Table, pending: seq<Library>, current: seq<Library>,
                                        batches: seq<seq<Library>>, p: nat)
    requires IsRun(t, pending, current, batches) && p < |Flatten(batches)|
    ensures var all := Flatten(batches); all[p] in t.deps && AllIn(t.deps[all[p]], current + all[..p])
    decreases |batches|
  {
    var first, all, rest := batches[0], Flatten(batches), Flatten(batches[1..]);
    if p < |first| {
      assert first[p] in first;
      AllInMore(t.deps[first[p]], current, all[..p]);
    } else {
      RunIsOrdered(t, Without(pending, ToSet(first)), current + first, batches[1..], p - |first|);
      assert (current + first) + rest[..p - |first|] == current + all[..p];
    }
  }

  // ----- The step of a library is the length of its longest chain -----

  ghost predicate HasChain(t: Table, m: Library, n: nat) {
    exists c: seq<Library> :: Chain(t, c) && c[0] == m && |c| == n
  }

  ghost predicate ChainsUpTo(t: Table, m: Library, n: nat) {
    forall c: seq<Library> :: Chain(t, c) && c[0] == m ==> |c| <= n
  }

  lemma TailIsChain(t: Table, c: seq<Library>)
    requires Chain(t, c) && |c| > 1
    ensures Chain(t, c[1..]) && c[0] in t.deps && c[1] in t.deps[c[0]]
  {
    assert Link(t, c, 0);
    forall i | 0 <= i < |c[1..]| - 1
      ensures Link(t, c[1..], i)
    {
      assert Link(t, c, i + 1);
    }
  }

  lemma LoadableIsShallow(t: Table, m: Library, current: seq<Library>, k: nat)
    requires Loadable(t, m, current) && forall d | d in current :: ChainsUpTo(t, d, k)
    ensures ChainsUpTo(t, m, k + 1)
  {
    AllInMeans(t.deps[m], current);
    forall c: seq<Library> | Chain(t, c) && c[0] == m
      ensures |c| <= k + 1
    {
      if |c| > 1 {
        TailIsChain(t, c);
        assert ChainsUpTo(t, c[1], k);
      }
    }
  }

  lemma WaitingIsDeep(t: Table, m: Library, pending: seq<Library>, current: seq<Library>, k: nat)
    requires !Loadable(t, m, current) && m in t.deps && DepsKnown(t, m)
    requires Covered(t, pending, current)
    requires forall d | d in pending :: HasChain(t, d, k)
    ensures HasChain(t, m, k + 1)
  {
    AllInMeans(t.deps[m], current);
    var d :| d in t.deps[m] && d !in current;
    assert d in pending;
    var c :| Chain(t, c) && c[0] == d && |c| == k;
    ChainCons(t, m, c);
    assert ([m] + c)[0] == m;
  }

  ghost predicate Covered(t: Table, pending: seq<Library>, current: seq<Library>) {
    forall m | m in t.deps :: m in pending || m in current
  }

  lemma {:induction false} RunStepIsDepth(t: Table, pending: seq<Library>, current: seq<Library>,
                                          batches: seq<seq<Library>>, k: nat, i: nat, m: Library)
    requires IsRun(t, pending, current, batches)
    requires ClosedUnderDeps(t) && Within(pending, t) && Covered(t, pending, current)
    requires forall d | d in current :: ChainsUpTo(t, d, k)
    requires forall d | d in pending :: HasChain(t, d, k + 1)
    requires i < |batches| && m in batches[i]
    ensures HasChain(t, m, k + i + 1) && ChainsUpTo(t, m, k + i + 1)
    decreases |batches|
  {
    var batch, rest := batches[0], Without(pending, ToSet(batches[0]));
    forall d | d in batch
      ensures ChainsUpTo(t, d, k + 1)
    {
      LoadableIsShallow(t, d, current, k);
    }
    if i != 0 {
      forall d | d in rest
        ensures HasChain(t, d, k + 2)
      {
        assert d !in batch;
        WaitingIsDeep(t, d, pending, current, k + 1);
      }
      forall d | d in current
        ensures ChainsUpTo(t, d, k + 1)
      {
        assert ChainsUpTo(t, d, k);
      }
      RunStepIsDepth(t, rest, current + batch, batches[1..], k + 1, i - 1, m);
    }
  }

  /** A cycle makes chains of any length. */
  lemma {:induction false} Pump(t: Table, c: seq<Library>, n: nat) returns (long: seq<Library>)
    requires Cycle(t, c)
    ensures Chain(t, long) && long[0] == c[0] && |long| > n
  {
    if n == 0 {
      long := c;
    } else {
      var more := Pump(t, c, n - 1);
      long := c[..|c| - 1] + more;
      forall i | 0 <= i < |long| - 1
        ensures Link(t, long, i)
      {
        if i < |c| - 1 {
          assert Link(t, c, i);
        } else {
          assert Link(t, more, i - (|c| - 1));
        }
      }
    }
  }

  // ----- The main results -----

  /** With every dependency known and no cycle, the recursion empties the pending list. */
  lemma {:induction false} RunExists(t: Table, pending: seq<Library>, current: seq<Library>)
    returns (batches: seq<seq<Library>>)
    requires ClosedUnderDeps(t) && Acyclic(t) && Split(t, pending, current)
    ensures IsRun(t, pending, current, batches) && |batches| <= |pending|
    decreases |pending|
  {
    if pending == [] {
      return [];
    }
    var batch := Batch(t, pending, current);
    if batch == [] {
      var m, d, c := Stuck(t, pending, current);
      assert false;
    }
    assert batch[0] in batch;
    WithoutShorter(pending, ToSet(batch), batch[0]);
    WithoutUnique(pending, ToSet(batch));
    var rest := RunExists(t, Without(pending, ToSet(batch)), current + batch);
    batches := [batch] + rest;
    assert batches[1..] == rest;
  }

  /** A run that empties the pending list shows that every dependency is known and that there is no cycle. */
  lemma RunNeedsOrder(t: Table, batches: seq<seq<Library>>)
    requires t.Valid() && IsRun(t, t.keys, [], batches)
    ensures ClosedUnderDeps(t) && Acyclic(t)
    ensures forall i, m | 0 <= i < |batches| && m in batches[i] :: Depth(t, m, i)
  {
    forall m | m in t.deps
      ensures DepsKnown(t, m)
    {
      RunFindsDeps(t, t.keys, [], batches, m);
    }
    forall m | m in t.keys
      ensures HasChain(t, m, 1)
    {
      assert Chain(t, [m]) && [m][0] == m;
    }
    forall i, m | 0 <= i < |batches| && m in batches[i]
      ensures Depth(t, m, i)
    {
      RunStepIsDepth(t, t.keys, [], batches, 0, i, m);
    }
    forall c: seq<Library>
      ensures !Cycle(t, c)
    {
      if Cycle(t, c) {
        TailIsChain(t, c);
        var i := TakenInSomeBatch(t, t.keys, [], batches, c[0]);
        assert Depth(t, c[0], i);
        var long := Pump(t, c, i + 1);
      }
    }
  }

  lemma {:induction false} TakenInSomeBatch(t: Table, pending: seq<Library>, current: seq<Library>,
                                            batches: seq<seq<Library>>, m: Library) returns (i: nat)
    requires IsRun(t, pending, current, batches) && m in pending
    ensures i < |batches| && m in batches[i]
    decreases |batches|
  {
    if m in batches[0] {
      return 0;
    }
    i := TakenInSomeBatch(t, Without(pending, ToSet(batches[0])), current + batches[0], batches[1..], m);
    i := i + 1;
  }

  /** Termination: the sort ends, given a large enough recursion limit, exactly when every
      dependency is one of the libraries and there is no dependency cycle.  Otherwise it hits
      every limit. */
  lemma SortEndsIff(t: Table)
    requires t.Valid()
    ensures (exists limit: nat :: Batches(t, t.keys, [], limit).Some?) <==> ClosedUnderDeps(t) && Acyclic(t)
    ensures ClosedUnderDeps(t) && Acyclic(t) ==> Batches(t, t.keys, [], |t.keys| + 1).Some?
  {
    if limit: nat :| Batches(t, t.keys, [], limit).Some? {
      BatchesGiveRun(t, t.keys, [], limit);
      RunNeedsOrder(t, Batches(t, t.keys, [], limit).value);
    }
    if ClosedUnderDeps(t) && Acyclic(t) {
      var batches := RunExists(t, t.keys, []);
      RunGivesBatches(t, t.keys, [], |t.keys| + 1, batches);
    }
  }

  /** Two libraries that depend on each other: no recursion limit is large enough. */
  lemma TwoThatWait(a: Library, b: Library, limit: nat)
    requires a != b
    ensures var t := Table([a, b], map[a := [b], b := [a]]);
            t.Valid() && ClosedUnderDeps(t) && Batches(t, t.keys, [], limit).None?
  {
    var t := Table([a, b], map[a := [b], b := [a]]);
    var c := [a, b, a];
    assert Link(t, c, 0) && Link(t, c, 1);
    assert Cycle(t, c);
    SortEndsIff(t);
  }

  /** A library whose dependency is not among the libraries: likewise. */
  lemma OneThatLacks(a: Library, missing: Library, limit: nat)
    requires a != missing
    ensures var t := Table([a], map[a := [missing]]);
            t.Valid() && Acyclic(t) && Batches(t, t.keys, [], limit).None?
  {
    var t := Table([a], map[a := [missing]]);
    assert missing in [missing];
    assert missing in t.deps[a] && missing !in t.deps;
    assert !DepsKnown(t, a);
    SortEndsIff(t);
    forall c: seq<Library>
      ensures !Cycle(t, c)
    {
      if |c| > 1 && Link(t, c, 0) {
        assert c[0] == a && c[1] == missing;
        assert |c| > 2 ==> !Link(t, c, 1);
      }
    }
  }

  /** The result: a permutation of the libraries, each after all its dependencies, and each in
      the step that is the number of links of its longest dependency chain. */
  lemma SortIsLayered(t: Table, limit: nat)
    requires t.Valid() && Batches(t, t.keys, [], limit).Some?
    ensures var batches := Batches(t, t.keys, [], limit).value;
            var all := Flatten(batches);
            && multiset(all) == multiset(t.keys)
            && (forall p | 0 <= p < |all| :: all[p] in t.deps && forall d | d in t.deps[all[p]] :: d in all[..p])
            && (forall i, m | 0 <= i < |batches| && m in batches[i] :: Depth(t, m, i))
  {
    BatchesGiveRun(t, t.keys, [], limit);
    var batches := Batches(t, t.keys, [], limit).value;
    var all := Flatten(batches);
    RunIsPermutation(t, t.keys, [], batches);
    RunNeedsOrder(t, batches);
    forall p | 0 <= p < |all|
      ensures all[p] in t.deps && forall d | d in t.deps[all[p]] :: d in all[..p]
    {
      RunIsOrdered(t, t.keys, [], batches, p);
      assert [] + all[..p] == all[..p];
      AllInMeans(t.deps[all[p]], all[..p]);
    }
  }

  /** No assignment of steps that puts dependencies strictly earlier loads a library sooner. */
  lemma StepsAreMinimal(t: Table, limit: nat, step: map<Library, nat>, i: nat, m: Library)
    requires t.Valid() && Batches(t, t.keys, [], limit).Some?
    requires i < |Batches(t, t.keys, [], limit).value| && m in Batches(t, t.keys, [], limit).value[i]
    requires forall x | x in t.deps :: x in step
    requires forall x, d | x in t.deps && d in t.deps[x] && d in step :: step[d] < step[x]
    ensures m in step && i <= step[m]
  {
    SortIsLayered(t, limit);
    SortEndsIff(t);
    assert Depth(t, m, i);
    var c :| Chain(t, c) && c[0] == m && |c| == i + 1;
    RunMembersAreKeys(t, limit, i, m);
    ChainClimbs(t, step, c);
  }

  lemma RunMembersAreKeys(t: Table, limit: nat, i: nat, m: Library)
    requires t.Valid() && Batches(t, t.keys, [], limit).Some?
    requires i < |Batches(t, t.keys, [], limit).value| && m in Batches(t, t.keys, [], limit).value[i]
    ensures m in t.deps
  {
    BatchesGiveRun(t, t.keys, [], limit);
    TakenAreLoadable(t, t.keys, [], Batches(t, t.keys, [], limit).value, i, m);
  }

  lemma {:induction false} TakenAreLoadable(t: Table, pending: seq<Library>, current: seq<Library>,
                                            batches: seq<seq<Library>>, i: nat, m: Library)
    requires IsRun(t, pending, current, batches) && i < |batches| && m in batches[i]
    ensures m in t.deps
    decreases |batches|
  {
    if i != 0 {
      TakenAreLoadable(t, Without(pending, ToSet(batches[0])), current + batches[0], batches[1..], i - 1, m);
    }
  }

  lemma {:induction false} ChainClimbs(t: Table, step: map<Library, nat>, c: seq<Library>)
    requires Chain(t, c) && ClosedUnderDeps(t) && c[0] in t.deps
    requires forall x | x in t.deps :: x in step
    requires forall x, d | x in t.deps && d in t.deps[x] && d in step :: step[d] < step[x]
    ensures step[c[0]] >= |c| - 1
  {
    if |c| > 1 {
      TailIsChain(t, c);
      assert DepsKnown(t, c[0]);
      ChainClimbs(t, step, c[1..]);
    }
  }

  // ----- The sort, as the lists are changed in place -----

  class Sorter {
    const table: Table
    var pendingModules: seq<Library>
    var currentModules: seq<Library>
    /** The batch of step k is at position k. */
    var steps: seq<seq<Library>>

    constructor (table: Table)
      ensures this.table == table && pendingModules == table.keys && currentModules == [] && steps == []
    {
      this.table := table;
      pendingModules, currentModules, steps := table.keys, [], [];
    }

    method ModulesThatCanBeLoaded() returns (modules: seq<Library>)
      requires Within(pendingModules, table)
      ensures modules == Batch(table, pendingModules, currentModules)
    {
      modules := [];
      for i := 0 to |pendingModules|
        invariant modules == Batch(table, pendingModules[..i], currentModules)
      {
        var pendingModule := pendingModules[i];
        assert pendingModule in pendingModules;
        var deps := table.deps[pendingModule];
        var canBeLoaded := true;
        for j := 0 to |deps|
          invariant canBeLoaded && AllIn(deps[..j], currentModules)
        {
          assert deps[..j + 1][..j] == deps[..j];
          if deps[j] !in currentModules {
            canBeLoaded := false;
            AllInMeans(deps, currentModules);
            break;
          }
        }
        assert deps[..|deps|] == deps;
        assert canBeLoaded <==> Loadable(table, pendingModule, currentModules);
        assert pendingModules[..i + 1][..i] == pendingModules[..i];
        if !canBeLoaded {
          continue;
        }
        modules := modules + [pendingModule];
      }
      assert pendingModules[..|pendingModules|] == pendingModules;
    }

    /** Move the libraries that can be loaded now from the pending to the current ones. */
    method TakeBatch(stepNumber: nat)
      requires Within(pendingModules, table) && NoDuplicates(pendingModules) && stepNumber == |steps|
      modifies `pendingModules, `currentModules, `steps
      ensures var batch := Batch(table, old(pendingModules), old(currentModules));
              && pendingModules == Without(old(pendingModules), ToSet(batch))
              && currentModules == old(currentModules) + batch
              && steps == old(steps) + [batch]
    {
      ghost var before, current, done := pendingModules, currentModules, steps;
      steps := steps + [[]];
      var modules := ModulesThatCanBeLoaded();
      BatchUnique(table, before, current);
      NothingTaken(before, current);
      for i := 0 to |modules|
        invariant pendingModules == Without(before, ToSet(modules[..i]))
        invariant currentModules == current + modules[..i]
        invariant steps == done + [modules[..i]]
      {
        var m := modules[i];
        assert m in modules;
        OneMoreTaken(before, current, done, modules, i);
        steps := steps[stepNumber := steps[stepNumber] + [m]];
        pendingModules := RemoveFirst(pendingModules, m);
        currentModules := currentModules + [m];
      }
      assert modules[..|modules|] == modules;
    }

    /** The recursion; false when the recursion limit is hit. */
    method Order(stepNumber: nat, limit: nat) returns (ok: bool)
      requires Within(pendingModules, table) && NoDuplicates(pendingModules) && stepNumber == |steps|
      modifies `pendingModules, `currentModules, `steps
      ensures ok <==> Batches(table, old(pendingModules), old(currentModules), limit).Some?
      ensures ok ==> steps == old(steps) + Batches(table, old(pendingModules), old(currentModules), limit).value
      decreases limit
    {
      if limit == 0 {
        return false;
      }
      if |pendingModules| == 0 {
        assert steps + [] == steps;
        return true;
      }
      ghost var pending, current, done := pendingModules, currentModules, steps;
      ghost var batch := Batch(table, pending, current);
      WithoutUnique(pending, ToSet(batch));
      BatchesStep(table, pending, current, limit, done);
      TakeBatch(stepNumber);
      ok := Order(stepNumber + 1, limit - 1);
    }

    method SortToDependencies(limit: nat) returns (result: Option<seq<Library>>)
      requires table.Valid() && pendingModules == table.keys && currentModules == [] && steps == []
      modifies `pendingModules, `currentModules, `steps
      ensures match Batches(table, table.keys, [], limit)
              case None => result == None
              case Some(batches) => result == Some(Flatten(batches))
    {
      ghost var batches := Batches(table, table.keys, [], limit);
      var ok := Order(0, limit);
      if !ok {
        return None;
      }
      assert steps == batches.value;
      var sortedLibraries := Extend();
      return Some(sortedLibraries);
    }

    /** The steps one after the other. */
    method Extend() returns (sortedLibraries: seq<Library>)
      ensures sortedLibraries == Flatten(steps)
    {
      sortedLibraries := [];
      for i := 0 to |steps|
        invariant sortedLibraries + Flatten(steps[i..]) == Flatten(steps)
      {
        assert steps[i..][1..] == steps[i + 1..];
        sortedLibraries := sortedLibraries + steps[i];
      }
      assert Flatten(steps[|steps|..]) == [];
      assert sortedLibraries + [] == sortedLibraries;
    }
  }

  lemma NothingTaken(before: seq<Library>, current: seq<Library>)
    ensures Without(before, ToSet([])) == before && current + [] == current
  {
    WithoutNone(before);
    assert ToSet<Library>([]) == {};
  }

  lemma OneMoreTaken(before: seq<Library>, current: seq<Library>, done: seq<seq<Library>>, modules: seq<Library>, i: nat)
    requires NoDuplicates(before) && NoDuplicates(modules) && i < |modules| && modules[i] in before
    ensures Without(before, ToSet(modules[..i + 1])) == RemoveFirst(Without(before, ToSet(modules[..i])), modules[i])
    ensures (current + modules[..i]) + [modules[i]] == current + modules[..i + 1]
    ensures (done + [modules[..i]])[|done| := modules[..i] + [modules[i]]] == done + [modules[..i + 1]]
  {
    assert modules[..i + 1] == modules[..i] + [modules[i]];
    assert ToSet(modules[..i + 1]) == ToSet(modules[..i]) + {modules[i]};
    WithoutOneMore(before, ToSet(modules[..i]), modules[i]);
  }

  lemma BatchesStep(t: Table, pending: seq<Library>, current: seq<Library>, limit: nat, done: seq<seq<Library>>)
    requires limit > 0 && pending != []
    ensures var batch := Batch(t, pending, current);
            var rest := Batches(t, Without(pending, ToSet(batch)), current + batch, limit - 1);
            var all := Batches(t, pending, current, limit);
            && (all.Some? <==> rest.Some?)
            && (all.Some? ==> (done + [batch]) + rest.value == done + all.value)
  {
  }
}
