/** Walks over a finite labelled graph that may contain cycles.

    A walk goes depth first, never enters a node that is already on its own path, and
    records one entry for every path it follows.
 */
module LabelledWalks {
  import opened Sequences

  type Node = nat

  datatype Edge = Edge(tag: string, target: Node)

  /** The edges out of each node, in the order in which a walk takes them. */
  type Net = seq<seq<Edge>>

  ghost predicate Targets(n: nat, edges: seq<Edge>) {
    forall i | 0 <= i < |edges| :: edges[i].target < n
  }

  ghost predicate Closed(net: Net) {
    forall t | 0 <= t < |net| :: Targets(|net|, net[t])
  }

  predicate IsNode(net: Net, t: Node) {
    t < |net|
  }

  ghost function Nodes(net: Net): set<Node> {
    set t: Node | t < |net| && IsNode(net, t)
  }

  // ----- Routes: paths as the positions of the edges taken -----

  type Route = seq<nat>

  ghost predicate IsRoute(net: Net, tid: Node, r: Route)
    requires Closed(net) && tid < |net|
    decreases |r|
  {
    r == [] || (r[0] < |net[tid]| && IsRoute(net, net[tid][r[0]].target, r[1..]))
  }

  /** The types a route visits, from its start to its end. */
  ghost function Types(net: Net, tid: Node, r: Route): (types: seq<Node>)
    requires Closed(net) && tid < |net|
    ensures 0 < |types| && types[0] == tid
    decreases |r|
  {
    if r == [] || |net[tid]| <= r[0] then [tid] else [tid] + Types(net, net[tid][r[0]].target, r[1..])
  }

  ghost function End(net: Net, tid: Node, r: Route): Node
    requires Closed(net) && tid < |net|
  {
    var types := Types(net, tid, r);
    types[|types| - 1]
  }

  ghost function Labels(net: Net, tid: Node, r: Route): (labels: seq<string>)
    requires Closed(net) && tid < |net|
    decreases |r|
  {
    if r == [] || |net[tid]| <= r[0] then [] else
      var e := net[tid][r[0]];
      [e.tag] + Labels(net, e.target, r[1..])
  }

  /** Types and labels, step by step: each label and each next type is that of the edge taken. */
  lemma {:induction false} RouteStep(net: Net, tid: Node, r: Route, i: nat)
    requires Closed(net) && tid < |net| && IsRoute(net, tid, r)
    ensures |Types(net, tid, r)| == |r| + 1 && |Labels(net, tid, r)| == |r|
    ensures i < |r| ==>
              var t := Types(net, tid, r)[i];
              && t < |net| && r[i] < |net[t]|
              && Labels(net, tid, r)[i] == net[t][r[i]].tag
              && Types(net, tid, r)[i + 1] == net[t][r[i]].target
    decreases |r|
  {
    if r != [] {
      RouteStep(net, net[tid][r[0]].target, r[1..], if i == 0 then 0 else i - 1);
    }
  }

  /** A route that repeats no type and stays clear of `avoid`. */
  ghost predicate Simple(net: Net, tid: Node, r: Route, avoid: set<Node>)
    requires Closed(net) && tid < |net|
  {
    && IsRoute(net, tid, r)
    && NoDuplicates(Types(net, tid, r))
    && forall t | t in Types(net, tid, r) :: t !in avoid
  }

  /** Lexicographic order on edge positions, a prefix before its extensions. */
  ghost predicate Before(a: Route, b: Route) {
    b != [] && (a == [] || a[0] < b[0] || (a[0] == b[0] && Before(a[1..], b[1..])))
  }

  ghost predicate Ordered(routes: seq<Route>) {
    forall i, j | 0 <= i < j < |routes| :: Before(routes[i], routes[j])
  }

  lemma {:induction false} BeforeIsIrreflexive(a: Route)
    ensures !Before(a, a)
  {
    if a != [] {
      BeforeIsIrreflexive(a[1..]);
    }
  }

  lemma OrderedHasNoDuplicates(routes: seq<Route>)
    requires Ordered(routes)
    ensures NoDuplicates(routes)
  {
    forall i, j | 0 <= i < j < |routes|
      ensures routes[i] != routes[j]
    {
      BeforeIsIrreflexive(routes[i]);
    }
  }

  // ----- The order in which the walk meets the routes -----

  ghost function Walks(net: Net, tid: Node, visited: set<Node>): seq<Route>
    requires Closed(net) && tid < |net|
    decreases Nodes(net) - visited, 0
  {
    if tid in visited then [] else [[]] + WalksThrough(net, tid, visited + {tid}, |net[tid]|)
  }

  /** The routes that leave `tid` through one of its first `k` edges. */
  ghost function WalksThrough(net: Net, tid: Node, visited: set<Node>, k: nat): seq<Route>
    requires Closed(net) && tid < |net| && k <= |net[tid]|
    decreases Nodes(net) - visited, k
  {
    if k == 0 then [] else
      WalksThrough(net, tid, visited, k - 1) + Prefixed(k - 1, Walks(net, net[tid][k - 1].target, visited))
  }

  ghost function Prefixed(k: nat, routes: seq<Route>): seq<Route> {
    seq(|routes|, i requires 0 <= i < |routes| => [k] + routes[i])
  }

  lemma SimpleStep(net: Net, tid: Node, r: Route, avoid: set<Node>)
    requires Closed(net) && tid < |net| && r != [] && r[0] < |net[tid]|
    ensures Simple(net, tid, r, avoid) <==>
            tid !in avoid && Simple(net, net[tid][r[0]].target, r[1..], avoid + {tid})
  {
    var rest := Types(net, net[tid][r[0]].target, r[1..]);
    assert Types(net, tid, r) == [tid] + rest;
    ConsHasNoDuplicates(tid, rest);
  }

  lemma ConsHasNoDuplicates<T(!new)>(x: T, s: seq<T>)
    ensures NoDuplicates([x] + s) <==> x !in s && NoDuplicates(s)
  {
    var t := [x] + s;
    assert forall i | 0 <= i < |s| :: s[i] == t[i + 1];
    if x !in s && NoDuplicates(s) {
      forall i, j | 0 <= i < j < |t|
        ensures t[i] != t[j]
      {
        assert t[j] == s[j - 1];
      }
    }
    if NoDuplicates(t) {
      forall i | 0 <= i < |s|
        ensures s[i] != x
      {
        assert t[0] != t[i + 1];
      }
      forall i, j | 0 <= i < j < |s|
        ensures s[i] != s[j]
      {
        assert t[i + 1] != t[j + 1];
      }
    }
  }

  /** Soundness and completeness: the walk meets exactly the simple routes. */
  lemma {:induction false} WalksAreSimple(net: Net, tid: Node, visited: set<Node>, r: Route)
    requires Closed(net) && tid < |net|
    ensures r in Walks(net, tid, visited) <==> Simple(net, tid, r, visited)
    decreases Nodes(net) - visited, 0
  {
    if tid !in visited {
      var k := |net[tid]|;
      WalksThroughAreSimple(net, tid, visited + {tid}, k, r);
      if r == [] {
        assert Walks(net, tid, visited)[0] == r;
      } else if r[0] < k {
        SimpleStep(net, tid, r, visited);
      }
    }
  }

  lemma {:induction false} WalksThroughAreSimple(net: Net, tid: Node, visited: set<Node>, k: nat, r: Route)
    requires Closed(net) && tid < |net| && k <= |net[tid]|
    ensures r in WalksThrough(net, tid, visited, k) <==>
            r != [] && r[0] < k && Simple(net, net[tid][r[0]].target, r[1..], visited)
    decreases Nodes(net) - visited, k
  {
    if k != 0 {
      var walks := Walks(net, net[tid][k - 1].target, visited);
      WalksThroughAreSimple(net, tid, visited, k - 1, r);
      if r != [] {
        WalksAreSimple(net, net[tid][k - 1].target, visited, r[1..]);
      }
      PrefixedMembers(k - 1, walks, r);
    }
  }

  lemma PrefixedMembers(k: nat, routes: seq<Route>, r: Route)
    ensures r in Prefixed(k, routes) <==> r != [] && r[0] == k && r[1..] in routes
  {
    if r in Prefixed(k, routes) {
      var i :| 0 <= i < |routes| && r == Prefixed(k, routes)[i];
      assert r[1..] == routes[i];
    }
    if r != [] && r[0] == k && r[1..] in routes {
      var i :| 0 <= i < |routes| && r[1..] == routes[i];
      assert r == [k] + routes[i] == Prefixed(k, routes)[i];
    }
  }

  lemma {:induction false} WalksAreOrdered(net: Net, tid: Node, visited: set<Node>)
    requires Closed(net) && tid < |net|
    ensures Ordered(Walks(net, tid, visited))
    decreases Nodes(net) - visited, 0
  {
    if tid !in visited {
      var k := |net[tid]|;
      WalksThroughAreOrdered(net, tid, visited + {tid}, k);
      forall r | r in WalksThrough(net, tid, visited + {tid}, k)
        ensures Before([], r)
      {
        WalksThroughAreSimple(net, tid, visited + {tid}, k, r);
      }
    }
  }

  lemma {:induction false} WalksThroughAreOrdered(net: Net, tid: Node, visited: set<Node>, k: nat)
    requires Closed(net) && tid < |net| && k <= |net[tid]|
    ensures Ordered(WalksThrough(net, tid, visited, k))
    decreases Nodes(net) - visited, k
  {
    if k != 0 {
      var front := WalksThrough(net, tid, visited, k - 1);
      var walks := Walks(net, net[tid][k - 1].target, visited);
      var back := Prefixed(k - 1, walks);
      WalksThroughAreOrdered(net, tid, visited, k - 1);
      WalksAreOrdered(net, net[tid][k - 1].target, visited);
      forall i, j | 0 <= i < j < |back|
        ensures Before(back[i], back[j])
      {
        assert back[i][1..] == walks[i] && back[j][1..] == walks[j];
      }
      forall i, j | 0 <= i < |front| && 0 <= j < |back|
        ensures Before(front[i], back[j])
      {
        WalksThroughAreSimple(net, tid, visited, k - 1, front[i]);
      }
    }
  }

  // ----- What is recorded -----

  datatype Entry = Entry(tid: Node, path: string)

  function PathString(path: seq<string>): string {
    if path == [] then "" else PathString(path[..|path| - 1]) + "/" + path[|path| - 1]
  }

  /** Every label once, in order, and a slash before each. */
  lemma {:induction false} PathStringConcat(a: seq<string>, b: seq<string>)
    ensures PathString(a + b) == PathString(a) + PathString(b)
  {
    if b == [] {
      assert a + b == a;
    } else {
      assert (a + b)[..|a + b| - 1] == a + b[..|b| - 1];
      PathStringConcat(a, b[..|b| - 1]);
    }
  }

  lemma PathStringOfOne(tag: string)
    ensures PathString([tag]) == "/" + tag
  {
    assert [tag][..0] == [];
    assert "" + "/" == "/";
  }

  /** The path of a route with labels `first` and `rest`: a slash, the first label, and the path of the rest. */
  lemma PathStringCons(first: string, rest: seq<string>)
    ensures PathString([first] + rest) == "/" + first + PathString(rest)
  {
    PathStringConcat([first], rest);
    PathStringOfOne(first);
  }

  /** The entries recorded by a walk that reaches `tid` along `path`. */
  ghost function Gathered(net: Net, tid: Node, path: seq<string>, visited: set<Node>): seq<Entry>
    requires Closed(net) && tid < |net|
    decreases Nodes(net) - visited, 0
  {
    if tid in visited then [] else
      [Entry(tid, PathString(path))] + GatheredVia(net, net[tid], path, visited + {tid})
  }

  ghost function GatheredVia(net: Net, edges: seq<Edge>, path: seq<string>, visited: set<Node>): seq<Entry>
    requires Closed(net) && Targets(|net|, edges)
    decreases Nodes(net) - visited, |edges|
  {
    if edges == [] then [] else
      var last := edges[|edges| - 1];
      GatheredVia(net, edges[..|edges| - 1], path, visited)
      + Gathered(net, last.target, path + [last.tag], visited)
  }

  lemma GatheredViaSnoc(net: Net, edges: seq<Edge>, e: Edge, path: seq<string>, visited: set<Node>)
    requires Closed(net) && Targets(|net|, edges) && e.target < |net|
    ensures GatheredVia(net, edges + [e], path, visited) ==
            GatheredVia(net, edges, path, visited) + Gathered(net, e.target, path + [e.tag], visited)
  {
    assert (edges + [e])[..|edges|] == edges;
  }

  /** One entry per route: the type at its end and the path string along it. */
  ghost function EntryOf(net: Net, tid: Node, path: seq<string>, r: Route): Entry
    requires Closed(net) && tid < |net|
  {
    Entry(End(net, tid, r), PathString(path + Labels(net, tid, r)))
  }

  ghost function EntriesOf(net: Net, tid: Node, path: seq<string>, routes: seq<Route>): (entries: seq<Entry>)
    requires Closed(net) && tid < |net|
    ensures |entries| == |routes|
    ensures forall i | 0 <= i < |routes| :: entries[i] == EntryOf(net, tid, path, routes[i])
  {
    seq(|routes|, i requires 0 <= i < |routes| => EntryOf(net, tid, path, routes[i]))
  }

  lemma EntriesOfPrefixed(net: Net, tid: Node, path: seq<string>, k: nat, routes: seq<Route>)
    requires Closed(net) && tid < |net| && k < |net[tid]|
    ensures EntriesOf(net, tid, path, Prefixed(k, routes)) ==
            EntriesOf(net, net[tid][k].target, path + [net[tid][k].tag], routes)
  {
    var e := net[tid][k];
    forall i | 0 <= i < |routes|
      ensures EntryOf(net, tid, path, [k] + routes[i]) == EntryOf(net, e.target, path + [e.tag], routes[i])
    {
      var r := [k] + routes[i];
      assert r[1..] == routes[i];
      assert path + Labels(net, tid, r) == (path + [e.tag]) + Labels(net, e.target, routes[i]);
    }
  }

  lemma {:induction false} GatheredIsWalks(net: Net, tid: Node, path: seq<string>, visited: set<Node>)
    requires Closed(net) && tid < |net|
    ensures Gathered(net, tid, path, visited) == EntriesOf(net, tid, path, Walks(net, tid, visited))
    decreases Nodes(net) - visited, 0
  {
    if tid !in visited {
      var k := |net[tid]|;
      var through := WalksThrough(net, tid, visited + {tid}, k);
      assert EntriesOf(net, tid, path, [[]]) == [Entry(tid, PathString(path))] by {
        assert path + [] == path;
      }
      EntriesOfConcat(net, tid, path, [[]], through);
      assert GatheredVia(net, net[tid], path, visited + {tid}) == EntriesOf(net, tid, path, through) by {
        GatheredViaIsWalks(net, tid, path, visited + {tid}, k);
        assert net[tid][..k] == net[tid];
      }
    }
  }

  lemma EntriesOfConcat(net: Net, tid: Node, path: seq<string>, front: seq<Route>, back: seq<Route>)
    requires Closed(net) && tid < |net|
    ensures EntriesOf(net, tid, path, front + back) ==
            EntriesOf(net, tid, path, front) + EntriesOf(net, tid, path, back)
  {
  }

  lemma {:induction false} GatheredViaIsWalks(net: Net, tid: Node, path: seq<string>, visited: set<Node>, k: nat)
    requires Closed(net) && tid < |net| && k <= |net[tid]|
    ensures GatheredVia(net, net[tid][..k], path, visited) ==
            EntriesOf(net, tid, path, WalksThrough(net, tid, visited, k))
    decreases Nodes(net) - visited, k
  {
    if k != 0 {
      var edges, e := net[tid][..k - 1], net[tid][k - 1];
      var front, walks := WalksThrough(net, tid, visited, k - 1), Walks(net, e.target, visited);
      calc {
        GatheredVia(net, net[tid][..k], path, visited);
        { assert net[tid][..k] == edges + [e]; }
        GatheredVia(net, edges + [e], path, visited);
        { GatheredViaSnoc(net, edges, e, path, visited); }
        GatheredVia(net, edges, path, visited) + Gathered(net, e.target, path + [e.tag], visited);
        { GatheredViaIsWalks(net, tid, path, visited, k - 1); GatheredIsWalks(net, e.target, path + [e.tag], visited); }
        EntriesOf(net, tid, path, front) + EntriesOf(net, e.target, path + [e.tag], walks);
        { EntriesOfPrefixed(net, tid, path, k - 1, walks); }
        EntriesOf(net, tid, path, front) + EntriesOf(net, tid, path, Prefixed(k - 1, walks));
        { EntriesOfConcat(net, tid, path, front, Prefixed(k - 1, walks)); }
        EntriesOf(net, tid, path, WalksThrough(net, tid, visited, k));
      }
    }
  }

  /** The main result: a walk from `tid` with empty stacks records, in lexicographic edge
      order, one entry for each simple route from `tid`, none missing and none extra. */
  lemma GatheredIsEverySimpleRoute(net: Net, tid: Node) returns (routes: seq<Route>)
    requires Closed(net) && tid < |net|
    ensures Ordered(routes) && NoDuplicates(routes)
    ensures forall r: Route :: r in routes <==> Simple(net, tid, r, {})
    ensures Gathered(net, tid, [], {}) == EntriesOf(net, tid, [], routes)
  {
    routes := Walks(net, tid, {});
    WalksAreOrdered(net, tid, {});
    OrderedHasNoDuplicates(routes);
    forall r: Route
      ensures r in routes <==> Simple(net, tid, r, {})
    {
      WalksAreSimple(net, tid, {}, r);
    }
    GatheredIsWalks(net, tid, [], {});
  }

  // ----- Looking paths up again -----

  ghost function PathsTo(entries: seq<Entry>, tid: Node): seq<string> {
    if entries == [] then [] else
      var last := entries[|entries| - 1];
      PathsTo(entries[..|entries| - 1], tid) + if last.tid == tid then [last.path] else []
  }

  /** The paths reported for `t` after gathering from `root`: one for each simple route that
      ends at `t`, in the order of the routes. */
  lemma PathsToAreRoutes(net: Net, root: Node, t: Node) returns (ending: seq<Route>)
    requires Closed(net) && root < |net|
    ensures AreRoutesTo(net, root, t, ending)
    ensures PathsTo(Gathered(net, root, [], {}), t) == PathStrings(net, root, ending)
  {
    var routes := GatheredIsEverySimpleRoute(net, root);
    ending := EndingAt(net, root, t, routes);
    EndingAtIsOrdered(net, root, t, routes);
    OrderedHasNoDuplicates(ending);
    PathsToEndingAt(net, root, t, routes);
  }

  lemma {:induction false} PathsToConcat(a: seq<Entry>, b: seq<Entry>, t: Node)
    ensures PathsTo(a + b, t) == PathsTo(a, t) + PathsTo(b, t)
  {
    if b == [] {
      assert a + b == a;
    } else {
      assert (a + b)[..|a + b| - 1] == a + b[..|b| - 1];
      PathsToConcat(a, b[..|b| - 1], t);
    }
  }

  /** What is recorded by gathering from one root after the other. */
  ghost function GatheredFrom(net: Net, roots: seq<Node>): seq<Entry>
    requires Closed(net) && forall i | 0 <= i < |roots| :: roots[i] < |net|
  {
    Flatten(GatheredParts(net, roots))
  }

  ghost function GatheredParts(net: Net, roots: seq<Node>): (parts: seq<seq<Entry>>)
    requires Closed(net) && forall i | 0 <= i < |roots| :: roots[i] < |net|
    ensures |parts| == |roots| && forall i | 0 <= i < |roots| :: parts[i] == Gathered(net, roots[i], [], {})
  {
    seq(|roots|, i requires 0 <= i < |roots| => Gathered(net, roots[i], [], {}))
  }

  ghost function PathsFrom(net: Net, roots: seq<Node>, endings: seq<seq<Route>>): seq<string>
    requires Closed(net) && |endings| == |roots| && forall i | 0 <= i < |roots| :: roots[i] < |net|
  {
    Flatten(PathParts(net, roots, endings))
  }

  ghost function PathParts(net: Net, roots: seq<Node>, endings: seq<seq<Route>>): (parts: seq<seq<string>>)
    requires Closed(net) && |endings| == |roots| && forall i | 0 <= i < |roots| :: roots[i] < |net|
    ensures |parts| == |roots| && forall i | 0 <= i < |roots| :: parts[i] == PathStrings(net, roots[i], endings[i])
  {
    seq(|roots|, i requires 0 <= i < |roots| => PathStrings(net, roots[i], endings[i]))
  }

  /** The simple routes from `root` that end at `t`, each once and in order. */
  ghost predicate AreRoutesTo(net: Net, root: Node, t: Node, ending: seq<Route>)
    requires Closed(net) && root < |net|
  {
    && Ordered(ending) && NoDuplicates(ending)
    && forall r: Route :: r in ending <==> Simple(net, root, r, {}) && End(net, root, r) == t
  }

  /** After gathering from several roots the paths reported for `t` are, root by root, those of
      the simple routes that end at `t`. */
  lemma {:induction false} PathsFromAllRoots(net: Net, roots: seq<Node>, t: Node) returns (endings: seq<seq<Route>>)
    requires Closed(net) && forall i | 0 <= i < |roots| :: roots[i] < |net|
    ensures |endings| == |roots|
    ensures forall i | 0 <= i < |roots| :: AreRoutesTo(net, roots[i], t, endings[i])
    ensures PathsTo(GatheredFrom(net, roots), t) == PathsFrom(net, roots, endings)
  {
    if roots == [] {
      endings := [];
    } else {
      var n := |roots| - 1;
      var front := PathsFromAllRoots(net, roots[..n], t);
      var last := PathsToAreRoutes(net, roots[n], t);
      endings := front + [last];
      PathsToConcat(GatheredFrom(net, roots[..n]), Gathered(net, roots[n], [], {}), t);
      GatheredFromSnoc(net, roots);
      PathsFromSnoc(net, roots, endings);
      assert endings[..n] == front;
    }
  }

  lemma GatheredFromSnoc(net: Net, roots: seq<Node>)
    requires Closed(net) && roots != [] && forall i | 0 <= i < |roots| :: roots[i] < |net|
    ensures var n := |roots| - 1;
            GatheredFrom(net, roots) == GatheredFrom(net, roots[..n]) + Gathered(net, roots[n], [], {})
  {
    hide Gathered, GatheredParts, Flatten, Closed;
    var n := |roots| - 1;
    var front, last := GatheredParts(net, roots[..n]), Gathered(net, roots[n], [], {});
    FlattenSnoc(front, last);
    var parts := GatheredParts(net, roots);
    assert |parts| == n + 1 && parts[n] == last;
    forall i | 0 <= i < n
      ensures parts[i] == front[i]
    {
      assert roots[..n][i] == roots[i];
    }
    assert parts == front + [last];
  }

  lemma PathsFromSnoc(net: Net, roots: seq<Node>, endings: seq<seq<Route>>)
    requires Closed(net) && roots != [] && forall i | 0 <= i < |roots| :: roots[i] < |net|
    requires |endings| == |roots|
    ensures var n := |roots| - 1;
            PathsFrom(net, roots, endings) == PathsFrom(net, roots[..n], endings[..n]) + PathStrings(net, roots[n], endings[n])
  {
    hide PathStrings, PathParts, Flatten;
    var n := |roots| - 1;
    FlattenSnoc(PathParts(net, roots[..n], endings[..n]), PathStrings(net, roots[n], endings[n]));
    assert PathParts(net, roots, endings)
           == PathParts(net, roots[..n], endings[..n]) + [PathStrings(net, roots[n], endings[n])];
  }

  ghost function PathStrings(net: Net, root: Node, routes: seq<Route>): (paths: seq<string>)
    requires Closed(net) && root < |net|
  {
    seq(|routes|, i requires 0 <= i < |routes| => PathString(Labels(net, root, routes[i])))
  }

  ghost function EndingAt(net: Net, root: Node, t: Node, routes: seq<Route>): (ending: seq<Route>)
    requires Closed(net) && root < |net|
    ensures forall r :: r in ending <==> r in routes && End(net, root, r) == t
  {
    if routes == [] then [] else
      var front, last := routes[..|routes| - 1], routes[|routes| - 1];
      assert routes == front + [last];
      EndingAt(net, root, t, front) + if End(net, root, last) == t then [last] else []
  }

  lemma {:induction false} EndingAtIsOrdered(net: Net, root: Node, t: Node, routes: seq<Route>)
    requires Closed(net) && root < |net| && Ordered(routes)
    ensures Ordered(EndingAt(net, root, t, routes))
  {
    if routes != [] {
      var front, last := routes[..|routes| - 1], routes[|routes| - 1];
      var ending := EndingAt(net, root, t, front);
      EndingAtIsOrdered(net, root, t, front);
      forall i | 0 <= i < |ending|
        ensures Before(ending[i], last)
      {
        assert ending[i] in ending;
        var j :| 0 <= j < |front| && front[j] == ending[i];
        assert routes[j] == front[j];
      }
    }
  }

  lemma {:induction false} PathsToEndingAt(net: Net, root: Node, t: Node, routes: seq<Route>)
    requires Closed(net) && root < |net|
    ensures PathsTo(EntriesOf(net, root, [], routes), t) == PathStrings(net, root, EndingAt(net, root, t, routes))
  {
    if routes != [] {
      var front, last := routes[..|routes| - 1], routes[|routes| - 1];
      var e, rest := EntryOf(net, root, [], last), EntriesOf(net, root, [], front);
      assert EntriesOf(net, root, [], routes) == rest + [e];
      PathsToEndingAt(net, root, t, front);
      PathsToSnoc(rest, e, t);
      PathStringsSnoc(net, root, EndingAt(net, root, t, front), last);
    }
  }

  lemma PathsToSnoc(entries: seq<Entry>, e: Entry, t: Node)
    ensures PathsTo(entries + [e], t) == PathsTo(entries, t) + if e.tid == t then [e.path] else []
  {
    assert (entries + [e])[..|entries|] == entries;
  }

  lemma PathStringsSnoc(net: Net, root: Node, routes: seq<Route>, r: Route)
    requires Closed(net) && root < |net|
    ensures PathStrings(net, root, routes + [r]) == PathStrings(net, root, routes) + [EntryOf(net, root, [], r).path]
  {
    assert [] + Labels(net, root, r) == Labels(net, root, r);
  }
}
