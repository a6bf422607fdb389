/** Configuration paths of the registered types
    (utils/print-introspected-doxygen.cc, class StaticInformation).

    The type registry is a finite labelled graph that may contain cycles.  `DoGather` walks
    it depth first and records one entry for every labelled path that repeats no type.
 */
module TypePaths {
  import opened LabelledWalks
  import opened Sequences

  // ----- The registry, as the walk sees it -----

  type TypeId = Node

  datatype Checker = Pointer(pointee: TypeId) | Container(item: TypeId) | Other

  datatype Attribute = Attribute(name: string, checker: Checker)

  /** `ancestors` are the types of which this one is a proper descendant. */
  datatype TypeInfo = TypeInfo(name: string, attributes: seq<Attribute>, ancestors: set<TypeId>)

  datatype Registry = Registry(types: seq<TypeInfo>, objectType: TypeId) {
    predicate Holds(tid: TypeId) {
      tid < |types|
    }

    /** Attributes mention registered types only. */
    predicate Valid() {
      forall t, i | 0 <= t < |types| && 0 <= i < |types[t].attributes| ::
        CheckerOk(types[t].attributes[i].checker)
    }

    predicate CheckerOk(c: Checker) {
      match c
      case Pointer(p) => Holds(p)
      case Container(i) => Holds(i)
      case Other => true
    }

    predicate Registered(name: string) {
      exists t | 0 <= t < |types| :: types[t].name == name
    }

    predicate IsChildOf(child: TypeId, tid: TypeId)
      requires Holds(child)
    {
      tid in types[child].ancestors
    }
  }

  datatype Graph = Graph(registry: Registry, aggregates: seq<(TypeId, TypeId)>) {
    predicate Valid() {
      && registry.Valid()
      && forall i | 0 <= i < |aggregates| ::
           registry.Holds(aggregates[i].0) && registry.Holds(aggregates[i].1)
    }
  }

  // ----- Edges -----

  function AttributeEdge(reg: Registry, a: Attribute): seq<Edge> {
    match a.checker
    case Pointer(p) => if p == reg.objectType then [] else [Edge(a.name, p)]
    case Container(i) => [Edge(a.name + "/[i]", i)]
    case Other => []
  }

  ghost function AttributeEdges(reg: Registry, attributes: seq<Attribute>): (edges: seq<Edge>)
    ensures (forall i | 0 <= i < |attributes| :: reg.CheckerOk(attributes[i].checker)) ==> Targets(|reg.types|, edges)
  {
    if attributes == [] then [] else
      AttributeEdges(reg, attributes[..|attributes| - 1]) + AttributeEdge(reg, attributes[|attributes| - 1])
  }

  /** Edges to the children of `tid` among the first `n` registered types. */
  ghost function ChildEdges(reg: Registry, tid: TypeId, n: nat): (edges: seq<Edge>)
    requires n <= |reg.types|
    ensures Targets(|reg.types|, edges)
  {
    if n == 0 then [] else
      ChildEdges(reg, tid, n - 1) +
      if reg.IsChildOf(n - 1, tid) then [Edge("$" + reg.types[n - 1].name, n - 1)] else []
  }

  ghost function AggregateEdges(g: Graph, tid: TypeId, n: nat): (edges: seq<Edge>)
    requires g.Valid() && n <= |g.aggregates|
    ensures Targets(|g.registry.types|, edges)
  {
    if n == 0 then [] else
      AggregateEdges(g, tid, n - 1) + AggregateEdge(g.registry, tid, g.aggregates[n - 1])
  }

  /** An aggregation is crossed in either direction. */
  ghost function AggregateEdge(reg: Registry, tid: TypeId, item: (TypeId, TypeId)): (edges: seq<Edge>)
    requires reg.Holds(item.0) && reg.Holds(item.1)
    ensures Targets(|reg.types|, edges)
  {
    if item.1 == tid then [Edge("$" + reg.types[item.0].name, item.0)]
    else if item.0 == tid then [Edge("$" + reg.types[item.1].name, item.1)]
    else []
  }

  /** All edges out of `tid`, in the order in which the walk takes them. */
  ghost function Edges(g: Graph, tid: TypeId): (edges: seq<Edge>)
    requires g.Valid() && g.registry.Holds(tid)
    ensures Targets(|g.registry.types|, edges)
  {
    AttributeEdges(g.registry, g.registry.types[tid].attributes)
    + ChildEdges(g.registry, tid, |g.registry.types|)
    + AggregateEdges(g, tid, |g.aggregates|)
  }

  /** The registry and its aggregations as a labelled graph. */
  ghost function NetOf(g: Graph): (net: Net)
    requires g.Valid()
    ensures Closed(net) && |net| == |g.registry.types|
    ensures forall tid | 0 <= tid < |net| :: net[tid] == Edges(g, tid)
  {
    seq(|g.registry.types|, tid requires 0 <= tid < |g.registry.types| => Edges(g, tid))
  }

  ghost predicate AttributeLink(reg: Registry, tid: TypeId, e: Edge)
    requires reg.Holds(tid)
  {
    exists a | a in reg.types[tid].attributes ::
      || (a.checker == Pointer(e.target) && e.target != reg.objectType && e.tag == a.name)
      || (a.checker == Container(e.target) && e.tag == a.name + "/[i]")
  }

  ghost predicate ChildLink(reg: Registry, tid: TypeId, e: Edge) {
    reg.Holds(e.target) && reg.IsChildOf(e.target, tid) && e.tag == "$" + reg.types[e.target].name
  }

  ghost predicate AggregateLink(g: Graph, tid: TypeId, e: Edge) {
    && g.registry.Holds(e.target)
    && ((tid, e.target) in g.aggregates || (e.target, tid) in g.aggregates)
    && e.tag == "$" + g.registry.types[e.target].name
  }

  /** The edges are exactly the links the registry and the recorded aggregations describe. */
  lemma EdgesAreLinks(g: Graph, tid: TypeId, e: Edge)
    requires g.Valid() && g.registry.Holds(tid)
    ensures e in Edges(g, tid) <==>
            AttributeLink(g.registry, tid, e) || ChildLink(g.registry, tid, e) || AggregateLink(g, tid, e)
  {
    AttributeEdgesAreLinks(g.registry, g.registry.types[tid].attributes, e);
    ChildEdgesAreLinks(g.registry, tid, |g.registry.types|, e);
    AggregateEdgesAreLinks(g, tid, |g.aggregates|, e);
  }

  lemma {:induction false} AttributeEdgesAreLinks(reg: Registry, attributes: seq<Attribute>, e: Edge)
    ensures e in AttributeEdges(reg, attributes) <==>
            exists a | a in attributes ::
              || (a.checker == Pointer(e.target) && e.target != reg.objectType && e.tag == a.name)
              || (a.checker == Container(e.target) && e.tag == a.name + "/[i]")
  {
    if attributes != [] {
      var front, last := attributes[..|attributes| - 1], attributes[|attributes| - 1];
      AttributeEdgesAreLinks(reg, front, e);
      assert attributes == front + [last];
      assert e in AttributeEdge(reg, last) <==>
             || (last.checker == Pointer(e.target) && e.target != reg.objectType && e.tag == last.name)
             || (last.checker == Container(e.target) && e.tag == last.name + "/[i]");
    }
  }

  lemma {:induction false} ChildEdgesAreLinks(reg: Registry, tid: TypeId, n: nat, e: Edge)
    requires n <= |reg.types|
    ensures e in ChildEdges(reg, tid, n) <==> e.target < n && ChildLink(reg, tid, e)
  {
    if n != 0 {
      ChildEdgesAreLinks(reg, tid, n - 1, e);
    }
  }

  lemma {:induction false} AggregateEdgesAreLinks(g: Graph, tid: TypeId, n: nat, e: Edge)
    requires g.Valid() && n <= |g.aggregates|
    ensures e in AggregateEdges(g, tid, n) <==>
            && g.registry.Holds(e.target)
            && ((tid, e.target) in g.aggregates[..n] || (e.target, tid) in g.aggregates[..n])
            && e.tag == "$" + g.registry.types[e.target].name
  {
    if n != 0 {
      AggregateEdgesAreLinks(g, tid, n - 1, e);
      assert g.aggregates[..n] == g.aggregates[..n - 1] + [g.aggregates[n - 1]];
    }
  }

  // ----- How often, and in which order, edges are followed -----

  /** An attribute that is followed: a container, or a pointer to more than the base object type. */
  ghost predicate IsFollowed(reg: Registry, a: Attribute) {
    a.checker.Container? || (a.checker.Pointer? && a.checker.pointee != reg.objectType)
  }

  /** What is followed from an attribute: the item of a container or the pointee of a pointer. */
  ghost predicate FollowsAttribute(a: Attribute, e: Edge) {
    match a.checker
    case Pointer(p) => e.tag == a.name && e.target == p
    case Container(item) => e.tag == a.name + "/[i]" && e.target == item
    case Other => false
  }

  ghost predicate Mentions(item: (TypeId, TypeId), tid: TypeId) {
    item.0 == tid || item.1 == tid
  }

  /** What is followed from an aggregation: its other end. */
  ghost predicate FollowsAggregate(reg: Registry, item: (TypeId, TypeId), tid: TypeId, e: Edge) {
    && ((item.0 == tid && item.1 == e.target) || (item.1 == tid && item.0 == e.target))
    && reg.Holds(e.target) && e.tag == "$" + reg.types[e.target].name
  }

  ghost predicate FollowsChild(reg: Registry, child: TypeId, e: Edge) {
    reg.Holds(child) && e.target == child && e.tag == "$" + reg.types[child].name
  }

  /** One edge for each attribute that is followed, in the order of their positions `at`. */
  ghost predicate AttributesInOrder(reg: Registry, attributes: seq<Attribute>, at: seq<nat>, edges: seq<Edge>) {
    && Rising(at) && |at| == |edges|
    && (forall k | 0 <= k < |at| ::
          at[k] < |attributes| && IsFollowed(reg, attributes[at[k]]) && FollowsAttribute(attributes[at[k]], edges[k]))
    && forall i | 0 <= i < |attributes| && IsFollowed(reg, attributes[i]) :: i in at
  }

  /** One edge for each registered descendant, by registration. */
  ghost predicate ChildrenInOrder(reg: Registry, tid: TypeId, at: seq<nat>, edges: seq<Edge>) {
    && Rising(at) && |at| == |edges|
    && (forall k | 0 <= k < |at| :: reg.Holds(at[k]) && reg.IsChildOf(at[k], tid) && FollowsChild(reg, at[k], edges[k]))
    && forall i: nat | reg.Holds(i) && reg.IsChildOf(i, tid) :: i in at
  }

  /** One edge for each aggregation that mentions the type, in their order. */
  ghost predicate AggregatesInOrder(g: Graph, tid: TypeId, at: seq<nat>, edges: seq<Edge>) {
    && Rising(at) && |at| == |edges|
    && (forall k | 0 <= k < |at| ::
          && at[k] < |g.aggregates| && Mentions(g.aggregates[at[k]], tid)
          && FollowsAggregate(g.registry, g.aggregates[at[k]], tid, edges[k]))
    && forall i | 0 <= i < |g.aggregates| && Mentions(g.aggregates[i], tid) :: i in at
  }

  /** The list of edges as such: one for each attribute that is followed, by position; then one
      for each child, by registration; then one for each aggregation that mentions the type. */
  lemma EdgesInOrder(g: Graph, tid: TypeId) returns (attrs: seq<nat>, children: seq<nat>, aggs: seq<nat>)
    requires g.Valid() && g.registry.Holds(tid)
    ensures var edges, m, n := Edges(g, tid), |attrs|, |attrs| + |children|;
            && |edges| == n + |aggs|
            && AttributesInOrder(g.registry, g.registry.types[tid].attributes, attrs, edges[..m])
            && ChildrenInOrder(g.registry, tid, children, edges[m..n])
            && AggregatesInOrder(g, tid, aggs, edges[n..])
  {
    hide AttributeEdges, ChildEdges, AggregateEdges, IsFollowed, FollowsAttribute, Mentions, FollowsAggregate, Rising;
    attrs := AttributeEdgesInOrder(g.registry, g.registry.types[tid].attributes);
    children := ChildEdgesInOrder(g.registry, tid);
    aggs := AggregateEdgesInOrder(g, tid);
    InThree(AttributeEdges(g.registry, g.registry.types[tid].attributes),
            ChildEdges(g.registry, tid, |g.registry.types|), AggregateEdges(g, tid, |g.aggregates|));
  }

  lemma InThree<T>(a: seq<T>, b: seq<T>, c: seq<T>)
    ensures (a + b + c)[..|a|] == a && (a + b + c)[|a|..|a| + |b|] == b && (a + b + c)[|a| + |b|..] == c
  {
  }

  lemma AttributeEdgesInOrder(reg: Registry, attributes: seq<Attribute>) returns (at: seq<nat>)
    ensures AttributesInOrder(reg, attributes, at, AttributeEdges(reg, attributes))
  {
    var parts := seq(|attributes|, i requires 0 <= i < |attributes| => AttributeEdge(reg, attributes[i]));
    AttributeEdgesFlatten(reg, attributes, parts);
    at := FlattenPicks(parts);
    hide AttributeEdges, Flatten, AttributeEdge, IsFollowed, FollowsAttribute, Rising;
    forall i | 0 <= i < |attributes|
      ensures IsFollowed(reg, attributes[i]) <==> |parts[i]| == 1
      ensures |parts[i]| == 1 ==> FollowsAttribute(attributes[i], parts[i][0])
    {
      AttributePart(reg, attributes[i]);
    }
  }

  lemma AttributePart(reg: Registry, a: Attribute)
    ensures var part := AttributeEdge(reg, a);
            && (IsFollowed(reg, a) <==> |part| == 1)
            && (|part| == 1 ==> FollowsAttribute(a, part[0]))
  {
  }

  lemma {:induction false} AttributeEdgesFlatten(reg: Registry, attributes: seq<Attribute>, parts: seq<seq<Edge>>)
    requires |parts| == |attributes| && forall i | 0 <= i < |parts| :: parts[i] == AttributeEdge(reg, attributes[i])
    ensures AttributeEdges(reg, attributes) == Flatten(parts)
  {
    hide AttributeEdge, Flatten;
    if attributes != [] {
      var n := |attributes| - 1;
      AttributeEdgesFlatten(reg, attributes[..n], parts[..n]);
      FlattenSnoc(parts[..n], parts[n]);
      assert parts == parts[..n] + [parts[n]];
    } else {
      FlattenLength(parts);
    }
  }

  ghost function ChildPart(reg: Registry, tid: TypeId, j: TypeId): (part: seq<Edge>)
    requires reg.Holds(j)
  {
    if reg.IsChildOf(j, tid) then [Edge("$" + reg.types[j].name, j)] else []
  }

  lemma ChildEdgesInOrder(reg: Registry, tid: TypeId) returns (at: seq<nat>)
    ensures ChildrenInOrder(reg, tid, at, ChildEdges(reg, tid, |reg.types|))
  {
    var parts := seq(|reg.types|, j requires 0 <= j < |reg.types| => ChildPart(reg, tid, j));
    ChildEdgesFlatten(reg, tid, |reg.types|, parts);
    at := FlattenPicks(parts);
    hide ChildEdges, Flatten;
    assert forall j: nat | reg.Holds(j) :: reg.IsChildOf(j, tid) <==> |parts[j]| == 1;
  }

  lemma {:induction false} ChildEdgesFlatten(reg: Registry, tid: TypeId, n: nat, parts: seq<seq<Edge>>)
    requires |parts| == n <= |reg.types| && forall j | 0 <= j < n :: parts[j] == ChildPart(reg, tid, j)
    ensures ChildEdges(reg, tid, n) == Flatten(parts)
  {
    hide Flatten;
    if n != 0 {
      ChildEdgesFlatten(reg, tid, n - 1, parts[..n - 1]);
      FlattenSnoc(parts[..n - 1], parts[n - 1]);
      assert parts == parts[..n - 1] + [parts[n - 1]];
    } else {
      FlattenLength(parts);
    }
  }

  lemma AggregateEdgesInOrder(g: Graph, tid: TypeId) returns (at: seq<nat>)
    requires g.Valid()
    ensures AggregatesInOrder(g, tid, at, AggregateEdges(g, tid, |g.aggregates|))
  {
    var parts := seq(|g.aggregates|, k requires 0 <= k < |g.aggregates| => AggregateEdge(g.registry, tid, g.aggregates[k]));
    AggregateEdgesFlatten(g, tid, |g.aggregates|, parts);
    at := FlattenPicks(parts);
    hide AggregateEdges, Flatten, AggregateEdge, Mentions, FollowsAggregate, Rising;
    forall k | 0 <= k < |g.aggregates|
      ensures Mentions(g.aggregates[k], tid) <==> |parts[k]| == 1
      ensures |parts[k]| == 1 ==> FollowsAggregate(g.registry, g.aggregates[k], tid, parts[k][0])
    {
      AggregatePart(g.registry, tid, g.aggregates[k]);
    }
  }

  lemma AggregatePart(reg: Registry, tid: TypeId, item: (TypeId, TypeId))
    requires reg.Holds(item.0) && reg.Holds(item.1)
    ensures var part := AggregateEdge(reg, tid, item);
            && (Mentions(item, tid) <==> |part| == 1)
            && (|part| == 1 ==> FollowsAggregate(reg, item, tid, part[0]))
  {
  }

  lemma {:induction false} AggregateEdgesFlatten(g: Graph, tid: TypeId, n: nat, parts: seq<seq<Edge>>)
    requires g.Valid() && |parts| == n <= |g.aggregates|
    requires forall k | 0 <= k < n :: parts[k] == AggregateEdge(g.registry, tid, g.aggregates[k])
    ensures AggregateEdges(g, tid, n) == Flatten(parts)
  {
    hide AggregateEdge, Flatten;
    if n != 0 {
      AggregateEdgesFlatten(g, tid, n - 1, parts[..n - 1]);
      FlattenSnoc(parts[..n - 1], parts[n - 1]);
      assert parts == parts[..n - 1] + [parts[n - 1]];
    } else {
      FlattenLength(parts);
    }
  }

  // ----- The object that gathers -----

  /** The stack of labels and the stack of types describe a real path that leads to `tid`. */
  ghost predicate LeadsTo(net: Net, labels: seq<string>, types: seq<TypeId>, tid: TypeId) {
    && |labels| == |types|
    && NoDuplicates(types)
    && tid < |net|
    && (forall i | 0 <= i < |types| :: types[i] < |net|)
    && forall i | 0 <= i < |types| :: Edge(labels[i], Next(types, i, tid)) in net[types[i]]
  }

  ghost function Next(types: seq<TypeId>, i: nat, tid: TypeId): TypeId {
    if i + 1 < |types| then types[i + 1] else tid
  }

  lemma LeadsOn(net: Net, labels: seq<string>, types: seq<TypeId>, tid: TypeId, e: Edge)
    requires LeadsTo(net, labels, types, tid) && tid !in types && e in net[tid] && e.target < |net|
    ensures LeadsTo(net, labels + [e.tag], types + [tid], e.target)
  {
    var labels', types' := labels + [e.tag], types + [tid];
    forall i | 0 <= i < |types'|
      ensures Edge(labels'[i], Next(types', i, e.target)) in net[types'[i]]
    {
      if i < |types| {
        assert types'[i] == types[i] && Next(types', i, e.target) == Next(types, i, tid);
      }
    }
  }

  class StaticInformation {
    const registry: Registry
    var output: seq<Entry>
    var currentPath: seq<string>
    var alreadyProcessed: seq<TypeId>
    var aggregates: seq<(TypeId, TypeId)>
    var noTids: seq<string>

    ghost predicate Valid()
      reads `aggregates
    {
      TheGraph().Valid()
    }

    ghost function TheGraph(): Graph
      reads `aggregates
    {
      Graph(registry, aggregates)
    }

    constructor (registry: Registry)
      requires registry.Valid()
      ensures this.registry == registry && Valid()
      ensures output == [] && currentPath == [] && alreadyProcessed == [] && aggregates == [] && noTids == []
    {
      this.registry := registry;
      output, currentPath, alreadyProcessed, aggregates, noTids := [], [], [], [], [];
    }

    /** Record an aggregation; a name that is not registered is noted instead, the first of the two only. */
    method RecordAggregationInfo(a: string, b: string)
      requires Valid()
      modifies `aggregates, `noTids
      ensures Valid()
      ensures !registry.Registered(a) ==> noTids == old(noTids) + [a] && aggregates == old(aggregates)
      ensures registry.Registered(a) && !registry.Registered(b) ==>
                noTids == old(noTids) + [b] && aggregates == old(aggregates)
      ensures registry.Registered(a) && registry.Registered(b) ==>
                && noTids == old(noTids)
                && |aggregates| == |old(aggregates)| + 1
                && aggregates[..|old(aggregates)|] == old(aggregates)
                && registry.types[aggregates[|old(aggregates)|].0].name == a
                && registry.types[aggregates[|old(aggregates)|].1].name == b
    {
      var aTid := LookupByName(a);
      if aTid == |registry.types| {
        noTids := noTids + [a];
        return;
      }
      var bTid := LookupByName(b);
      if bTid == |registry.types| {
        noTids := noTids + [b];
        return;
      }
      aggregates := aggregates + [(aTid, bTid)];
    }

    /** The position of the type called `name`, or the number of types when there is none. */
    method LookupByName(name: string) returns (tid: nat)
      ensures tid < |registry.types| ==> registry.types[tid].name == name
      ensures tid >= |registry.types| ==> tid == |registry.types| && !registry.Registered(name)
    {
      for i := 0 to |registry.types|
        invariant forall t | 0 <= t < i :: registry.types[t].name != name
      {
        if registry.types[i].name == name {
          return i;
        }
      }
      return |registry.types|;
    }

    method GetCurrentPath() returns (path: string)
      ensures path == PathString(currentPath)
    {
      path := "";
      for i := 0 to |currentPath|
        invariant path == PathString(currentPath[..i])
      {
        assert currentPath[..i + 1][..i] == currentPath[..i];
        path := path + "/" + currentPath[i];
      }
      assert currentPath[..|currentPath|] == currentPath;
    }

    method RecordOutput(tid: TypeId)
      modifies `output
      ensures output == old(output) + [Entry(tid, PathString(currentPath))]
    {
      var path := GetCurrentPath();
      output := output + [Entry(tid, path)];
    }

    method HasAlreadyBeenProcessed(tid: TypeId) returns (found: bool)
      ensures found <==> tid in alreadyProcessed
    {
      for i := 0 to |alreadyProcessed|
        invariant tid !in alreadyProcessed[..i]
      {
        if alreadyProcessed[i] == tid {
          return true;
        }
      }
      return false;
    }

    method Get(tid: TypeId) returns (paths: seq<string>)
      ensures paths == PathsTo(output, tid)
    {
      paths := [];
      for i := 0 to |output|
        invariant paths == PathsTo(output[..i], tid)
      {
        assert output[..i + 1][..i] == output[..i];
        if output[i].tid == tid {
          paths := paths + [output[i].path];
        }
      }
      assert output[..|output|] == output;
    }

    /** Gather from `tid`.  The duplicates that are removed afterwards are those of a copy. */
    method Gather(tid: TypeId)
      requires Valid() && registry.Holds(tid)
      requires currentPath == [] && alreadyProcessed == []
      modifies `output, `currentPath, `alreadyProcessed
      ensures Valid() && currentPath == [] && alreadyProcessed == []
      ensures output == old(output) + Gathered(NetOf(TheGraph()), tid, [], {})
    {
      assert ToSet(alreadyProcessed) == {};
      DoGather(tid, TheGraph());
    }

    /** Gather from each root in turn, into one list. */
    method GatherAll(roots: seq<TypeId>)
      requires Valid() && forall i | 0 <= i < |roots| :: roots[i] < |registry.types|
      requires currentPath == [] && alreadyProcessed == [] && output == []
      modifies `output, `currentPath, `alreadyProcessed
      ensures Valid() && currentPath == [] && alreadyProcessed == []
      ensures output == GatheredFrom(NetOf(TheGraph()), roots)
    {
      hide Gathered;
      for i := 0 to |roots|
        invariant Valid() && currentPath == [] && alreadyProcessed == []
        invariant output == GatheredFrom(NetOf(TheGraph()), roots[..i])
      {
        assert roots[..i + 1][..i] == roots[..i];
        assert registry.Holds(roots[i]);
        GatheredFromSnoc(NetOf(TheGraph()), roots[..i + 1]);
        Gather(roots[i]);
      }
      assert roots[..|roots|] == roots;
    }

    /** Both stacks come back as they were, and each call, nested ones included, finds them
        describing a path of real edges to the type it is called on. */
    method DoGather(tid: TypeId, ghost g: Graph)
      requires g == TheGraph() && g.Valid()
      requires LeadsTo(NetOf(g), currentPath, alreadyProcessed, tid)
      modifies `output, `currentPath, `alreadyProcessed
      ensures currentPath == old(currentPath) && alreadyProcessed == old(alreadyProcessed)
      ensures output == old(output) + Gathered(NetOf(g), tid, currentPath, ToSet(alreadyProcessed))
      decreases Nodes(NetOf(g)) - ToSet(alreadyProcessed), 1
    {
      var done := HasAlreadyBeenProcessed(tid);
      if done {
        return;
      }
      ghost var net, visited := NetOf(g), ToSet(alreadyProcessed) + {tid};
      RecordOutput(tid);
      ghost var before := output;
      GatherAttributes(tid, g, before);
      ghost var edges := AttributeEdges(registry, registry.types[tid].attributes);
      GatherChildren(tid, g, edges, before);
      edges := edges + ChildEdges(registry, tid, |registry.types|);
      GatherAggregates(tid, g, edges, before);
      ghost var more := GatheredVia(net, net[tid], currentPath, visited);
      assert output == before + more;
      ConcatIsAssociative(old(output), [Entry(tid, PathString(currentPath))], more);
    }

    /** What has been recorded once the edges `edges` of `tid` have been followed. */
    ghost predicate Progress(net: Net, tid: TypeId, edges: seq<Edge>, before: seq<Entry>)
      reads `output, `currentPath, `alreadyProcessed
    {
      && Closed(net) && Targets(|net|, edges)
      && output == before + GatheredVia(net, edges, currentPath, ToSet(alreadyProcessed) + {tid})
    }

    /** The first loop of `DoGather`: pointers, except to the base object type, and containers. */
    method GatherAttributes(tid: TypeId, ghost g: Graph, ghost before: seq<Entry>)
      requires g == TheGraph() && g.Valid() && before == output
      requires LeadsTo(NetOf(g), currentPath, alreadyProcessed, tid) && tid !in alreadyProcessed
      modifies `output, `currentPath, `alreadyProcessed
      ensures currentPath == old(currentPath) && alreadyProcessed == old(alreadyProcessed)
      ensures Progress(NetOf(g), tid, AttributeEdges(registry, registry.types[tid].attributes), before)
      decreases Nodes(NetOf(g)) - ToSet(alreadyProcessed), 0, 1
    {
      ghost var net := NetOf(g);
      ghost var edges: seq<Edge> := [];
      var info := registry.types[tid];
      for i := 0 to |info.attributes|
        invariant currentPath == old(currentPath) && alreadyProcessed == old(alreadyProcessed)
        invariant edges == AttributeEdges(registry, info.attributes[..i])
        invariant Progress(net, tid, edges, before)
      {
        var a := info.attributes[i];
        AttributeEdgesStep(g, tid, i);
        if a.checker.Pointer? {
          if a.checker.pointee == registry.objectType {
            continue;
          }
          assert AttributeEdge(registry, a) == [Edge(a.name, a.checker.pointee)];
          assert AttributeEdge(registry, a)[0] in net[tid];
          Descend(tid, a.name, a.checker.pointee, g, edges, before);
          edges := edges + [Edge(a.name, a.checker.pointee)];
          continue;
        }
        if a.checker.Container? {
          var name := a.name + "/[i]";
          assert AttributeEdge(registry, a) == [Edge(name, a.checker.item)];
          assert AttributeEdge(registry, a)[0] in net[tid];
          Descend(tid, name, a.checker.item, g, edges, before);
          edges := edges + [Edge(name, a.checker.item)];
          continue;
        }
      }
      assert info.attributes[..|info.attributes|] == info.attributes;
    }

    /** The second loop of `DoGather`: the registered descendants of `tid`. */
    method GatherChildren(tid: TypeId, ghost g: Graph, ghost edges: seq<Edge>, ghost before: seq<Entry>)
      requires g == TheGraph() && g.Valid()
      requires LeadsTo(NetOf(g), currentPath, alreadyProcessed, tid) && tid !in alreadyProcessed
      requires Progress(NetOf(g), tid, edges, before)
      modifies `output, `currentPath, `alreadyProcessed
      ensures currentPath == old(currentPath) && alreadyProcessed == old(alreadyProcessed)
      ensures Progress(NetOf(g), tid, edges + ChildEdges(registry, tid, |registry.types|), before)
      decreases Nodes(NetOf(g)) - ToSet(alreadyProcessed), 0, 1
    {
      hide Gathered, GatheredVia, NetOf, PathString;
      ghost var net := NetOf(g);
      ghost var sofar := edges;
      assert edges + [] == edges;
      for j := 0 to |registry.types|
        invariant currentPath == old(currentPath) && alreadyProcessed == old(alreadyProcessed)
        invariant sofar == edges + ChildEdges(registry, tid, j)
        invariant Progress(net, tid, sofar, before)
      {
        ChildEdgesStep(g, tid, j, edges);
        if registry.IsChildOf(j, tid) {
          var childName := "$" + registry.types[j].name;
          Descend(tid, childName, j, g, sofar, before);
          sofar := sofar + [Edge(childName, j)];
        }
      }
    }

    /** The third loop of `DoGather`: the aggregations that mention `tid`. */
    method GatherAggregates(tid: TypeId, ghost g: Graph, ghost edges: seq<Edge>, ghost before: seq<Entry>)
      requires g == TheGraph() && g.Valid()
      requires LeadsTo(NetOf(g), currentPath, alreadyProcessed, tid) && tid !in alreadyProcessed
      requires Progress(NetOf(g), tid, edges, before)
      modifies `output, `currentPath, `alreadyProcessed
      ensures currentPath == old(currentPath) && alreadyProcessed == old(alreadyProcessed)
      ensures Progress(NetOf(g), tid, edges + AggregateEdges(g, tid, |aggregates|), before)
      decreases Nodes(NetOf(g)) - ToSet(alreadyProcessed), 0, 1
    {
      hide Gathered, GatheredVia, NetOf, PathString;
      ghost var net := NetOf(g);
      ghost var sofar := edges;
      assert edges + [] == edges;
      for k := 0 to |aggregates|
        invariant currentPath == old(currentPath) && alreadyProcessed == old(alreadyProcessed)
        invariant sofar == edges + AggregateEdges(g, tid, k)
        invariant Progress(net, tid, sofar, before)
      {
        var item := aggregates[k];
        AggregateEdgesStep(g, tid, k, edges);
        if item.0 == tid || item.1 == tid {
          var other := 0;
          if item.0 == tid {
            other := item.1;
          }
          if item.1 == tid {
            other := item.0;
          }
          var name := "$" + registry.types[other].name;
          Descend(tid, name, other, g, sofar, before);
          sofar := sofar + [Edge(name, other)];
        }
      }
    }

    /** The push, recursive call and pop that the walk repeats for every edge. */
    method Descend(tid: TypeId, tag: string, target: TypeId,
                   ghost g: Graph, ghost edges: seq<Edge>, ghost before: seq<Entry>)
      requires g == TheGraph() && g.Valid()
      requires LeadsTo(NetOf(g), currentPath, alreadyProcessed, tid) && tid !in alreadyProcessed
      requires Edge(tag, target) in NetOf(g)[tid]
      requires Progress(NetOf(g), tid, edges, before)
      modifies `output, `currentPath, `alreadyProcessed
      ensures currentPath == old(currentPath) && alreadyProcessed == old(alreadyProcessed)
      ensures Progress(NetOf(g), tid, edges + [Edge(tag, target)], before)
      decreases Nodes(NetOf(g)) - ToSet(alreadyProcessed), 0, 0
    {
      hide Gathered, GatheredVia, NetOf, PathString;
      ghost var net, path, types, e := NetOf(g), currentPath, alreadyProcessed, Edge(tag, target);
      ghost var done := GatheredVia(net, edges, path, ToSet(types) + {tid});
      ghost var more := Gathered(net, target, path + [tag], ToSet(types) + {tid});
      assert GatheredVia(net, edges + [e], path, ToSet(types) + {tid}) == done + more by {
        GatheredViaSnoc(net, edges, e, path, ToSet(types) + {tid});
      }
      LeadsOn(net, path, types, tid, e);
      currentPath := currentPath + [tag];
      alreadyProcessed := alreadyProcessed + [tid];
      assert ToSet(alreadyProcessed) == ToSet(types) + {tid};
      assert tid in Nodes(net);
      DoGather(target, g);
      ConcatIsAssociative(before, done, more);
      PopUndoesPush(types, tid);
      PopUndoesPush(path, tag);
      alreadyProcessed := alreadyProcessed[..|alreadyProcessed| - 1];
      currentPath := currentPath[..|currentPath| - 1];
    }
  }

  lemma ConcatIsAssociative<T>(a: seq<T>, b: seq<T>, c: seq<T>)
    ensures (a + b) + c == a + (b + c)
  {
  }

  lemma PopUndoesPush<T>(s: seq<T>, x: T)
    ensures (s + [x])[..|s + [x]| - 1] == s
  {
  }

  // One step of each loop, on the list of edges followed so far.

  lemma AttributeEdgesStep(g: Graph, tid: TypeId, i: nat)
    requires g.Valid() && g.registry.Holds(tid) && i < |g.registry.types[tid].attributes|
    ensures var attributes := g.registry.types[tid].attributes;
            AttributeEdges(g.registry, attributes[..i + 1]) ==
            AttributeEdges(g.registry, attributes[..i]) + AttributeEdge(g.registry, attributes[i])
    ensures forall e | e in AttributeEdge(g.registry, g.registry.types[tid].attributes[i]) :: e in NetOf(g)[tid]
  {
    var attributes := g.registry.types[tid].attributes;
    assert attributes[..i + 1][..i] == attributes[..i];
    forall e | e in AttributeEdge(g.registry, attributes[i])
      ensures e in Edges(g, tid)
    {
      EdgesAreLinks(g, tid, e);
    }
  }

  lemma ChildEdgesStep(g: Graph, tid: TypeId, j: nat, edges: seq<Edge>)
    requires g.Valid() && g.registry.Holds(tid) && j < |g.registry.types|
    ensures var e := Edge("$" + g.registry.types[j].name, j);
            if g.registry.IsChildOf(j, tid)
            then
              && e in NetOf(g)[tid]
              && edges + ChildEdges(g.registry, tid, j + 1) == edges + ChildEdges(g.registry, tid, j) + [e]
            else ChildEdges(g.registry, tid, j + 1) == ChildEdges(g.registry, tid, j)
  {
    EdgesAreLinks(g, tid, Edge("$" + g.registry.types[j].name, j));
  }

  lemma AggregateEdgesStep(g: Graph, tid: TypeId, k: nat, edges: seq<Edge>)
    requires g.Valid() && g.registry.Holds(tid) && k < |g.aggregates|
    ensures var more := AggregateEdge(g.registry, tid, g.aggregates[k]);
            && edges + AggregateEdges(g, tid, k + 1) == edges + AggregateEdges(g, tid, k) + more
            && forall e | e in more :: e in NetOf(g)[tid]
  {
    var item := g.aggregates[k];
    assert (item.0, item.1) in g.aggregates;
    forall e | e in AggregateEdge(g.registry, tid, item)
      ensures e in Edges(g, tid)
    {
      EdgesAreLinks(g, tid, e);
    }
  }
}
