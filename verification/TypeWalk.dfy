/** The walk over the graph of registered types that lists every configuration path to every type. */
module TypeWalk {
  import opened Sequences

  type TypeId = nat

  /** What the walk looks at in an attribute: whether its checker is for a pointer or for a container of objects. */
  datatype Attribute =
    | PointerTo(name: string, pointee: TypeId)
    | ContainerOf(name: string, item: TypeId)
    | Other(name: string)

  /** The type system as the walk finds it. */
  datatype Registry = Registry(
    names: map<TypeId, string>,
    attributes: map<TypeId, seq<Attribute>>,
    registered: seq<TypeId>,
    childOf: set<(TypeId, TypeId)>,
    objectType: TypeId,
    aggregates: seq<(TypeId, TypeId)>)

  datatype Edge = Edge(segment: string, target: TypeId)

  datatype Record = Record(tid: TypeId, path: string)

  /** Every type that is mentioned anywhere has a name and a list of attributes. */
  predicate Closed(g: Registry) {
    && g.attributes.Keys == g.names.Keys
    && (forall t, i :: t in g.attributes && 0 <= i < |g.attributes[t]| ==>
          match g.attributes[t][i]
          case PointerTo(_, pointee) => pointee in g.names
          case ContainerOf(_, item) => item in g.names
          case Other(_) => true)
    && (forall i :: 0 <= i < |g.registered| ==> g.registered[i] in g.names)
    && (forall i :: 0 <= i < |g.aggregates| ==> g.aggregates[i].0 in g.names && g.aggregates[i].1 in g.names)
  }

  // ---------------------------------------------------------------- the graph

  ghost function AttributeEdge(g: Registry, a: Attribute): seq<Edge> {
    match a
    case PointerTo(name, pointee) => if pointee == g.objectType then [] else [Edge(name, pointee)]
    case ContainerOf(name, item) => [Edge(name + "/[i]", item)]
    case Other(_) => []
  }

  ghost function AttributeEdges(g: Registry, attributes: seq<Attribute>): seq<Edge> {
    if attributes == [] then []
    else AttributeEdges(g, attributes[..|attributes| - 1]) + AttributeEdge(g, attributes[|attributes| - 1])
  }

  ghost function ChildEdges(g: Registry, tid: TypeId, registered: seq<TypeId>): seq<Edge>
    requires forall i :: 0 <= i < |registered| ==> registered[i] in g.names
  {
    if registered == [] then []
    else
      var child := registered[|registered| - 1];
      ChildEdges(g, tid, registered[..|registered| - 1])
      + if (child, tid) in g.childOf then [Edge("$" + g.names[child], child)] else []
  }

  /** The other end of an aggregation; of a type aggregated to itself, the type. */
  function OtherEnd(pair: (TypeId, TypeId), tid: TypeId): TypeId {
    if pair.1 == tid then pair.0 else pair.1
  }

  ghost function AggregateEdges(g: Registry, tid: TypeId, aggregates: seq<(TypeId, TypeId)>): seq<Edge>
    requires forall i :: 0 <= i < |aggregates| ==> aggregates[i].0 in g.names && aggregates[i].1 in g.names
  {
    if aggregates == [] then []
    else
      var pair := aggregates[|aggregates| - 1];
      AggregateEdges(g, tid, aggregates[..|aggregates| - 1])
      + if pair.0 == tid || pair.1 == tid then [Edge("$" + g.names[OtherEnd(pair, tid)], OtherEnd(pair, tid))] else []
  }

  /** The edges out of a type, in the order in which the walk follows them. */
  ghost function Edges(g: Registry, tid: TypeId): seq<Edge>
    requires Closed(g) && tid in g.names
  {
    AttributeEdges(g, g.attributes[tid]) + ChildEdges(g, tid, g.registered) + AggregateEdges(g, tid, g.aggregates)
  }

  /** An attribute leads along an edge: a pointer to anything but Object by its name, a container by its name and an
      index. */
  ghost predicate AttributeLeads(g: Registry, a: Attribute, e: Edge) {
    || (a == PointerTo(e.segment, e.target) && e.target != g.objectType)
    || (a.ContainerOf? && a.item == e.target && e.segment == a.name + "/[i]")
  }

  lemma {:induction false} AttributeMember(g: Registry, attributes: seq<Attribute>, e: Edge)
    ensures e in AttributeEdges(g, attributes)
            <==> exists i :: 0 <= i < |attributes| && AttributeLeads(g, attributes[i], e)
  {
    if attributes != [] {
      var front := attributes[..|attributes| - 1];
      AttributeMember(g, front, e);
      assert forall i :: 0 <= i < |front| ==> front[i] == attributes[i];
    }
  }

  lemma {:induction false} ChildMember(g: Registry, tid: TypeId, registered: seq<TypeId>, e: Edge)
    requires forall i :: 0 <= i < |registered| ==> registered[i] in g.names
    ensures e in ChildEdges(g, tid, registered)
            <==> e.target in registered && (e.target, tid) in g.childOf && e.segment == "$" + g.names[e.target]
  {
    if registered != [] {
      var front := registered[..|registered| - 1];
      ChildMember(g, tid, front, e);
      assert e.target in registered <==> e.target in front || e.target == registered[|registered| - 1];
    }
  }

  lemma {:induction false} AggregateMember(g: Registry, tid: TypeId, aggregates: seq<(TypeId, TypeId)>, e: Edge)
    requires forall i :: 0 <= i < |aggregates| ==> aggregates[i].0 in g.names && aggregates[i].1 in g.names
    ensures e in AggregateEdges(g, tid, aggregates)
            <==> ((tid, e.target) in aggregates || (e.target, tid) in aggregates)
                 && e.segment == "$" + g.names[e.target]
  {
    if aggregates != [] {
      var front, last := aggregates[..|aggregates| - 1], aggregates[|aggregates| - 1];
      AggregateMember(g, tid, front, e);
      assert forall pair :: pair in aggregates <==> pair in front || pair == last;
    }
  }

  /** Edges come in the order of what they are made from. */
  lemma {:induction false} AttributeOrder(g: Registry, a: seq<Attribute>, b: seq<Attribute>)
    ensures AttributeEdges(g, a + b) == AttributeEdges(g, a) + AttributeEdges(g, b)
  {
    if b == [] {
      AppendNothing(a);
    } else {
      var front, x := b[..|b| - 1], b[|b| - 1];
      AttributeOrder(g, a, front);
      assert (a + b)[..|a + b| - 1] == a + front;
      Associates(AttributeEdges(g, a), AttributeEdges(g, front), AttributeEdge(g, x));
    }
  }

  lemma {:induction false} ChildOrder(g: Registry, tid: TypeId, a: seq<TypeId>, b: seq<TypeId>)
    requires forall i :: 0 <= i < |a + b| ==> (a + b)[i] in g.names
    requires forall i :: 0 <= i < |a| ==> a[i] in g.names
    requires forall i :: 0 <= i < |b| ==> b[i] in g.names
    ensures ChildEdges(g, tid, a + b) == ChildEdges(g, tid, a) + ChildEdges(g, tid, b)
  {
    if b == [] {
      AppendNothing(a);
    } else {
      var front, x := b[..|b| - 1], b[|b| - 1];
      assert (a + b)[..|a + b| - 1] == a + front;
      ChildOrder(g, tid, a, front);
      Associates(ChildEdges(g, tid, a), ChildEdges(g, tid, front),
                 if (x, tid) in g.childOf then [Edge("$" + g.names[x], x)] else []);
    }
  }

  lemma {:induction false} AggregateOrder(g: Registry, tid: TypeId, a: seq<(TypeId, TypeId)>,
                                          b: seq<(TypeId, TypeId)>)
    requires forall i :: 0 <= i < |a + b| ==> (a + b)[i].0 in g.names && (a + b)[i].1 in g.names
    requires forall i :: 0 <= i < |a| ==> a[i].0 in g.names && a[i].1 in g.names
    requires forall i :: 0 <= i < |b| ==> b[i].0 in g.names && b[i].1 in g.names
    ensures AggregateEdges(g, tid, a + b) == AggregateEdges(g, tid, a) + AggregateEdges(g, tid, b)
  {
    if b == [] {
      AppendNothing(a);
    } else {
      var front, pair := b[..|b| - 1], b[|b| - 1];
      assert (a + b)[..|a + b| - 1] == a + front;
      AggregateOrder(g, tid, a, front);
      Associates(AggregateEdges(g, tid, a), AggregateEdges(g, tid, front),
                 if pair.0 != tid && pair.1 != tid then []
                 else [Edge("$" + g.names[OtherEnd(pair, tid)], OtherEnd(pair, tid))]);
    }
  }

  /** Where the edges out of a type lead: along its attributes, to its registered children, and to the types it is
      aggregated with, on whichever side. */
  lemma EdgeIff(g: Registry, tid: TypeId, e: Edge)
    requires Closed(g) && tid in g.names
    ensures e in Edges(g, tid) <==>
              || (exists i :: 0 <= i < |g.attributes[tid]| && AttributeLeads(g, g.attributes[tid][i], e))
              || (e.target in g.registered && (e.target, tid) in g.childOf && e.segment == "$" + g.names[e.target])
              || (((tid, e.target) in g.aggregates || (e.target, tid) in g.aggregates)
                  && e.segment == "$" + g.names[e.target])
  {
    AttributeMember(g, g.attributes[tid], e);
    ChildMember(g, tid, g.registered, e);
    AggregateMember(g, tid, g.aggregates, e);
  }

  ghost predicate TargetsKnown(g: Registry, es: seq<Edge>) {
    forall i :: 0 <= i < |es| ==> es[i].target in g.names
  }

  lemma {:induction false} AttributeTargets(g: Registry, attributes: seq<Attribute>)
    requires forall i :: 0 <= i < |attributes| ==>
               match attributes[i]
               case PointerTo(_, pointee) => pointee in g.names
               case ContainerOf(_, item) => item in g.names
               case Other(_) => true
    ensures TargetsKnown(g, AttributeEdges(g, attributes))
  {
    if attributes != [] {
      AttributeTargets(g, attributes[..|attributes| - 1]);
    }
  }

  lemma {:induction false} ChildTargets(g: Registry, tid: TypeId, registered: seq<TypeId>)
    requires forall i :: 0 <= i < |registered| ==> registered[i] in g.names
    ensures TargetsKnown(g, ChildEdges(g, tid, registered))
  {
    if registered != [] {
      ChildTargets(g, tid, registered[..|registered| - 1]);
    }
  }

  lemma {:induction false} AggregateTargets(g: Registry, tid: TypeId, aggregates: seq<(TypeId, TypeId)>)
    requires forall i :: 0 <= i < |aggregates| ==> aggregates[i].0 in g.names && aggregates[i].1 in g.names
    ensures TargetsKnown(g, AggregateEdges(g, tid, aggregates))
  {
    if aggregates != [] {
      AggregateTargets(g, tid, aggregates[..|aggregates| - 1]);
    }
  }

  lemma EdgeTargets(g: Registry, tid: TypeId)
    requires Closed(g) && tid in g.names
    ensures TargetsKnown(g, Edges(g, tid))
  {
    AttributeTargets(g, g.attributes[tid]);
    ChildTargets(g, tid, g.registered);
    AggregateTargets(g, tid, g.aggregates);
  }

  // ---------------------------------------------------------------- what the walk appends

  function Joined(path: seq<string>): string {
    if path == [] then "" else Joined(path[..|path| - 1]) + "/" + path[|path| - 1]
  }

  /** The labels in order, each after a slash. */
  lemma {:induction false} JoinedInOrder(a: seq<string>, b: seq<string>)
    ensures Joined([]) == "" && forall x :: Joined([x]) == "/" + x
    ensures Joined(a + b) == Joined(a) + Joined(b)
  {
    if b == [] {
      AppendNothing(a);
    } else {
      var front, x := b[..|b| - 1], b[|b| - 1];
      JoinedInOrder(a, front);
      assert (a + b)[..|a + b| - 1] == a + front;
      Associates(Joined(a), Joined(front) + "/", x);
      Associates(Joined(a), Joined(front), "/");
    }
  }

  ghost function InProgress(progress: seq<TypeId>): set<TypeId> {
    set t | t in progress
  }

  ghost function Gathered(g: Registry, tid: TypeId, progress: seq<TypeId>, path: seq<string>): seq<Record>
    requires Closed(g) && tid in g.names
    decreases g.names.Keys - InProgress(progress), |Edges(g, tid)| + 1
  {
    if tid in progress then []
    else
      EdgeTargets(g, tid);
      [Record(tid, Joined(path))] + GatheredAlong(g, tid, progress, path, Edges(g, tid))
  }

  /** What is appended while the given edges out of tid are followed. */
  ghost function GatheredAlong(g: Registry, tid: TypeId, progress: seq<TypeId>, path: seq<string>,
                               es: seq<Edge>): seq<Record>
    requires Closed(g) && tid in g.names && tid !in progress && TargetsKnown(g, es)
    decreases g.names.Keys - InProgress(progress), |es|
  {
    if es == [] then []
    else
      var e := es[|es| - 1];
      PushShrinks(g, tid, progress);
      GatheredAlong(g, tid, progress, path, es[..|es| - 1])
      + Gathered(g, e.target, progress + [tid], path + [e.segment])
  }

  lemma PushShrinks(g: Registry, tid: TypeId, progress: seq<TypeId>)
    requires tid in g.names && tid !in progress
    ensures g.names.Keys - InProgress(progress + [tid]) < g.names.Keys - InProgress(progress)
  {
    assert InProgress(progress + [tid]) == InProgress(progress) + {tid};
    assert tid in g.names.Keys - InProgress(progress);
  }

  // ---------------------------------------------------------------- paths, independently of the walk

  /** p picks, by index, an edge out of each type it passes through, starting at tid. */
  ghost predicate IsPath(g: Registry, tid: TypeId, p: seq<nat>)
    requires Closed(g) && tid in g.names
    decreases |p|
  {
    EdgeTargets(g, tid);
    p == [] || (p[0] < |Edges(g, tid)| && IsPath(g, Edges(g, tid)[p[0]].target, p[1..]))
  }

  /** The types p passes through, tid first. */
  ghost function Trail(g: Registry, tid: TypeId, p: seq<nat>): seq<TypeId>
    requires Closed(g) && tid in g.names && IsPath(g, tid, p)
    decreases |p|
  {
    EdgeTargets(g, tid);
    [tid] + if p == [] then [] else Trail(g, Edges(g, tid)[p[0]].target, p[1..])
  }

  ghost function Labels(g: Registry, tid: TypeId, p: seq<nat>): seq<string>
    requires Closed(g) && tid in g.names && IsPath(g, tid, p)
    decreases |p|
  {
    EdgeTargets(g, tid);
    if p == [] then []
    else [Edges(g, tid)[p[0]].segment] + Labels(g, Edges(g, tid)[p[0]].target, p[1..])
  }

  /** A path that passes through no type twice and through none in progress. */
  ghost predicate SimplePath(g: Registry, tid: TypeId, progress: seq<TypeId>, p: seq<nat>)
    requires Closed(g) && tid in g.names
  {
    IsPath(g, tid, p) && Distinct(Trail(g, tid, p)) && forall t :: t in Trail(g, tid, p) ==> t !in progress
  }

  /** The record for a path: the type it ends at, and its labels after those that lead to tid. */
  ghost function RecordOf(g: Registry, tid: TypeId, path: seq<string>, p: seq<nat>): Record
    requires Closed(g) && tid in g.names && IsPath(g, tid, p)
  {
    var trail := Trail(g, tid, p);
    Record(trail[|trail| - 1], Joined(path + Labels(g, tid, p)))
  }

  // ---------------------------------------------------------------- one record per simple path

  ghost function Prefixed(k: nat, paths: seq<seq<nat>>): seq<seq<nat>> {
    seq(|paths|, i requires 0 <= i < |paths| => [k] + paths[i])
  }

  /** The simple paths in the order of the walk. */
  ghost function Paths(g: Registry, tid: TypeId, progress: seq<TypeId>): seq<seq<nat>>
    requires Closed(g) && tid in g.names
    decreases g.names.Keys - InProgress(progress), |Edges(g, tid)| + 1
  {
    if tid in progress then []
    else
      EdgeTargets(g, tid);
      [[]] + PathsAlong(g, tid, progress, Edges(g, tid))
  }

  ghost function PathsAlong(g: Registry, tid: TypeId, progress: seq<TypeId>, es: seq<Edge>): seq<seq<nat>>
    requires Closed(g) && tid in g.names && tid !in progress && TargetsKnown(g, es)
    decreases g.names.Keys - InProgress(progress), |es|
  {
    if es == [] then []
    else
      var e := es[|es| - 1];
      PushShrinks(g, tid, progress);
      PathsAlong(g, tid, progress, es[..|es| - 1]) + Prefixed(|es| - 1, Paths(g, e.target, progress + [tid]))
  }

  lemma {:induction false} PathsAreSimple(g: Registry, tid: TypeId, progress: seq<TypeId>, p: seq<nat>)
    requires Closed(g) && tid in g.names
    ensures p in Paths(g, tid, progress) <==> SimplePath(g, tid, progress, p)
    decreases g.names.Keys - InProgress(progress), |Edges(g, tid)| + 1
  {
    EdgeTargets(g, tid);
    if tid in progress {
      assert IsPath(g, tid, p) ==> tid in Trail(g, tid, p);
    } else {
      var es := Edges(g, tid);
      PathsAlongMembers(g, tid, progress, es, p);
      if p == [] {
        assert [[]][0] == p;
        assert p in Paths(g, tid, progress);
      } else if p[0] < |es| {
        PushShrinks(g, tid, progress);
        PathsAreSimple(g, es[p[0]].target, progress + [tid], p[1..]);
        SimpleTail(g, tid, progress, p);
      }
    }
  }

  /** Removing the first edge of a simple path leaves one that also avoids the first type. */
  lemma SimpleTail(g: Registry, tid: TypeId, progress: seq<TypeId>, p: seq<nat>)
    requires Closed(g) && tid in g.names && tid !in progress
    requires p != [] && p[0] < |Edges(g, tid)| && TargetsKnown(g, Edges(g, tid))
    ensures SimplePath(g, tid, progress, p) <==> SimplePath(g, Edges(g, tid)[p[0]].target, progress + [tid], p[1..])
  {
    var next := Edges(g, tid)[p[0]].target;
    if IsPath(g, tid, p) {
      var trail, rest := Trail(g, tid, p), Trail(g, next, p[1..]);
      assert trail == [tid] + rest;
      DistinctCons(tid, rest);
      assert forall t :: t in trail <==> t == tid || t in rest;
      assert forall t :: t in progress + [tid] <==> t in progress || t == tid;
    }
  }

  lemma {:induction false} PathsAlongMembers(g: Registry, tid: TypeId, progress: seq<TypeId>, es: seq<Edge>,
                                             p: seq<nat>)
    requires Closed(g) && tid in g.names && tid !in progress && TargetsKnown(g, es)
    ensures p in PathsAlong(g, tid, progress, es)
            <==> p != [] && p[0] < |es| && p[1..] in Paths(g, es[p[0]].target, progress + [tid])
    decreases |es|
  {
    if es != [] {
      var front, k := es[..|es| - 1], |es| - 1;
      PathsAlongMembers(g, tid, progress, front, p);
      PrefixedMembers(k, Paths(g, es[k].target, progress + [tid]), p);
    }
  }

  lemma PrefixedMembers(k: nat, paths: seq<seq<nat>>, p: seq<nat>)
    ensures p in Prefixed(k, paths) <==> p != [] && p[0] == k && p[1..] in paths
  {
    if p in Prefixed(k, paths) {
      var i :| 0 <= i < |paths| && Prefixed(k, paths)[i] == p;
      assert p[1..] == paths[i];
    }
    if p != [] && p[0] == k && p[1..] in paths {
      var i :| 0 <= i < |paths| && paths[i] == p[1..];
      assert p == [k] + p[1..] && Prefixed(k, paths)[i] == [k] + paths[i];
    }
  }

  lemma DistinctPrefixed(k: nat, paths: seq<seq<nat>>)
    requires Distinct(paths)
    ensures Distinct(Prefixed(k, paths))
  {
    var s := Prefixed(k, paths);
    forall i, j | 0 <= i < j < |s|
      ensures s[i] != s[j]
    {
      assert s[i][1..] == paths[i] && s[j][1..] == paths[j];
    }
  }

  lemma {:induction false} PathsDistinct(g: Registry, tid: TypeId, progress: seq<TypeId>)
    requires Closed(g) && tid in g.names
    ensures Distinct(Paths(g, tid, progress))
    decreases g.names.Keys - InProgress(progress), |Edges(g, tid)| + 1
  {
    if tid !in progress {
      EdgeTargets(g, tid);
      var es := Edges(g, tid);
      PathsAlongDistinct(g, tid, progress, es);
      PathsAlongMembers(g, tid, progress, es, []);
      assert forall i :: 0 <= i < |PathsAlong(g, tid, progress, es)| ==> PathsAlong(g, tid, progress, es)[i] != [];
    }
  }

  lemma {:induction false} PathsAlongDistinct(g: Registry, tid: TypeId, progress: seq<TypeId>, es: seq<Edge>)
    requires Closed(g) && tid in g.names && tid !in progress && TargetsKnown(g, es)
    ensures Distinct(PathsAlong(g, tid, progress, es))
    decreases g.names.Keys - InProgress(progress), |es|
  {
    if es != [] {
      var front, k := es[..|es| - 1], |es| - 1;
      PathsAlongDistinct(g, tid, progress, front);
      PushShrinks(g, tid, progress);
      var paths := Paths(g, es[k].target, progress + [tid]);
      PathsDistinct(g, es[k].target, progress + [tid]);
      DistinctPrefixed(k, paths);
      forall p | p in Prefixed(k, paths)
        ensures p !in PathsAlong(g, tid, progress, front)
      {
        PrefixedMembers(k, paths, p);
        PathsAlongMembers(g, tid, progress, front, p);
      }
      DistinctAppend(PathsAlong(g, tid, progress, front), Prefixed(k, paths));
    }
  }

  ghost predicate RecordsMatch(g: Registry, tid: TypeId, path: seq<string>, paths: seq<seq<nat>>, records: seq<Record>)
    requires Closed(g) && tid in g.names
  {
    && |records| == |paths|
    && forall i :: 0 <= i < |paths| ==> IsPath(g, tid, paths[i]) && records[i] == RecordOf(g, tid, path, paths[i])
  }

  /** The walk's records are those of the simple paths, in order. */
  lemma {:induction false} RecordsAreOfPaths(g: Registry, tid: TypeId, progress: seq<TypeId>, path: seq<string>)
    requires Closed(g) && tid in g.names
    ensures RecordsMatch(g, tid, path, Paths(g, tid, progress), Gathered(g, tid, progress, path))
    decreases g.names.Keys - InProgress(progress), |Edges(g, tid)| + 1
  {
    if tid !in progress {
      EdgeTargets(g, tid);
      RecordsAlong(g, tid, progress, path, Edges(g, tid));
      assert path + Labels(g, tid, []) == path;
    }
  }

  lemma {:induction false} RecordsAlong(g: Registry, tid: TypeId, progress: seq<TypeId>, path: seq<string>,
                                        es: seq<Edge>)
    requires Closed(g) && tid in g.names && tid !in progress && TargetsKnown(g, es) && es <= Edges(g, tid)
    ensures RecordsMatch(g, tid, path, PathsAlong(g, tid, progress, es), GatheredAlong(g, tid, progress, path, es))
    decreases g.names.Keys - InProgress(progress), |es|
  {
    if es != [] {
      var front, k, e := es[..|es| - 1], |es| - 1, es[|es| - 1];
      RecordsAlong(g, tid, progress, path, front);
      PushShrinks(g, tid, progress);
      RecordsAreOfPaths(g, e.target, progress + [tid], path + [e.segment]);
      RecordsPrefixed(g, tid, path, k, Paths(g, e.target, progress + [tid]),
                      Gathered(g, e.target, progress + [tid], path + [e.segment]));
    }
  }

  lemma RecordsPrefixed(g: Registry, tid: TypeId, path: seq<string>, k: nat, paths: seq<seq<nat>>, records: seq<Record>)
    requires Closed(g) && tid in g.names && k < |Edges(g, tid)| && Edges(g, tid)[k].target in g.names
    requires RecordsMatch(g, Edges(g, tid)[k].target, path + [Edges(g, tid)[k].segment], paths, records)
    ensures RecordsMatch(g, tid, path, Prefixed(k, paths), records)
  {
    EdgeTargets(g, tid);
    forall i | 0 <= i < |paths|
      ensures IsPath(g, tid, [k] + paths[i]) && records[i] == RecordOf(g, tid, path, [k] + paths[i])
    {
      RecordOfStep(g, tid, path, k, paths[i]);
    }
  }

  lemma RecordOfStep(g: Registry, tid: TypeId, path: seq<string>, k: nat, p: seq<nat>)
    requires Closed(g) && tid in g.names && k < |Edges(g, tid)| && TargetsKnown(g, Edges(g, tid))
    requires IsPath(g, Edges(g, tid)[k].target, p)
    ensures IsPath(g, tid, [k] + p)
    ensures RecordOf(g, tid, path, [k] + p)
         == RecordOf(g, Edges(g, tid)[k].target, path + [Edges(g, tid)[k].segment], p)
  {
    var e, q := Edges(g, tid)[k], [k] + p;
    assert q[1..] == p;
    assert Trail(g, tid, q) == [tid] + Trail(g, e.target, p);
    assert Labels(g, tid, q) == [e.segment] + Labels(g, e.target, p);
    Associates(path, [e.segment], Labels(g, e.target, p));
  }

  /** The record of a path that is extended by an edge: the edge's label after a slash, and the type it leads to. */
  lemma {:induction false} RecordOfLonger(g: Registry, tid: TypeId, path: seq<string>, p: seq<nat>, k: nat)
    requires Closed(g) && tid in g.names && IsPath(g, tid, p)
    ensures var r := RecordOf(g, tid, path, p);
            r.tid in g.names && (k < |Edges(g, r.tid)| ==>
              IsPath(g, tid, p + [k])
              && RecordOf(g, tid, path, p + [k])
                 == Record(Edges(g, r.tid)[k].target, r.path + "/" + Edges(g, r.tid)[k].segment))
    ensures p == [] ==> RecordOf(g, tid, path, p) == Record(tid, Joined(path))
    decreases |p|
  {
    EdgeTargets(g, tid);
    if p == [] {
      AppendNothing(path);
      if k < |Edges(g, tid)| {
        FirstEdge(g, tid, path, k);
      }
    } else {
      var e := Edges(g, tid)[p[0]];
      RecordOfLonger(g, e.target, path + [e.segment], p[1..], k);
      RecordOfStep(g, tid, path, p[0], p[1..]);
      assert p == [p[0]] + p[1..] && p + [k] == [p[0]] + (p[1..] + [k]);
      if k < |Edges(g, RecordOf(g, e.target, path + [e.segment], p[1..]).tid)| {
        RecordOfStep(g, tid, path, p[0], p[1..] + [k]);
      }
    }
  }

  lemma FirstEdge(g: Registry, tid: TypeId, path: seq<string>, k: nat)
    requires Closed(g) && tid in g.names && k < |Edges(g, tid)| && TargetsKnown(g, Edges(g, tid))
    ensures IsPath(g, tid, [] + [k])
    ensures RecordOf(g, tid, path, [] + [k])
         == Record(Edges(g, tid)[k].target, Joined(path) + "/" + Edges(g, tid)[k].segment)
  {
    var e := Edges(g, tid)[k];
    assert IsPath(g, e.target, []);
    RecordOfStep(g, tid, path, k, []);
    AppendNothing(path + [e.segment]);
    assert (path + [e.segment])[..|path|] == path && [] + [k] == [k] + [];
  }

  /** The walk from tid appends exactly one record for each simple path from tid that avoids the types in progress,
      whatever cycles the graph has. */
  lemma OneRecordPerSimplePath(g: Registry, tid: TypeId, progress: seq<TypeId>, path: seq<string>)
    requires Closed(g) && tid in g.names
    ensures var paths, records := Paths(g, tid, progress), Gathered(g, tid, progress, path);
            && Distinct(paths)
            && (forall p :: p in paths <==> SimplePath(g, tid, progress, p))
            && RecordsMatch(g, tid, path, paths, records)
  {
    PathsDistinct(g, tid, progress);
    RecordsAreOfPaths(g, tid, progress, path);
    forall p
      ensures p in Paths(g, tid, progress) <==> SimplePath(g, tid, progress, p)
    {
      PathsAreSimple(g, tid, progress, p);
    }
  }

  lemma GatheredAlongStep(g: Registry, tid: TypeId, progress: seq<TypeId>, path: seq<string>, es: seq<Edge>, e: Edge)
    requires Closed(g) && tid in g.names && tid !in progress && TargetsKnown(g, es) && e.target in g.names
    ensures TargetsKnown(g, es + [e])
    ensures GatheredAlong(g, tid, progress, path, es + [e])
         == GatheredAlong(g, tid, progress, path, es) + Gathered(g, e.target, progress + [tid], path + [e.segment])
  {
    assert (es + [e])[..|es|] == es;
  }

  lemma AttributeEdgesStep(g: Registry, attributes: seq<Attribute>, i: nat)
    requires i < |attributes|
    ensures AttributeEdges(g, attributes[..i + 1])
         == AttributeEdges(g, attributes[..i]) + AttributeEdge(g, attributes[i])
    ensures AttributeEdges(g, attributes[..i]) + [] == AttributeEdges(g, attributes[..i])
  {
    assert attributes[..i + 1][..i] == attributes[..i];
  }

  lemma ChildEdgesStep(g: Registry, tid: TypeId, registered: seq<TypeId>, j: nat, start: seq<Edge>)
    requires j < |registered| && forall i :: 0 <= i < |registered| ==> registered[i] in g.names
    ensures var edges, child := start + ChildEdges(g, tid, registered[..j]), registered[j];
            start + ChildEdges(g, tid, registered[..j + 1])
            == if (child, tid) in g.childOf then edges + [Edge("$" + g.names[child], child)] else edges
  {
    var child := registered[j];
    assert registered[..j + 1][..j] == registered[..j];
    Associates(start, ChildEdges(g, tid, registered[..j]), [Edge("$" + g.names[child], child)]);
    AppendNothing(ChildEdges(g, tid, registered[..j]));
  }

  lemma AggregateEdgesStep(g: Registry, tid: TypeId, aggregates: seq<(TypeId, TypeId)>, k: nat, start: seq<Edge>)
    requires k < |aggregates|
    requires forall i :: 0 <= i < |aggregates| ==> aggregates[i].0 in g.names && aggregates[i].1 in g.names
    ensures var edges, pair := start + AggregateEdges(g, tid, aggregates[..k]), aggregates[k];
            start + AggregateEdges(g, tid, aggregates[..k + 1])
            == if pair.0 == tid || pair.1 == tid
               then edges + [Edge("$" + g.names[OtherEnd(pair, tid)], OtherEnd(pair, tid))]
               else edges
  {
    var other := OtherEnd(aggregates[k], tid);
    assert aggregates[..k + 1][..k] == aggregates[..k];
    Associates(start, AggregateEdges(g, tid, aggregates[..k]), [Edge("$" + g.names[other], other)]);
    AppendNothing(AggregateEdges(g, tid, aggregates[..k]));
  }

  lemma GatheredIs(g: Registry, tid: TypeId, progress: seq<TypeId>, path: seq<string>)
    requires Closed(g) && tid in g.names && tid !in progress && TargetsKnown(g, Edges(g, tid))
    ensures Gathered(g, tid, progress, path)
         == [Record(tid, Joined(path))] + GatheredAlong(g, tid, progress, path, Edges(g, tid))
  {}

  // ---------------------------------------------------------------- the program's own form

  class StaticInformation {
    const registry: Registry
    var output: seq<Record>
    var currentPath: seq<string>
    var alreadyProcessed: seq<TypeId>

    constructor (g: Registry)
      ensures registry == g && output == [] && currentPath == [] && alreadyProcessed == []
    {
      registry := g;
      output, currentPath, alreadyProcessed := [], [], [];
    }

    method GetCurrentPath() returns (path: string)
      ensures path == Joined(currentPath)
    {
      path := "";
      for i := 0 to |currentPath|
        invariant path == Joined(currentPath[..i])
      {
        assert currentPath[..i + 1][..i] == currentPath[..i];
        path := path + "/" + currentPath[i];
      }
      assert currentPath[..|currentPath|] == currentPath;
    }

    method RecordOutput(tid: TypeId)
      modifies this`output
      ensures output == old(output) + [Record(tid, Joined(currentPath))]
    {
      var path := GetCurrentPath();
      output := output + [Record(tid, path)];
    }

    method HasAlreadyBeenProcessed(tid: TypeId) returns (found: bool)
      ensures found <==> tid in alreadyProcessed
    {
      for i := 0 to |alreadyProcessed|
        invariant tid !in alreadyProcessed[..i]
      {
        if alreadyProcessed[i] == tid {
          return true;
        }
      }
      return false;
    }

    /** Follows one edge: pushes the label and the type, gathers, and pops both again. */
    method Follow(tid: TypeId, ghost es: seq<Edge>, ghost before: seq<Record>, segment: string, target: TypeId)
      requires Closed(registry) && tid in registry.names && target in registry.names && tid !in alreadyProcessed
      requires TargetsKnown(registry, es)
      requires output == before + GatheredAlong(registry, tid, alreadyProcessed, currentPath, es)
      modifies this
      ensures currentPath == old(currentPath) && alreadyProcessed == old(alreadyProcessed)
      ensures TargetsKnown(registry, es + [Edge(segment, target)])
      ensures output
              == before + GatheredAlong(registry, tid, alreadyProcessed, currentPath, es + [Edge(segment, target)])
      decreases registry.names.Keys - InProgress(alreadyProcessed), 0
    {
      ghost var path, progress := currentPath, alreadyProcessed;
      PushShrinks(registry, tid, progress);
      currentPath := currentPath + [segment];
      alreadyProcessed := alreadyProcessed + [tid];
      DoGather(target);
      alreadyProcessed := alreadyProcessed[..|alreadyProcessed| - 1];
      currentPath := currentPath[..|currentPath| - 1];
      DropPushed(path, segment);
      DropPushed(progress, tid);
      GatheredAlongStep(registry, tid, progress, path, es, Edge(segment, target));
    }

    method FollowAttributes(tid: TypeId, ghost before: seq<Record>) returns (ghost es: seq<Edge>)
      requires Closed(registry) && tid in registry.names && tid !in alreadyProcessed && output == before
      modifies this
      ensures currentPath == old(currentPath) && alreadyProcessed == old(alreadyProcessed)
      ensures es == AttributeEdges(registry, registry.attributes[tid]) && TargetsKnown(registry, es)
      ensures output == before + GatheredAlong(registry, tid, alreadyProcessed, currentPath, es)
      decreases registry.names.Keys - InProgress(alreadyProcessed), 1
    {
      es := [];
      var attributes := registry.attributes[tid];
      for i := 0 to |attributes|
        invariant currentPath == old(currentPath) && alreadyProcessed == old(alreadyProcessed)
        invariant es == AttributeEdges(registry, attributes[..i]) && TargetsKnown(registry, es)
        invariant output == before + GatheredAlong(registry, tid, alreadyProcessed, currentPath, es)
      {
        AttributeEdgesStep(registry, attributes, i);
        match attributes[i]
        case PointerTo(name, pointee) =>
          if registry.objectType == pointee {
            continue;
          }
          Follow(tid, es, before, name, pointee);
          es := es + [Edge(name, pointee)];
        case ContainerOf(name, item) =>
          Follow(tid, es, before, name + "/[i]", item);
          es := es + [Edge(name + "/[i]", item)];
        case Other(_) =>
      }
      TakeAll(attributes);
    }

    method FollowChildren(tid: TypeId, ghost before: seq<Record>, ghost start: seq<Edge>) returns (ghost es: seq<Edge>)
      requires Closed(registry) && tid in registry.names && tid !in alreadyProcessed && TargetsKnown(registry, start)
      requires output == before + GatheredAlong(registry, tid, alreadyProcessed, currentPath, start)
      modifies this
      ensures currentPath == old(currentPath) && alreadyProcessed == old(alreadyProcessed)
      ensures es == start + ChildEdges(registry, tid, registry.registered) && TargetsKnown(registry, es)
      ensures output == before + GatheredAlong(registry, tid, alreadyProcessed, currentPath, es)
      decreases registry.names.Keys - InProgress(alreadyProcessed), 1
    {
      es := start;
      var registered := registry.registered;
      for j := 0 to |registered|
        invariant currentPath == old(currentPath) && alreadyProcessed == old(alreadyProcessed)
        invariant es == start + ChildEdges(registry, tid, registered[..j]) && TargetsKnown(registry, es)
        invariant output == before + GatheredAlong(registry, tid, alreadyProcessed, currentPath, es)
      {
        ChildEdgesStep(registry, tid, registered, j, start);
        var child := registered[j];
        if (child, tid) in registry.childOf {
          Follow(tid, es, before, "$" + registry.names[child], child);
          es := es + [Edge("$" + registry.names[child], child)];
        }
      }
      TakeAll(registered);
    }

    method FollowAggregates(tid: TypeId, ghost before: seq<Record>,
                            ghost start: seq<Edge>) returns (ghost es: seq<Edge>)
      requires Closed(registry) && tid in registry.names && tid !in alreadyProcessed && TargetsKnown(registry, start)
      requires output == before + GatheredAlong(registry, tid, alreadyProcessed, currentPath, start)
      modifies this
      ensures currentPath == old(currentPath) && alreadyProcessed == old(alreadyProcessed)
      ensures es == start + AggregateEdges(registry, tid, registry.aggregates) && TargetsKnown(registry, es)
      ensures output == before + GatheredAlong(registry, tid, alreadyProcessed, currentPath, es)
      decreases registry.names.Keys - InProgress(alreadyProcessed), 1
    {
      es := start;
      var aggregates := registry.aggregates;
      for k := 0 to |aggregates|
        invariant currentPath == old(currentPath) && alreadyProcessed == old(alreadyProcessed)
        invariant es == start + AggregateEdges(registry, tid, aggregates[..k]) && TargetsKnown(registry, es)
        invariant output == before + GatheredAlong(registry, tid, alreadyProcessed, currentPath, es)
      {
        AggregateEdgesStep(registry, tid, aggregates, k, start);
        var tmp := aggregates[k];
        if tmp.0 == tid || tmp.1 == tid {
          var other := tid;
          if tmp.0 == tid {
            other := tmp.1;
          }
          if tmp.1 == tid {
            other := tmp.0;
          }
          Follow(tid, es, before, "$" + registry.names[other], other);
          es := es + [Edge("$" + registry.names[other], other)];
        }
      }
      TakeAll(aggregates);
    }

    /** The three loops, over the attributes, the registered types and the aggregations. */
    method FollowAll(tid: TypeId, ghost before: seq<Record>)
      requires Closed(registry) && tid in registry.names && tid !in alreadyProcessed && output == before
      modifies this
      ensures currentPath == old(currentPath) && alreadyProcessed == old(alreadyProcessed)
      ensures TargetsKnown(registry, Edges(registry, tid))
      ensures output == before + GatheredAlong(registry, tid, alreadyProcessed, currentPath, Edges(registry, tid))
      decreases registry.names.Keys - InProgress(alreadyProcessed), 2
    {
      ghost var es := FollowAttributes(tid, before);
      es := FollowChildren(tid, before, es);
      es := FollowAggregates(tid, before, es);
      assert es == Edges(registry, tid);
    }

    method DoGather(tid: TypeId)
      requires Closed(registry) && tid in registry.names
      modifies this
      ensures currentPath == old(currentPath) && alreadyProcessed == old(alreadyProcessed)
      ensures output == old(output) + Gathered(registry, tid, alreadyProcessed, currentPath)
      decreases registry.names.Keys - InProgress(alreadyProcessed), 3
    {
      ghost var path, progress := currentPath, alreadyProcessed;
      var found := HasAlreadyBeenProcessed(tid);
      if found {
        return;
      }
      RecordOutput(tid);
      FollowAll(tid, output);
      GatheredIs(registry, tid, progress, path);
    }
  }
}
