/** Dependency sorting of (parent, child) pairs: Kahn's algorithm and its level-by-level form. */
module TopSort {
  import opened Sequences
  import opened Graphs

  type Pairs = seq<(Node, Node)>

  /** What the program raises as CycleError carries the tables as they stand when the sort gets stuck. */
  datatype SortResult =
    | Sorted(answer: seq<Node>)
    | CycleError(done: seq<Node>, numParents: map<Node, int>, children: map<Node, seq<Node>>)

  datatype LevelsResult = LevelsResult(levels: seq<seq<Node>>, stop: Stop)

  datatype Stop = StopIteration | LevelCycleError(numParents: map<Node, int>, children: map<Node, seq<Node>>)

  ghost function Edges(pairs: Pairs): Graph {
    set e | e in pairs
  }

  ghost function Mentioned(pairs: Pairs): set<Node> {
    (set e | e in pairs :: e.0) + (set e | e in pairs :: e.1)
  }

  ghost function Elements(s: seq<Node>): set<Node> {
    set x | x in s
  }

  /** The number of pairs, repetitions included, whose child is x and whose parent is not done. */
  ghost function InDegree(pairs: Pairs, done: set<Node>, x: Node): nat {
    if pairs == [] then 0
    else
      var (p, c) := pairs[|pairs| - 1];
      InDegree(pairs[..|pairs| - 1], done, x) + if c == x && p !in done then 1 else 0
  }

  ghost function ChildrenOf(pairs: Pairs, p: Node): seq<Node> {
    if pairs == [] then []
    else
      var e := pairs[|pairs| - 1];
      ChildrenOf(pairs[..|pairs| - 1], p) + if e.0 == p then [e.1] else []
  }

  lemma EdgesLast(pairs: Pairs)
    requires pairs != []
    ensures Edges(pairs) == Edges(pairs[..|pairs| - 1]) + {pairs[|pairs| - 1]}
  {
    assert pairs == pairs[..|pairs| - 1] + [pairs[|pairs| - 1]];
  }

  lemma {:induction false} InDegreeZero(pairs: Pairs, done: set<Node>, x: Node)
    ensures InDegree(pairs, done, x) == 0 <==> forall p :: (p, x) in Edges(pairs) ==> p in done
  {
    if pairs != [] {
      var rest, e := pairs[..|pairs| - 1], pairs[|pairs| - 1];
      InDegreeZero(rest, done, x);
      EdgesLast(pairs);
      assert forall p :: (p, x) in Edges(pairs) <==> (p, x) in Edges(rest) || (p, x) == e;
      assert e in Edges(pairs) && e == (e.0, e.1);
    }
  }

  lemma {:induction false} InDegreeSplit(pairs: Pairs, done: set<Node>, p: Node, x: Node)
    requires p !in done
    ensures InDegree(pairs, done, x) == InDegree(pairs, done + {p}, x) + multiset(ChildrenOf(pairs, p))[x]
  {
    if pairs != [] {
      InDegreeSplit(pairs[..|pairs| - 1], done, p, x);
    }
  }

  lemma {:induction false} ChildrenAreEdges(pairs: Pairs, p: Node)
    ensures forall c :: c in ChildrenOf(pairs, p) <==> (p, c) in Edges(pairs)
  {
    if pairs != [] {
      var rest, e := pairs[..|pairs| - 1], pairs[|pairs| - 1];
      ChildrenAreEdges(rest, p);
      EdgesLast(pairs);
    }
  }

  /** The parent counts of the nodes not done, counting only parents not done. */
  ghost predicate Counts(pairs: Pairs, nodes: set<Node>, done: set<Node>, numParents: map<Node, int>) {
    numParents.Keys == nodes - done && forall x :: x in numParents ==> numParents[x] == InDegree(pairs, done, x)
  }

  /** The children lists of the nodes not done; a node without children may lack an entry. */
  ghost predicate ChildTable(pairs: Pairs, done: set<Node>, children: map<Node, seq<Node>>) {
    && children.Keys !! done
    && forall p :: p !in done ==> ChildrenOf(pairs, p) == if p in children then children[p] else []
  }

  /** An order in which no node comes before one of its parents, all of it within the given nodes. */
  ghost predicate Order(pairs: Pairs, nodes: set<Node>, s: seq<Node>) {
    Distinct(s) && Elements(s) <= nodes && ParentsFirst(Edges(pairs), s)
  }

  /** The body of the loop over the pairs. */
  method AddPair(ghost pairs: Pairs, pair: (Node, Node), counts: map<Node, int>, table: map<Node, seq<Node>>)
    returns (numParents: map<Node, int>, children: map<Node, seq<Node>>)
    requires Counts(pairs, Mentioned(pairs), {}, counts) && ChildTable(pairs, {}, table)
    ensures Counts(pairs + [pair], Mentioned(pairs + [pair]), {}, numParents)
    ensures ChildTable(pairs + [pair], {}, children)
  {
    var (parent, child) := pair;
    numParents := counts;
    if parent !in numParents {
      numParents := numParents[parent := 0];
    }
    if child !in numParents {
      numParents := numParents[child := 0];
    }
    numParents := numParents[child := numParents[child] + 1];
    CountsExtend(pairs, pair, counts, numParents);
    children := table[parent := (if parent in table then table[parent] else []) + [child]];
    ChildTableExtend(pairs, pair, table, children);
  }

  method CountParents(pairs: Pairs) returns (numParents: map<Node, int>, children: map<Node, seq<Node>>)
    ensures Counts(pairs, Mentioned(pairs), {}, numParents)
    ensures ChildTable(pairs, {}, children)
  {
    numParents, children := map[], map[];
    for i := 0 to |pairs|
      invariant Counts(pairs[..i], Mentioned(pairs[..i]), {}, numParents)
      invariant ChildTable(pairs[..i], {}, children)
    {
      assert pairs[..i + 1] == pairs[..i] + [pairs[i]];
      numParents, children := AddPair(pairs[..i], pairs[i], numParents, children);
    }
    assert pairs[..|pairs|] == pairs;
  }

  lemma CountsExtend(pairs: Pairs, e: (Node, Node), before: map<Node, int>, after: map<Node, int>)
    requires Counts(pairs, Mentioned(pairs), {}, before)
    requires after.Keys == before.Keys + {e.0, e.1}
    requires forall x :: x in after ==>
               after[x] == (if x in before then before[x] else 0) + (if x == e.1 then 1 else 0)
    ensures Counts(pairs + [e], Mentioned(pairs + [e]), {}, after)
  {
    var all := pairs + [e];
    assert all[..|pairs|] == pairs;
    assert forall d :: d in Edges(all) <==> d in Edges(pairs) || d == e;
    assert Mentioned(all) == Mentioned(pairs) + {e.0, e.1};
    forall x | x in after
      ensures after[x] == InDegree(all, {}, x)
    {
      if x !in before {
        InDegreeZero(pairs, {}, x);
      }
    }
  }

  lemma ChildTableExtend(pairs: Pairs, e: (Node, Node), before: map<Node, seq<Node>>, after: map<Node, seq<Node>>)
    requires ChildTable(pairs, {}, before)
    requires after == before[e.0 := (if e.0 in before then before[e.0] else []) + [e.1]]
    ensures ChildTable(pairs + [e], {}, after)
  {
    var all := pairs + [e];
    assert all[..|pairs|] == pairs;
  }

  /** The keys with count zero, in whatever order the dictionary enumerates them. */
  method WithoutParents(numParents: map<Node, int>) returns (s: seq<Node>)
    ensures Distinct(s)
    ensures forall x :: x in s <==> x in numParents && numParents[x] == 0
  {
    s := [];
    var keys := numParents.Keys;
    while keys != {}
      invariant keys <= numParents.Keys && Distinct(s)
      invariant forall x :: x in s <==> x in numParents && x !in keys && numParents[x] == 0
    {
      var x :| x in keys;
      keys := keys - {x};
      if numParents[x] == 0 {
        s := s + [x];
      }
    }
  }

  lemma PrefixCounts(s: seq<Node>, i: nat)
    requires i < |s|
    ensures forall x :: multiset(s[..i + 1])[x] == multiset(s[..i])[x] + if x == s[i] then 1 else 0
    ensures forall x :: multiset(s[..i + 1])[x] <= multiset(s)[x]
  {
    assert s[..i + 1] == s[..i] + [s[i]];
    assert s == s[..i + 1] + s[i + 1..];
    assert multiset(s) == multiset(s[..i + 1]) + multiset(s[i + 1..]);
  }

  /** Knocks down the parent counts of the listed children; `freed` lists those that reach zero. */
  method KnockDown(numParents: map<Node, int>, children: seq<Node>) returns (counts: map<Node, int>, freed: seq<Node>)
    requires forall x :: x in children ==> x in numParents
    requires forall x :: x in numParents ==> multiset(children)[x] <= numParents[x]
    ensures counts.Keys == numParents.Keys
    ensures forall x :: x in numParents ==> counts[x] == numParents[x] - multiset(children)[x]
    ensures Distinct(freed)
    ensures forall x :: x in freed <==> x in numParents && counts[x] == 0 && numParents[x] != 0
  {
    counts, freed := numParents, [];
    for i := 0 to |children|
      invariant counts.Keys == numParents.Keys
      invariant forall x :: x in numParents ==> counts[x] == numParents[x] - multiset(children[..i])[x]
      invariant Distinct(freed)
      invariant forall x :: x in freed <==> x in numParents && counts[x] == 0 && numParents[x] != 0
    {
      var child := children[i];
      PrefixCounts(children, i);
      counts := counts[child := counts[child] - 1];
      if counts[child] == 0 {
        freed := freed + [child];
      }
    }
    assert children[..|children|] == children;
  }

  /** A node can be taken out: it is still there, and so are all of its children. */
  ghost predicate Removable(pairs: Pairs, nodes: set<Node>, done: set<Node>, parent: Node) {
    parent in nodes && parent !in done && forall x :: (parent, x) in Edges(pairs) ==> x !in done && x != parent
  }

  /** In an order, each node can be taken out after those before it. */
  lemma OrderRemovable(pairs: Pairs, nodes: set<Node>, order: seq<Node>, k: nat)
    requires Order(pairs, nodes, order) && k < |order|
    ensures Removable(pairs, nodes, Elements(order[..k]), order[k])
  {
    assert order[k] in Elements(order);
    forall x | (order[k], x) in Edges(pairs)
      ensures x !in order[..k] && x != order[k]
    {
      assert forall j :: 0 <= j <= k && order[j] == x ==> order[k] in order[..j];
    }
  }

  lemma CountsAfter(pairs: Pairs, nodes: set<Node>, done: set<Node>, parent: Node,
                    before: map<Node, int>, after: map<Node, int>)
    requires Counts(pairs, nodes, done, before) && parent !in done
    requires after.Keys == before.Keys - {parent}
    requires forall x :: x in after ==> after[x] == before[x] - multiset(ChildrenOf(pairs, parent))[x]
    ensures Counts(pairs, nodes, done + {parent}, after)
  {
    forall x | x in after
      ensures after[x] == InDegree(pairs, done + {parent}, x)
    {
      InDegreeSplit(pairs, done, parent, x);
    }
  }

  lemma TableAfter(pairs: Pairs, done: set<Node>, parent: Node, children: map<Node, seq<Node>>)
    requires ChildTable(pairs, done, children)
    ensures ChildTable(pairs, done + {parent}, children - {parent})
    ensures parent !in children ==> children - {parent} == children
  {}

  lemma ChildrenAreCounted(pairs: Pairs, nodes: set<Node>, done: set<Node>, parent: Node, numParents: map<Node, int>)
    requires Mentioned(pairs) <= nodes && Removable(pairs, nodes, done, parent)
    requires Counts(pairs, nodes, done, numParents)
    ensures forall x :: x in ChildrenOf(pairs, parent) ==> x in numParents && x != parent
    ensures forall x :: x in numParents ==> multiset(ChildrenOf(pairs, parent))[x] <= numParents[x]
  {
    ChildrenAreEdges(pairs, parent);
    forall x | x in ChildrenOf(pairs, parent)
      ensures x in numParents && x != parent
    {
      assert (parent, x) in Edges(pairs);
      assert x in Mentioned(pairs);
    }
    forall x | x in numParents
      ensures multiset(ChildrenOf(pairs, parent))[x] <= numParents[x]
    {
      InDegreeSplit(pairs, done, parent, x);
    }
  }

  lemma ElementsGrow(s: seq<Node>, k: nat)
    requires k < |s|
    ensures Elements(s[..k + 1]) == Elements(s[..k]) + {s[k]}
  {
    assert s[..k + 1] == s[..k] + [s[k]];
  }

  /** The body of the loop over the nodes to be taken out: no lookup in it can miss. */
  method TakeOut(ghost pairs: Pairs, ghost nodes: set<Node>, ghost done: set<Node>, parent: Node,
                 numParents: map<Node, int>, children: map<Node, seq<Node>>)
    returns (counts: map<Node, int>, rest: map<Node, seq<Node>>, freed: seq<Node>)
    requires Mentioned(pairs) <= nodes && Removable(pairs, nodes, done, parent)
    requires Counts(pairs, nodes, done, numParents) && ChildTable(pairs, done, children)
    ensures Counts(pairs, nodes, done + {parent}, counts) && ChildTable(pairs, done + {parent}, rest)
    ensures rest == children - {parent}
    ensures Distinct(freed)
    ensures forall x :: x in freed <==> x in counts && counts[x] == 0 && numParents[x] != 0
  {
    ChildrenAreCounted(pairs, nodes, done, parent, numParents);
    counts, rest, freed := numParents - {parent}, children, [];
    if parent in children {
      counts, freed := KnockDown(counts, children[parent]);
      rest := rest - {parent};
    }
    CountsAfter(pairs, nodes, done, parent, numParents, counts);
    TableAfter(pairs, done, parent, children);
  }

  // ---------------------------------------------------------------- topsort

  /** Between two rounds of the loop: exactly the nodes without parents left have been listed. */
  ghost predicate Ready(numParents: map<Node, int>, answer: seq<Node>) {
    forall x :: x in numParents ==> (x in answer <==> numParents[x] == 0)
  }

  lemma AppendFreed(pairs: Pairs, nodes: set<Node>, answer: seq<Node>, k: nat,
                    before: map<Node, int>, after: map<Node, int>, freed: seq<Node>)
    requires Order(pairs, nodes, answer) && k < |answer|
    requires Counts(pairs, nodes, Elements(answer[..k]), before) && Ready(before, answer)
    requires Counts(pairs, nodes, Elements(answer[..k + 1]), after)
    requires Distinct(freed)
    requires forall x :: x in freed <==> x in after && after[x] == 0 && x in before && before[x] != 0
    ensures Order(pairs, nodes, answer + freed) && Ready(after, answer + freed)
  {
    ElementsGrow(answer, k);
    DistinctAppend(answer, freed);
    FreedParentsDone(pairs, nodes, answer[..k + 1], after);
    ParentsFirstAppend(Edges(pairs), answer, k + 1, freed);
    forall x | x in after
      ensures x in answer + freed <==> after[x] == 0
    {
      InDegreeSplit(pairs, Elements(answer[..k]), answer[k], x);
    }
  }

  lemma FreedParentsDone(pairs: Pairs, nodes: set<Node>, done: seq<Node>, numParents: map<Node, int>)
    requires Counts(pairs, nodes, Elements(done), numParents)
    ensures forall x, p :: x in numParents && numParents[x] == 0 && (p, x) in Edges(pairs) ==> p in done
  {
    forall x, p | x in numParents && numParents[x] == 0 && (p, x) in Edges(pairs)
      ensures p in done
    {
      InDegreeZero(pairs, Elements(done), x);
    }
  }

  lemma ParentsFirstAppend(g: Graph, s: seq<Node>, k: nat, more: seq<Node>)
    requires ParentsFirst(g, s) && k <= |s|
    requires forall x, p :: x in more && (p, x) in g ==> p in s[..k]
    ensures ParentsFirst(g, s + more)
  {
    var t := s + more;
    forall i, p | 0 <= i < |t| && (p, t[i]) in g
      ensures p in t[..i]
    {
      if i < |s| {
        assert t[..i] == s[..i];
      } else {
        assert t[i] in more;
        var j :| 0 <= j < k && s[j] == p;
        assert t[j] == p;
      }
    }
  }

  /** The loop invariant: the first k nodes of answer have been taken out of the tables. */
  ghost predicate Kahn(pairs: Pairs, answer: seq<Node>, k: nat, numParents: map<Node, int>,
                       children: map<Node, seq<Node>>) {
    && k <= |answer|
    && Order(pairs, Mentioned(pairs), answer)
    && Counts(pairs, Mentioned(pairs), Elements(answer[..k]), numParents)
    && ChildTable(pairs, Elements(answer[..k]), children)
    && Ready(numParents, answer)
  }

  /** One round of the loop over the growing answer. */
  method Advance(ghost pairs: Pairs, answer: seq<Node>, k: nat, numParents: map<Node, int>,
                 children: map<Node, seq<Node>>)
    returns (longer: seq<Node>, counts: map<Node, int>, rest: map<Node, seq<Node>>)
    requires k < |answer| && Kahn(pairs, answer, k, numParents, children)
    ensures answer <= longer && Kahn(pairs, longer, k + 1, counts, rest)
  {
    ghost var nodes := Mentioned(pairs);
    var freed;
    OrderRemovable(pairs, nodes, answer, k);
    ElementsGrow(answer, k);
    counts, rest, freed := TakeOut(pairs, nodes, Elements(answer[..k]), answer[k], numParents, children);
    AppendFreed(pairs, nodes, answer, k, numParents, counts, freed);
    longer := answer + freed;
    assert longer[..k + 1] == answer[..k + 1];
  }

  lemma NothingReady(pairs: Pairs, answer: seq<Node>, numParents: map<Node, int>, children: map<Node, seq<Node>>)
    requires Kahn(pairs, answer, |answer|, numParents, children)
    ensures Order(pairs, Mentioned(pairs), answer)
    ensures Stuck(pairs, Mentioned(pairs), Elements(answer), numParents, children)
    ensures numParents.Keys == {} <==> Acyclic(Edges(pairs))
    ensures numParents.Keys == {} ==> Elements(answer) == Mentioned(pairs)
  {
    assert answer[..|answer|] == answer;
    LeftoverIsStuck(pairs, Mentioned(pairs), answer, numParents, children);
  }

  /** Sorting succeeds exactly on acyclic pairs. Otherwise the nodes downstream of a cycle are left over, and
      everything else has been listed. */
  method TopSort(pairs: Pairs) returns (r: SortResult)
    ensures r.Sorted? <==> Acyclic(Edges(pairs))
    ensures r.Sorted? ==> Order(pairs, Mentioned(pairs), r.answer) && Elements(r.answer) == Mentioned(pairs)
    ensures r.CycleError? ==> Order(pairs, Mentioned(pairs), r.done)
    ensures r.CycleError? ==> Stuck(pairs, Mentioned(pairs), Elements(r.done), r.numParents, r.children)
  {
    var numParents, children := CountParents(pairs);
    var answer := WithoutParents(numParents);
    StartsReady(pairs, answer, numParents, children);
    var k := 0;
    while k < |answer|
      invariant Kahn(pairs, answer, k, numParents, children)
      invariant |answer| <= |Mentioned(pairs)|
      decreases |Mentioned(pairs)| - k
    {
      answer, numParents, children := Advance(pairs, answer, k, numParents, children);
      DistinctBound(answer, Mentioned(pairs));
      k := k + 1;
    }
    NothingReady(pairs, answer, numParents, children);
    if numParents.Keys != {} {
      return CycleError(answer, numParents, children);
    }
    return Sorted(answer);
  }

  lemma StartsReady(pairs: Pairs, answer: seq<Node>, numParents: map<Node, int>, children: map<Node, seq<Node>>)
    requires Counts(pairs, Mentioned(pairs), {}, numParents) && ChildTable(pairs, {}, children)
    requires Distinct(answer) && forall x :: x in answer <==> x in numParents && numParents[x] == 0
    ensures Kahn(pairs, answer, 0, numParents, children)
    ensures |answer| <= |Mentioned(pairs)|
  {
    assert Elements([]) == {};
    FreedParentsDone(pairs, Mentioned(pairs), [], numParents);
    assert [] + answer == answer;
    ParentsFirstAppend(Edges(pairs), [], 0, answer);
    DistinctBound(answer, Mentioned(pairs));
    assert answer[..0] == [];
  }

  /** What a CycleError carries: the nodes downstream of a cycle, each with a positive count of the pairs that
      still lead to it from such nodes, and with its children if it has any. */
  ghost predicate Stuck(pairs: Pairs, nodes: set<Node>, done: set<Node>, numParents: map<Node, int>,
                        children: map<Node, seq<Node>>) {
    && (forall x :: x in numParents <==> x in nodes && Downstream(Edges(pairs), x))
    && done == nodes - numParents.Keys
    && (forall x :: x in numParents ==> numParents[x] == InDegree(pairs, done, x) > 0)
    && ChildTable(pairs, done, children)
  }

  lemma LeftoverHasParent(pairs: Pairs, nodes: set<Node>, order: seq<Node>, numParents: map<Node, int>, x: Node)
    requires Mentioned(pairs) <= nodes
    requires Counts(pairs, nodes, Elements(order), numParents) && x in numParents && numParents[x] != 0
    ensures HasParentIn(Edges(pairs), numParents.Keys, x)
  {
    InDegreeZero(pairs, Elements(order), x);
    var p :| (p, x) in Edges(pairs) && p !in Elements(order);
    assert p in Mentioned(pairs);
  }

  /** A leftover node need not have a child: of these two, both are left over and the second has none. */
  lemma ChildlessLeftover(a: Node, b: Node)
    requires a != b
    ensures var g := Edges([(a, a), (a, b)]);
            Downstream(g, a) && Downstream(g, b) && forall x :: (b, x) !in g
  {
    var g := Edges([(a, a), (a, b)]);
    assert [(a, a), (a, b)][0] in g && [(a, a), (a, b)][1] in g;
    assert Lasso(g, [a], [a], a);
    assert Lasso(g, [a], [a, b], b);
  }

  lemma LeftoverIsStuck(pairs: Pairs, nodes: set<Node>, order: seq<Node>, numParents: map<Node, int>,
                        children: map<Node, seq<Node>>)
    requires Mentioned(pairs) <= nodes && Order(pairs, nodes, order)
    requires Counts(pairs, nodes, Elements(order), numParents) && ChildTable(pairs, Elements(order), children)
    requires forall x :: x in numParents ==> numParents[x] != 0
    ensures Stuck(pairs, nodes, Elements(order), numParents, children)
    ensures numParents.Keys == {} <==> Acyclic(Edges(pairs))
  {
    var left := numParents.Keys;
    assert forall x :: x in left <==> x in nodes && Downstream(Edges(pairs), x) by {
      LeftIsDownstream(pairs, nodes, order, numParents);
    }
    assert Elements(order) == nodes - left;
    assert left == {} <==> Acyclic(Edges(pairs)) by {
      NoneDownstreamIffAcyclic(Edges(pairs), nodes, left);
    }
  }

  lemma LeftIsDownstream(pairs: Pairs, nodes: set<Node>, order: seq<Node>, numParents: map<Node, int>)
    requires Mentioned(pairs) <= nodes && Order(pairs, nodes, order)
    requires Counts(pairs, nodes, Elements(order), numParents)
    requires forall x :: x in numParents ==> numParents[x] != 0
    ensures forall x :: x in numParents.Keys <==> x in nodes && Downstream(Edges(pairs), x)
    ensures forall e :: e in Edges(pairs) ==> e.1 in nodes
  {
    forall x | x in numParents.Keys
      ensures HasParentIn(Edges(pairs), numParents.Keys, x)
    {
      LeftoverHasParent(pairs, nodes, order, numParents, x);
    }
    LeftoverIsDownstream(Edges(pairs), nodes, order, numParents.Keys);
    forall e | e in Edges(pairs)
      ensures e.1 in nodes
    {
      assert e.1 in Mentioned(pairs);
    }
  }

  // ---------------------------------------------------------------- topsort_levels

  function Flatten(levels: seq<seq<Node>>): seq<Node> {
    if levels == [] then [] else Flatten(levels[..|levels| - 1]) + levels[|levels| - 1]
  }

  /** The longest walk that ends at x has exactly k edges. */
  ghost predicate AtDepth(g: Graph, x: Node, k: nat) {
    HasIncoming(g, x, k) && !HasIncoming(g, x, k + 1)
  }

  /** The level lists, once each, exactly the nodes at depth k. */
  ghost predicate IsLevel(g: Graph, nodes: set<Node>, k: nat, level: seq<Node>) {
    Distinct(level) && level != [] && forall x :: x in level <==> x in nodes && AtDepth(g, x, k)
  }

  ghost predicate AreLevels(g: Graph, nodes: set<Node>, levels: seq<seq<Node>>) {
    forall k :: 0 <= k < |levels| ==> IsLevel(g, nodes, k, levels[k])
  }

  /** Everything shallower than k has been taken out, and nothing else. */
  ghost predicate Shallower(g: Graph, nodes: set<Node>, k: nat, order: seq<Node>) {
    forall x :: x in order <==> x in nodes && !HasIncoming(g, x, k)
  }

  lemma LevelMember(pairs: Pairs, nodes: set<Node>, order: seq<Node>, k: nat, numParents: map<Node, int>, x: Node)
    requires Mentioned(pairs) <= nodes && Shallower(Edges(pairs), nodes, k, order)
    requires Counts(pairs, nodes, Elements(order), numParents)
    ensures x in numParents && numParents[x] == 0 <==> x in nodes && AtDepth(Edges(pairs), x, k)
  {
    var g := Edges(pairs);
    if x in numParents {
      InDegreeZero(pairs, Elements(order), x);
      HasIncomingStep(g, x, k);
      if !HasIncoming(g, x, k + 1) {
        forall p | (p, x) in g
          ensures p in order
        {
          assert p in Mentioned(pairs);
        }
      }
    }
  }

  lemma NextLevel(pairs: Pairs, nodes: set<Node>, order: seq<Node>, k: nat, numParents: map<Node, int>,
                  level: seq<Node>, all: seq<Node>)
    requires Mentioned(pairs) <= nodes && all == order + level
    requires Order(pairs, nodes, order) && Shallower(Edges(pairs), nodes, k, order)
    requires Counts(pairs, nodes, Elements(order), numParents)
    requires Distinct(level) && forall x :: x in level <==> x in numParents && numParents[x] == 0
    ensures forall x :: x in level <==> x in nodes && AtDepth(Edges(pairs), x, k)
    ensures Order(pairs, nodes, all) && Shallower(Edges(pairs), nodes, k + 1, all)
  {
    forall x
      ensures x in level <==> x in nodes && AtDepth(Edges(pairs), x, k)
    {
      LevelMember(pairs, nodes, order, k, numParents, x);
    }
    FreedParentsDone(pairs, nodes, order, numParents);
    assert order[..|order|] == order;
    ParentsFirstAppend(Edges(pairs), order, |order|, level);
    DistinctAppend(order, level);
    forall x | x in nodes && !HasIncoming(Edges(pairs), x, k)
      ensures !HasIncoming(Edges(pairs), x, k + 1)
    {
      if HasIncoming(Edges(pairs), x, k + 1) {
        HasIncomingShorter(Edges(pairs), x, k);
      }
    }
  }

  /** The tables describe what is left of the pairs once the done nodes have been taken out. */
  ghost predicate Tables(pairs: Pairs, nodes: set<Node>, done: set<Node>, numParents: map<Node, int>,
                         children: map<Node, seq<Node>>) {
    Counts(pairs, nodes, done, numParents) && ChildTable(pairs, done, children)
  }

  /** The nodes of a level are still there, and so are all of their children, none of which is in the level. */
  ghost predicate RemovableLevel(pairs: Pairs, nodes: set<Node>, done: set<Node>, level: seq<Node>) {
    && Distinct(level)
    && (forall j :: 0 <= j < |level| ==> level[j] in nodes && level[j] !in done)
    && (forall j, x :: 0 <= j < |level| && (level[j], x) in Edges(pairs) ==> x !in done && x !in level)
  }

  lemma LevelRemovable(pairs: Pairs, nodes: set<Node>, order: seq<Node>, numParents: map<Node, int>, level: seq<Node>)
    requires Order(pairs, nodes, order) && Counts(pairs, nodes, Elements(order), numParents)
    requires Distinct(level) && forall x :: x in level <==> x in numParents && numParents[x] == 0
    ensures RemovableLevel(pairs, nodes, Elements(order), level)
  {
    FreedParentsDone(pairs, nodes, order, numParents);
    assert forall j :: 0 <= j < |level| ==> level[j] in level && level[j] in numParents;
    forall j, x | 0 <= j < |level| && (level[j], x) in Edges(pairs)
      ensures x !in Elements(order) && x !in level
    {
      if x in order {
        ParentAlsoListed(Edges(pairs), order, level[j], x);
      }
    }
  }

  lemma ParentAlsoListed(g: Graph, order: seq<Node>, p: Node, x: Node)
    requires ParentsFirst(g, order) && (p, x) in g && x in order
    ensures p in order
  {
    var i :| 0 <= i < |order| && order[i] == x;
    assert (p, order[i]) in g;
  }

  lemma NextRemovable(pairs: Pairs, nodes: set<Node>, done: set<Node>, level: seq<Node>, i: nat)
    requires RemovableLevel(pairs, nodes, done, level) && i < |level|
    ensures Removable(pairs, nodes, done + Elements(level[..i]), level[i])
    ensures done + Elements(level[..i]) + {level[i]} == done + Elements(level[..i + 1])
  {
    ElementsGrow(level, i);
    assert forall x :: x in level[..i] ==> x in level;
  }

  /** The loop over one level; the counts that reach zero are picked up by the next scan. */
  method TakeOutLevel(ghost pairs: Pairs, ghost nodes: set<Node>, ghost done: set<Node>, level: seq<Node>,
                      numParents: map<Node, int>, children: map<Node, seq<Node>>)
    returns (counts: map<Node, int>, rest: map<Node, seq<Node>>)
    requires Mentioned(pairs) <= nodes && RemovableLevel(pairs, nodes, done, level)
    requires Tables(pairs, nodes, done, numParents, children)
    ensures Tables(pairs, nodes, done + Elements(level), counts, rest)
  {
    counts, rest := numParents, children;
    ghost var out := done;
    assert done + Elements(level[..0]) == done;
    for i := 0 to |level|
      invariant out == done + Elements(level[..i]) && Tables(pairs, nodes, out, counts, rest)
    {
      NextRemovable(pairs, nodes, done, level, i);
      var freed;
      counts, rest, freed := TakeOut(pairs, nodes, out, level[i], counts, rest);
      out := out + {level[i]};
    }
    assert level[..|level|] == level;
  }

  /** Between two levels: everything shallower than k, and nothing else, has been taken out. */
  ghost predicate LevelState(pairs: Pairs, nodes: set<Node>, k: nat, order: seq<Node>, numParents: map<Node, int>,
                             children: map<Node, seq<Node>>) {
    && Order(pairs, nodes, order)
    && Shallower(Edges(pairs), nodes, k, order)
    && Tables(pairs, nodes, Elements(order), numParents, children)
  }

  lemma LevelStateInit(pairs: Pairs, nodes: set<Node>, numParents: map<Node, int>, children: map<Node, seq<Node>>)
    requires Counts(pairs, nodes, {}, numParents) && ChildTable(pairs, {}, children)
    ensures LevelState(pairs, nodes, 0, [], numParents, children)
  {
    assert Elements([]) == {};
    forall x
      ensures HasIncoming(Edges(pairs), x, 0)
    {
      HasIncomingZero(Edges(pairs), x);
    }
  }

  lemma AppendLevel(g: Graph, nodes: set<Node>, levels: seq<seq<Node>>, level: seq<Node>, more: seq<seq<Node>>)
    requires AreLevels(g, nodes, levels) && IsLevel(g, nodes, |levels|, level)
    requires more == levels + [level]
    ensures AreLevels(g, nodes, more) && Flatten(more) == Flatten(levels) + level
  {
    assert more[..|levels|] == levels;
  }

  /** The loop invariant: the levels so far are right, and the tables describe what is left. */
  ghost predicate LevelsSoFar(pairs: Pairs, nodes: set<Node>, levels: seq<seq<Node>>, numParents: map<Node, int>,
                              children: map<Node, seq<Node>>) {
    && AreLevels(Edges(pairs), nodes, levels)
    && LevelState(pairs, nodes, |levels|, Flatten(levels), numParents, children)
  }

  /** Takes the nodes of the next level out of the tables. */
  method FinishLevel(ghost pairs: Pairs, ghost nodes: set<Node>, ghost levels: seq<seq<Node>>, level: seq<Node>,
                     numParents: map<Node, int>, children: map<Node, seq<Node>>)
    returns (counts: map<Node, int>, rest: map<Node, seq<Node>>)
    requires Mentioned(pairs) <= nodes && LevelsSoFar(pairs, nodes, levels, numParents, children)
    requires level != [] && Distinct(level) && forall x :: x in level <==> x in numParents && numParents[x] == 0
    ensures LevelsSoFar(pairs, nodes, levels + [level], counts, rest)
    ensures |Flatten(levels)| < |Flatten(levels + [level])| <= |nodes|
  {
    ghost var order := Flatten(levels);
    NextLevel(pairs, nodes, order, |levels|, numParents, level, order + level);
    LevelRemovable(pairs, nodes, order, numParents, level);
    AppendLevel(Edges(pairs), nodes, levels, level, levels + [level]);
    DistinctBound(order + level, nodes);
    counts, rest := TakeOutLevel(pairs, nodes, Elements(order), level, numParents, children);
    assert Elements(order + level) == Elements(order) + Elements(level);
  }

  lemma LevelsEnd(pairs: Pairs, nodes: set<Node>, levels: seq<seq<Node>>, numParents: map<Node, int>,
                  children: map<Node, seq<Node>>)
    requires Mentioned(pairs) <= nodes && LevelsSoFar(pairs, nodes, levels, numParents, children)
    requires forall x :: x in numParents ==> numParents[x] != 0
    ensures AreLevels(Edges(pairs), nodes, levels) && Order(pairs, nodes, Flatten(levels))
    ensures Stuck(pairs, nodes, Elements(Flatten(levels)), numParents, children)
    ensures numParents.Keys == {} <==> Acyclic(Edges(pairs))
    ensures numParents.Keys == {} ==> Elements(Flatten(levels)) == nodes
  {
    LeftoverIsStuck(pairs, nodes, Flatten(levels), numParents, children);
  }

  /** The generator's whole output for tables that describe the pairs, over any superset of the mentioned nodes. */
  method TopSortLevelsCore(ghost pairs: Pairs, ghost nodes: set<Node>, numParents: map<Node, int>,
                           children: map<Node, seq<Node>>)
    returns (r: LevelsResult)
    requires Mentioned(pairs) <= nodes
    requires Counts(pairs, nodes, {}, numParents) && ChildTable(pairs, {}, children)
    ensures AreLevels(Edges(pairs), nodes, r.levels)
    ensures Order(pairs, nodes, Flatten(r.levels))
    ensures r.stop.StopIteration? <==> Acyclic(Edges(pairs))
    ensures r.stop.StopIteration? ==> Elements(Flatten(r.levels)) == nodes
    ensures r.stop.LevelCycleError? ==>
              Stuck(pairs, nodes, Elements(Flatten(r.levels)), r.stop.numParents, r.stop.children)
  {
    var counts, rest, levels: seq<seq<Node>> := numParents, children, [];
    LevelStateInit(pairs, nodes, counts, rest);
    var levelParents := WithoutParents(counts);
    while levelParents != []
      invariant LevelsSoFar(pairs, nodes, levels, counts, rest)
      invariant Distinct(levelParents) && forall x :: x in levelParents <==> x in counts && counts[x] == 0
      decreases |nodes| - |Flatten(levels)|
    {
      counts, rest := FinishLevel(pairs, nodes, levels, levelParents, counts, rest);
      levels := levels + [levelParents];
      levelParents := WithoutParents(counts);
    }
    LevelsEnd(pairs, nodes, levels, counts, rest);
    r := LevelsResult(levels, if counts.Keys == {} then StopIteration else LevelCycleError(counts, rest));
  }

  method TopSortLevels(pairs: Pairs) returns (r: LevelsResult)
    ensures AreLevels(Edges(pairs), Mentioned(pairs), r.levels)
    ensures Order(pairs, Mentioned(pairs), Flatten(r.levels))
    ensures r.stop.StopIteration? <==> Acyclic(Edges(pairs))
    ensures r.stop.StopIteration? ==> Elements(Flatten(r.levels)) == Mentioned(pairs)
    ensures r.stop.LevelCycleError? ==>
              Stuck(pairs, Mentioned(pairs), Elements(Flatten(r.levels)), r.stop.numParents, r.stop.children)
  {
    var numParents, children := CountParents(pairs);
    r := TopSortLevelsCore(pairs, Mentioned(pairs), numParents, children);
  }

  /** The two sorts get stuck with the same leftover nodes and the same counts. */
  lemma SameLeftover(pairs: Pairs, nodes: set<Node>, a: set<Node>, m: map<Node, int>, c: map<Node, seq<Node>>,
                     b: set<Node>, n: map<Node, int>, d: map<Node, seq<Node>>)
    requires Stuck(pairs, nodes, a, m, c) && Stuck(pairs, nodes, b, n, d)
    ensures a == b && m == n
  {
    assert m.Keys == n.Keys;
  }
}
