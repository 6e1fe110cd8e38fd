/** The stack-based enumerator of all elementary cycles, with its rotation test. */
module FindCycles {
  import opened Sequences
  import opened Graphs

  // ---------------------------------------------------------------- rotation

  function Rotate<T>(s: seq<T>, k: nat): seq<T>
    requires k <= |s|
  {
    s[k..] + s[..k]
  }

  ghost predicate IsRotation<T>(a: seq<T>, b: seq<T>) {
    exists k :: 0 <= k <= |a| && b == Rotate(a, k)
  }

  lemma RotatedAt<T>(c: seq<T>, k: nat, i: nat)
    requires k <= |c| && i < |c|
    ensures Rotate(c, k)[i] == c[if k + i < |c| then k + i else k + i - |c|]
  {}

  lemma RotateTwice<T>(s: seq<T>, j: nat, k: nat)
    requires j <= |s| && k <= |s|
    ensures Rotate(Rotate(s, j), k) == Rotate(s, if j + k <= |s| then j + k else j + k - |s|)
  {
    var m := if j + k <= |s| then j + k else j + k - |s|;
    var r := Rotate(s, j);
    forall i | 0 <= i < |s|
      ensures Rotate(r, k)[i] == Rotate(s, m)[i]
    {
      RotatedAt(r, k, i);
      RotatedAt(s, j, if k + i < |s| then k + i else k + i - |s|);
      RotatedAt(s, m, i);
    }
  }

  lemma RotationSymmetric<T>(a: seq<T>, b: seq<T>)
    requires IsRotation(a, b)
    ensures IsRotation(b, a)
  {
    var k :| 0 <= k <= |a| && b == Rotate(a, k);
    RotateTwice(a, k, |a| - k);
    assert a == Rotate(b, |a| - k);
  }

  lemma RotationTransitive<T>(a: seq<T>, b: seq<T>, c: seq<T>)
    requires IsRotation(a, b) && IsRotation(b, c)
    ensures IsRotation(a, c)
  {
    var j :| 0 <= j <= |a| && b == Rotate(a, j);
    var k :| 0 <= k <= |b| && c == Rotate(b, k);
    RotateTwice(a, j, k);
  }

  /** The program raises an IndexError on two empty lists. */
  method IsRotated<T(==)>(seq1: seq<T>, seq2: seq<T>) returns (rotated: bool)
    requires |seq1| == |seq2| ==> seq2 != []
    ensures rotated <==> IsRotation(seq1, seq2)
  {
    if |seq1| != |seq2| {
      return false;
    }
    var startIndexes: seq<nat> := [];
    var headItem := seq2[0];
    for index1 := 0 to |seq1|
      invariant forall k :: k in startIndexes <==> 0 <= k < index1 && seq1[k] == headItem
      invariant forall j :: 0 <= j < |startIndexes| ==> startIndexes[j] < index1
    {
      if seq1[index1] == headItem {
        startIndexes := startIndexes + [index1];
      }
    }
    var doubled := seq1 + seq1;
    for i := 0 to |startIndexes|
      invariant forall j :: 0 <= j < |startIndexes| ==> startIndexes[j] < |seq1|
      invariant forall j :: 0 <= j < i ==> Rotate(seq1, startIndexes[j]) != seq2
    {
      var index1 := startIndexes[i];
      assert index1 in startIndexes;
      assert doubled[index1..index1 + |seq1|] == Rotate(seq1, index1);
      if doubled[index1..index1 + |seq1|] == seq2 {
        return true;
      }
    }
    forall k | 0 <= k <= |seq1|
      ensures Rotate(seq1, k) != seq2
    {
      var m := if k == |seq1| then 0 else k;
      assert Rotate(seq1, k) == Rotate(seq1, m);
      if seq1[m] == headItem {
        var j :| 0 <= j < |startIndexes| && startIndexes[j] == m;
      } else {
        assert Rotate(seq1, m)[0] == seq1[m];
      }
    }
    return false;
  }

  // ---------------------------------------------------------------- the graph of a parent-to-children map

  type ParentChildren = map<Node, seq<Node>>

  ghost function Edges(pc: ParentChildren): Graph {
    set p, c | p in pc && c in pc[p] :: (p, c)
  }

  ghost function Universe(pc: ParentChildren): set<Node> {
    pc.Keys + set p, c | p in pc && c in pc[p] :: c
  }

  function ChildrenOf(pc: ParentChildren, x: Node): seq<Node> {
    if x in pc then pc[x] else []
  }

  ghost predicate Covered(cycles: seq<seq<Node>>, c: seq<Node>) {
    exists i :: 0 <= i < |cycles| && IsRotation(cycles[i], c)
  }

  /** p can be reached by the search rooted at r: a walk from r that repeats no node. */
  ghost predicate SimplePath(g: Graph, r: Node, p: seq<Node>) {
    Walk(g, p) && Distinct(p) && p[0] == r
  }

  function IndexOf<T(==)>(s: seq<T>, x: T): (i: nat)
    requires x in s
    ensures i < |s| && s[i] == x && x !in s[..i]
  {
    if s[0] == x then 0 else 1 + IndexOf(s[1..], x)
  }

  lemma {:induction false} IndexOfFirst<T>(s: seq<T>, n: nat)
    requires n < |s| && s[n] !in s[..n]
    ensures IndexOf(s, s[n]) == n
  {
    if n > 0 {
      assert s[0] in s[..n];
      assert s[1..][..n - 1] == s[..n][1..];
      IndexOfFirst(s[1..], n - 1);
    }
  }

  /** Every cycle closed by a child of p's last node lying on p has been found. */
  ghost predicate Expanded(pc: ParentChildren, cycles: seq<seq<Node>>, p: seq<Node>)
    requires p != []
  {
    forall child :: child in ChildrenOf(pc, p[|p| - 1]) && child in p ==> Covered(cycles, p[IndexOf(p, child)..])
  }

  /** Everything the search rooted at r can find has been found. */
  ghost predicate Explored(pc: ParentChildren, cycles: seq<seq<Node>>, r: Node) {
    forall p :: SimplePath(Edges(pc), r, p) ==> Expanded(pc, cycles, p)
  }

  ghost predicate Reaches(g: Graph, x: Node, y: Node) {
    exists w :: Walk(g, w) && w[0] == x && w[|w| - 1] == y
  }

  /** All cycles that can be reached from r have been found. */
  ghost predicate CyclesFound(pc: ParentChildren, cycles: seq<seq<Node>>, r: Node) {
    forall c, x :: ElementaryCycle(Edges(pc), c) && x in c && Reaches(Edges(pc), r, x) ==> Covered(cycles, c)
  }

  lemma RotateDistinct<T>(c: seq<T>, k: nat)
    requires Distinct(c) && k < |c|
    ensures Distinct(Rotate(c, k))
  {
    forall i, j | 0 <= i < j < |c|
      ensures Rotate(c, k)[i] != Rotate(c, k)[j]
    {
      RotatedAt(c, k, i);
      RotatedAt(c, k, j);
    }
  }

  lemma RotateMembers<T>(c: seq<T>, k: nat)
    requires k < |c|
    ensures forall x :: x in Rotate(c, k) <==> x in c
  {
    assert c == c[..k] + c[k..];
  }

  /** The edges of a cycle: each item and the next, the last and the first. */
  lemma RotateEdge(g: Graph, c: seq<Node>, k: nat, i: nat)
    requires ElementaryCycle(g, c) && k < |c| && i < |c|
    ensures (Rotate(c, k)[i], Rotate(c, k)[if i + 1 < |c| then i + 1 else 0]) in g
  {
    var j := if k + i < |c| then k + i else k + i - |c|;
    RotatedAt(c, k, i);
    RotatedAt(c, k, if i + 1 < |c| then i + 1 else 0);
    assert j < |c| - 1 ==> (c[j], c[j + 1]) in g;
  }

  lemma RotateCycle(g: Graph, c: seq<Node>, k: nat)
    requires ElementaryCycle(g, c) && k < |c|
    ensures ElementaryCycle(g, Rotate(c, k)) && Rotate(c, k)[0] == c[k]
    ensures forall x :: x in Rotate(c, k) <==> x in c
  {
    var d := Rotate(c, k);
    RotateDistinct(c, k);
    RotateMembers(c, k);
    RotateEdge(g, c, k, |c| - 1);
    forall i | 0 <= i < |d| - 1
      ensures (d[i], d[i + 1]) in g
    {
      RotateEdge(g, c, k, i);
    }
  }

  /** A walk can be cut short to one that repeats no node. */
  lemma {:induction false} Shortcut(g: Graph, w: seq<Node>) returns (p: seq<Node>)
    requires Walk(g, w)
    ensures Walk(g, p) && Distinct(p) && p[0] == w[0] && p[|p| - 1] == w[|w| - 1]
    decreases |w|
  {
    if i, j :| 0 <= i < j < |w| && w[i] == w[j] {
      var v := w[..i] + w[j..];
      forall k | 0 <= k < |v| - 1
        ensures (v[k], v[k + 1]) in g
      {
        if k < i - 1 {
          assert (w[k], w[k + 1]) in g;
        } else if k == i - 1 {
          assert (w[i - 1], w[i]) in g;
        } else {
          assert (w[k - i + j], w[k - i + j + 1]) in g;
        }
      }
      p := Shortcut(g, v);
    } else {
      p := w;
    }
  }

  /** Following p up to its first node on c and then going once around c repeats no node. */
  lemma PathAroundCycle(g: Graph, p: seq<Node>, i: nat, d: seq<Node>)
    requires Walk(g, p) && Distinct(p) && i < |p| && ElementaryCycle(g, d) && d[0] == p[i]
    requires forall j :: 0 <= j < i ==> p[j] !in d
    ensures SimplePath(g, p[0], p[..i] + d)
  {
    var q := p[..i] + d;
    forall j | 0 <= j < |q| - 1
      ensures (q[j], q[j + 1]) in g
    {
      if j < i {
        assert (p[j], p[j + 1]) in g;
      } else {
        assert (d[j - i], d[j - i + 1]) in g;
      }
    }
  }

  lemma ExpandedClosesCycle(pc: ParentChildren, cycles: seq<seq<Node>>, front: seq<Node>, d: seq<Node>)
    requires ElementaryCycle(Edges(pc), d) && forall x :: x in front ==> x !in d
    requires Expanded(pc, cycles, front + d)
    ensures Covered(cycles, d)
  {
    var q := front + d;
    assert q[|q| - 1] == d[|d| - 1] && q[|front|] == d[0];
    assert (d[|d| - 1], d[0]) in Edges(pc);
    assert q[..|front|] == front && q[|front|..] == d;
    IndexOfFirst(q, |front|);
  }

  /** The search finds c as soon as it is continued around c from the first node of c it meets. */
  lemma ExploredFindsCycle(pc: ParentChildren, cycles: seq<seq<Node>>, r: Node, c: seq<Node>, x: Node)
    requires Explored(pc, cycles, r)
    requires ElementaryCycle(Edges(pc), c) && x in c && Reaches(Edges(pc), r, x)
    ensures Covered(cycles, c)
  {
    var g := Edges(pc);
    var w :| Walk(g, w) && w[0] == r && w[|w| - 1] == x;
    var p := Shortcut(g, w);
    var i := FirstHit(p, c);
    var k := IndexOf(c, p[i]);
    RotateCycle(g, c, k);
    var d := Rotate(c, k);
    PathAroundCycle(g, p, i, d);
    assert forall y :: y in p[..i] ==> y !in d;
    ExpandedClosesCycle(pc, cycles, p[..i], d);
    CoveredRotation(cycles, c, k);
  }

  lemma CoveredRotation(cycles: seq<seq<Node>>, c: seq<Node>, k: nat)
    requires k <= |c| && Covered(cycles, Rotate(c, k))
    ensures Covered(cycles, c)
  {
    var d := Rotate(c, k);
    assert IsRotation(c, d);
    RotationSymmetric(c, d);
    var n :| 0 <= n < |cycles| && IsRotation(cycles[n], d);
    RotationTransitive(cycles[n], d, c);
  }

  lemma {:induction false} FirstHit(p: seq<Node>, c: seq<Node>) returns (i: nat)
    requires p != [] && p[|p| - 1] in c
    ensures i < |p| && p[i] in c && forall j :: 0 <= j < i ==> p[j] !in c
  {
    if p[0] in c {
      i := 0;
    } else {
      i := FirstHit(p[1..], c);
      i := i + 1;
    }
  }

  // ---------------------------------------------------------------- termination of the search

  ghost predicate PathIn(pc: ParentChildren, p: seq<Node>) {
    p != [] && forall x :: x in p ==> x in Universe(pc)
  }

  /** The number of paths that the search will still pop because of p. */
  ghost function Weight(pc: ParentChildren, p: seq<Node>): (n: nat)
    requires PathIn(pc, p)
    decreases Universe(pc) - (set x | x in p), |ChildrenOf(pc, p[|p| - 1])| + 1
  {
    1 + WeightOfChildren(pc, p, ChildrenOf(pc, p[|p| - 1]))
  }

  ghost function WeightOfChildren(pc: ParentChildren, p: seq<Node>, children: seq<Node>): nat
    requires PathIn(pc, p)
    decreases Universe(pc) - (set x | x in p), |children|
  {
    if children == [] then 0 else ChildWeight(pc, p, children[0]) + WeightOfChildren(pc, p, children[1..])
  }

  ghost function ChildWeight(pc: ParentChildren, p: seq<Node>, child: Node): nat
    requires PathIn(pc, p)
    decreases Universe(pc) - (set x | x in p), 0
  {
    if child in p || child !in Universe(pc) then 0
    else
      var q := p + [child];
      assert child in Universe(pc) - (set x | x in p);
      assert (set x | x in q) == (set x | x in p) + {child};
      Weight(pc, q)
  }

  ghost function StackWeight(pc: ParentChildren, paths: seq<seq<Node>>): nat
    requires forall i :: 0 <= i < |paths| ==> PathIn(pc, paths[i])
  {
    if paths == [] then 0
    else StackWeight(pc, paths[..|paths| - 1]) + Weight(pc, paths[|paths| - 1])
  }

  // ---------------------------------------------------------------- the enumerator

  ghost predicate HasPrefixIn(paths: seq<seq<Node>>, p: seq<Node>) {
    exists i :: 0 <= i < |paths| && paths[i] <= p
  }

  /** Every simple path from the root has been expanded or continues a path on the stack. */
  ghost predicate Pending(pc: ParentChildren, cycles: seq<seq<Node>>, root: Node, paths: seq<seq<Node>>) {
    forall p :: SimplePath(Edges(pc), root, p) ==> Expanded(pc, cycles, p) || HasPrefixIn(paths, p)
  }

  /** Only elementary cycles are listed, and no two are rotations of each other. */
  ghost predicate Sound(pc: ParentChildren, cycles: seq<seq<Node>>) {
    && (forall i :: 0 <= i < |cycles| ==> ElementaryCycle(Edges(pc), cycles[i]))
    && forall i, j :: 0 <= i < j < |cycles| ==> !IsRotation(cycles[i], cycles[j])
  }

  /** The path has been popped and each of its children was recorded as a cycle or pushed. */
  ghost predicate Processed(pc: ParentChildren, cycles: seq<seq<Node>>, path: seq<Node>, paths: seq<seq<Node>>,
                            children: seq<Node>)
    requires path != []
  {
    forall j :: 0 <= j < |children| ==>
      if children[j] in path then Covered(cycles, path[IndexOf(path, children[j])..])
      else path + [children[j]] in paths
  }

  lemma CoveredMonotone(before: seq<seq<Node>>, cycles: seq<seq<Node>>)
    requires before <= cycles
    ensures forall c :: Covered(before, c) ==> Covered(cycles, c)
  {
    forall c | Covered(before, c)
      ensures Covered(cycles, c)
    {
      var i :| 0 <= i < |before| && IsRotation(before[i], c);
      assert cycles[i] == before[i];
    }
  }

  lemma ExpandedMonotone(pc: ParentChildren, before: seq<seq<Node>>, cycles: seq<seq<Node>>, p: seq<Node>)
    requires before <= cycles && p != [] && Expanded(pc, before, p)
    ensures Expanded(pc, cycles, p)
  {
    CoveredMonotone(before, cycles);
  }

  lemma ProcessedIsExpanded(pc: ParentChildren, cycles: seq<seq<Node>>, path: seq<Node>, paths: seq<seq<Node>>)
    requires path != [] && Processed(pc, cycles, path, paths, ChildrenOf(pc, path[|path| - 1]))
    ensures Expanded(pc, cycles, path)
  {
    var children := ChildrenOf(pc, path[|path| - 1]);
    forall child | child in children && child in path
      ensures Covered(cycles, path[IndexOf(path, child)..])
    {
      var j :| 0 <= j < |children| && children[j] == child;
    }
  }

  /** A longer simple path continues one of the paths pushed for it. */
  lemma ProcessedPushes(pc: ParentChildren, cycles: seq<seq<Node>>, path: seq<Node>, paths: seq<seq<Node>>,
                        p: seq<Node>)
    requires path != [] && Processed(pc, cycles, path, paths, ChildrenOf(pc, path[|path| - 1]))
    requires Walk(Edges(pc), p) && Distinct(p) && path <= p && path != p
    ensures HasPrefixIn(paths, p)
  {
    var children := ChildrenOf(pc, path[|path| - 1]);
    var child := p[|path|];
    assert (p[|path| - 1], child) in Edges(pc);
    var j :| 0 <= j < |children| && children[j] == child;
    assert child !in path;
    var k :| 0 <= k < |paths| && paths[k] == path + [child];
    assert paths[k] <= p;
  }

  lemma PendingAfterPop(pc: ParentChildren, before: seq<seq<Node>>, cycles: seq<seq<Node>>, root: Node,
                        stack: seq<seq<Node>>, path: seq<Node>, paths: seq<seq<Node>>)
    requires Pending(pc, before, root, stack + [path])
    requires before <= cycles && stack <= paths && path != []
    requires Processed(pc, cycles, path, paths, ChildrenOf(pc, path[|path| - 1]))
    ensures Pending(pc, cycles, root, paths)
  {
    forall p | SimplePath(Edges(pc), root, p)
      ensures Expanded(pc, cycles, p) || HasPrefixIn(paths, p)
    {
      if Expanded(pc, before, p) {
        ExpandedMonotone(pc, before, cycles, p);
      } else {
        var i :| 0 <= i <= |stack| && (stack + [path])[i] <= p;
        if i < |stack| {
          assert paths[i] <= p;
        } else if path == p {
          ProcessedIsExpanded(pc, cycles, path, paths);
        } else {
          ProcessedPushes(pc, cycles, path, paths, p);
        }
      }
    }
  }

  /** Closing the path on one of its own nodes gives an elementary cycle. */
  lemma ClosedPathIsCycle(pc: ParentChildren, root: Node, path: seq<Node>, child: Node)
    requires SimplePath(Edges(pc), root, path)
    requires child in ChildrenOf(pc, path[|path| - 1]) && child in path
    ensures ElementaryCycle(Edges(pc), path[IndexOf(path, child)..])
  {
    var k := IndexOf(path, child);
    var c := path[k..];
    forall i | 0 <= i < |c| - 1
      ensures (c[i], c[i + 1]) in Edges(pc)
    {
      assert (path[k + i], path[k + i + 1]) in Edges(pc);
    }
    assert (path[|path| - 1], child) in Edges(pc);
  }

  /** The inner loop over the cycles found so far. */
  method AddUnlessRotated(pc: ParentChildren, found: seq<seq<Node>>, cycle: seq<Node>) returns (cycles: seq<seq<Node>>)
    requires Sound(pc, found) && ElementaryCycle(Edges(pc), cycle)
    ensures Sound(pc, cycles) && Covered(cycles, cycle)
    ensures cycles == found || cycles == found + [cycle]
  {
    var isDup := false;
    for i := 0 to |found|
      invariant !isDup
      invariant forall j :: 0 <= j < i ==> !IsRotation(found[j], cycle)
    {
      isDup := IsRotated(found[i], cycle);
      if isDup {
        return found;
      }
    }
    cycles := found + [cycle];
    assert cycles[|found|] == Rotate(cycle, 0);
    assert IsRotation(cycles[|found|], cycle);
  }

  ghost predicate PathStack(pc: ParentChildren, root: Node, paths: seq<seq<Node>>) {
    forall i :: 0 <= i < |paths| ==> PathIn(pc, paths[i]) && SimplePath(Edges(pc), root, paths[i])
  }

  ghost predicate OnlyReached(pc: ParentChildren, root: Node, marked: set<Node>, visited: set<Node>) {
    forall v :: v in visited ==> v in marked || Reaches(Edges(pc), root, v)
  }

  lemma ProcessedStep(pc: ParentChildren, before: seq<seq<Node>>, cycles: seq<seq<Node>>, path: seq<Node>,
                      stack: seq<seq<Node>>, paths: seq<seq<Node>>, done: seq<Node>, child: Node)
    requires path != [] && before <= cycles && stack <= paths
    requires Processed(pc, before, path, stack, done)
    requires if child in path then Covered(cycles, path[IndexOf(path, child)..]) else path + [child] in paths
    ensures Processed(pc, cycles, path, paths, done + [child])
  {
    CoveredMonotone(before, cycles);
    assert forall p :: p in stack ==> p in paths;
    forall j | 0 <= j < |done|
      ensures if done[j] in path then Covered(cycles, path[IndexOf(path, done[j])..]) else path + [done[j]] in paths
    {}
  }

  lemma PushedChild(pc: ParentChildren, root: Node, path: seq<Node>, child: Node)
    requires PathIn(pc, path) && SimplePath(Edges(pc), root, path)
    requires child in ChildrenOf(pc, path[|path| - 1]) && child !in path
    ensures PathIn(pc, path + [child]) && SimplePath(Edges(pc), root, path + [child])
    ensures Reaches(Edges(pc), root, child)
  {
    assert (path[|path| - 1], child) in Edges(pc);
    assert Walk(Edges(pc), path + [child]);
  }

  /** The body of the loop over the children of the last node of a popped path. */
  method ExpandChild(pc: ParentChildren, root: Node, path: seq<Node>, child: Node, found: seq<seq<Node>>,
                     stack: seq<seq<Node>>, marked: set<Node>, ghost done: seq<Node>)
    returns (cycles: seq<seq<Node>>, paths: seq<seq<Node>>, visited: set<Node>)
    requires Sound(pc, found) && PathStack(pc, root, stack)
    requires PathIn(pc, path) && SimplePath(Edges(pc), root, path)
    requires child in ChildrenOf(pc, path[|path| - 1])
    requires Processed(pc, found, path, stack, done)
    ensures found <= cycles && Sound(pc, cycles)
    ensures stack <= paths && PathStack(pc, root, paths)
    ensures StackWeight(pc, paths) == StackWeight(pc, stack) + ChildWeight(pc, path, child)
    ensures Processed(pc, cycles, path, paths, done + [child])
    ensures OnlyReached(pc, root, marked, visited)
  {
    cycles, paths, visited := found, stack, marked;
    if child in path {
      ClosedPathIsCycle(pc, root, path, child);
      cycles := AddUnlessRotated(pc, cycles, path[IndexOf(path, child)..]);
    } else {
      PushedChild(pc, root, path, child);
      paths := paths + [path + [child]];
      visited := visited + {child};
      assert paths[..|paths| - 1] == stack;
    }
    ProcessedStep(pc, found, cycles, path, stack, paths, done, child);
  }

  /** The loop over the children of the last node of a popped path. */
  method ExpandPath(pc: ParentChildren, root: Node, path: seq<Node>, found: seq<seq<Node>>,
                    stack: seq<seq<Node>>, marked: set<Node>)
    returns (cycles: seq<seq<Node>>, paths: seq<seq<Node>>, visited: set<Node>)
    requires Sound(pc, found) && PathStack(pc, root, stack)
    requires PathIn(pc, path) && SimplePath(Edges(pc), root, path)
    ensures found <= cycles && Sound(pc, cycles)
    ensures stack <= paths && PathStack(pc, root, paths)
    ensures StackWeight(pc, paths) < StackWeight(pc, stack) + Weight(pc, path)
    ensures Processed(pc, cycles, path, paths, ChildrenOf(pc, path[|path| - 1]))
    ensures OnlyReached(pc, root, marked, visited)
  {
    cycles, paths, visited := found, stack, marked;
    var children := ChildrenOf(pc, path[|path| - 1]);
    for i := 0 to |children|
      invariant found <= cycles && Sound(pc, cycles)
      invariant stack <= paths && PathStack(pc, root, paths)
      invariant StackWeight(pc, paths) + WeightOfChildren(pc, path, children[i..])
             == StackWeight(pc, stack) + WeightOfChildren(pc, path, children)
      invariant Processed(pc, cycles, path, paths, children[..i])
      invariant OnlyReached(pc, root, marked, visited)
    {
      SliceStep(children, i);
      cycles, paths, visited := ExpandChild(pc, root, path, children[i], cycles, paths, visited, children[..i]);
    }
    assert children[..|children|] == children;
  }

  /** The search from one root: the body of the outer loop for a root not yet visited. */
  method ExploreFrom(pc: ParentChildren, root: Node, found: seq<seq<Node>>, marked: set<Node>)
    returns (cycles: seq<seq<Node>>, visited: set<Node>)
    requires root in pc && Sound(pc, found)
    ensures found <= cycles && Sound(pc, cycles)
    ensures CyclesFound(pc, cycles, root)
    ensures OnlyReached(pc, root, marked, visited)
  {
    cycles, visited := found, marked;
    var paths := [[root]];
    while paths != []
      invariant found <= cycles && Sound(pc, cycles)
      invariant PathStack(pc, root, paths)
      invariant Pending(pc, cycles, root, paths)
      invariant OnlyReached(pc, root, marked, visited)
      decreases StackWeight(pc, paths)
    {
      ghost var before := cycles;
      var path, stack := paths[|paths| - 1], paths[..|paths| - 1];
      assert paths == stack + [path];
      cycles, paths, visited := ExpandPath(pc, root, path, cycles, stack, visited);
      PendingAfterPop(pc, before, cycles, root, stack, path, paths);
    }
    forall c, x | ElementaryCycle(Edges(pc), c) && x in c && Reaches(Edges(pc), root, x)
      ensures Covered(cycles, c)
    {
      ExploredFindsCycle(pc, cycles, root, c, x);
    }
  }

  lemma ReachesTransitive(g: Graph, x: Node, y: Node, z: Node)
    requires Reaches(g, x, y) && Reaches(g, y, z)
    ensures Reaches(g, x, z)
  {
    var v :| Walk(g, v) && v[0] == x && v[|v| - 1] == y;
    var w :| Walk(g, w) && w[0] == y && w[|w| - 1] == z;
    var u := v + w[1..];
    forall i | 0 <= i < |u| - 1
      ensures (u[i], u[i + 1]) in g
    {
      if i >= |v| - 1 {
        assert (w[i - (|v| - 1)], w[i - (|v| - 1) + 1]) in g;
      }
    }
    assert Walk(g, u);
  }

  /** Marking a node as visited is safe: what it reaches, the root it was reached from reaches too. */
  lemma CyclesFoundFromReached(pc: ParentChildren, cycles: seq<seq<Node>>, root: Node, v: Node)
    requires CyclesFound(pc, cycles, root) && Reaches(Edges(pc), root, v)
    ensures CyclesFound(pc, cycles, v)
  {
    forall c, x | ElementaryCycle(Edges(pc), c) && x in c && Reaches(Edges(pc), v, x)
      ensures Covered(cycles, c)
    {
      ReachesTransitive(Edges(pc), root, v, x);
    }
  }

  /** The mapping's keys are visited in the order of the list `keys`. The cycles are listed in the order
      in which the generator yields them. */
  method FindCycles(pc: ParentChildren, keys: seq<Node>) returns (cycles: seq<seq<Node>>)
    requires forall x :: x in keys <==> x in pc
    ensures Sound(pc, cycles)
    ensures forall c :: ElementaryCycle(Edges(pc), c) ==> Covered(cycles, c)
  {
    cycles := [];
    var visited: set<Node> := {};
    for k := 0 to |keys|
      invariant Sound(pc, cycles)
      invariant forall j :: 0 <= j < k ==> CyclesFound(pc, cycles, keys[j])
      invariant forall v :: v in visited ==> CyclesFound(pc, cycles, v)
    {
      if keys[k] in visited {
        continue;
      }
      ghost var before, marked := cycles, visited;
      cycles, visited := ExploreFrom(pc, keys[k], cycles, visited);
      CoveredMonotone(before, cycles);
      forall v | v in visited
        ensures CyclesFound(pc, cycles, v)
      {
        if v !in marked {
          CyclesFoundFromReached(pc, cycles, keys[k], v);
        }
      }
    }
    forall c | ElementaryCycle(Edges(pc), c)
      ensures Covered(cycles, c)
    {
      var x := c[0];
      assert (x, if |c| == 1 then c[0] else c[1]) in Edges(pc);
      var j :| 0 <= j < |keys| && keys[j] == x;
      assert Walk(Edges(pc), [x]) && [x][0] == x;
      assert Reaches(Edges(pc), x, x);
      assert CyclesFound(pc, cycles, x);
    }
  }

  /** Every elementary cycle is a rotation of exactly one listed cycle. */
  lemma ListedExactlyOnce(pc: ParentChildren, cycles: seq<seq<Node>>, c: seq<Node>, i: nat, j: nat)
    requires Sound(pc, cycles)
    requires i < |cycles| && j < |cycles| && IsRotation(cycles[i], c) && IsRotation(cycles[j], c)
    ensures i == j
  {
    RotationSymmetric(cycles[i], c);
    RotationSymmetric(cycles[j], c);
    RotationTransitive(cycles[i], c, cycles[j]);
    RotationTransitive(cycles[j], c, cycles[i]);
  }
}
