/** All the arrangements of a list. */
module Permutations {
  import opened Sequences

  type Item(==, !new)

  function Factorial(n: nat): (f: nat)
    ensures f >= 1
  {
    if n == 0 then 1 else Factorial(n - 1) * n
  }

  ghost predicate IsRearrangement(p: seq<Item>, list: seq<Item>) {
    multiset(p) == multiset(list)
  }

  function Insert(list: seq<Item>, item: Item, i: nat): (r: seq<Item>)
    requires i <= |list|
    ensures |r| == |list| + 1
  {
    list[..i] + [item] + list[i..]
  }

  /** The item inserted in the first n positions of the list. */
  function Insertions(list: seq<Item>, item: Item, n: nat): (r: seq<seq<Item>>)
    requires n <= |list| + 1
    ensures |r| == n
  {
    if n == 0 then [] else Insertions(list, item, n - 1) + [Insert(list, item, n - 1)]
  }

  /** The item inserted in every position of every list. */
  function Spread(lists: seq<seq<Item>>, item: Item): seq<seq<Item>> {
    if lists == [] then []
    else
      var last := lists[|lists| - 1];
      Spread(lists[..|lists| - 1], item) + Insertions(last, item, |last| + 1)
  }

  // ---------------------------------------------------------------- which lists are produced

  lemma {:induction false} InsertionAt(list: seq<Item>, item: Item, n: nat, i: nat)
    requires i < n <= |list| + 1
    ensures Insertions(list, item, n)[i] == Insert(list, item, i)
  {
    if i < n - 1 {
      InsertionAt(list, item, n - 1, i);
    }
  }

  lemma InsertionMember(list: seq<Item>, item: Item, q: seq<Item>) returns (i: nat)
    requires q in Insertions(list, item, |list| + 1)
    ensures i <= |list| && q == Insert(list, item, i)
  {
    i :| 0 <= i <= |list| && Insertions(list, item, |list| + 1)[i] == q;
    InsertionAt(list, item, |list| + 1, i);
  }

  lemma {:induction false} SpreadMember(lists: seq<seq<Item>>, item: Item, q: seq<Item>) returns (s: seq<Item>, i: nat)
    requires q in Spread(lists, item)
    ensures s in lists && i <= |s| && q == Insert(s, item, i)
  {
    var rest, last := lists[..|lists| - 1], lists[|lists| - 1];
    if q in Spread(rest, item) {
      s, i := SpreadMember(rest, item, q);
    } else {
      s := last;
      i := InsertionMember(last, item, q);
    }
  }

  lemma {:induction false} SpreadCovers(lists: seq<seq<Item>>, item: Item, s: seq<Item>, i: nat)
    requires s in lists && i <= |s|
    ensures Insert(s, item, i) in Spread(lists, item)
  {
    var rest, last := lists[..|lists| - 1], lists[|lists| - 1];
    if s in rest {
      SpreadCovers(rest, item, s, i);
    } else {
      assert s == last;
      InsertionAt(s, item, |s| + 1, i);
    }
  }

  lemma {:induction false} SpreadLength(lists: seq<seq<Item>>, item: Item, n: nat)
    requires forall s :: s in lists ==> |s| + 1 == n
    ensures |Spread(lists, item)| == |lists| * n
  {
    if lists == [] {
      assert 0 * n == 0;
    } else {
      SpreadLength(lists[..|lists| - 1], item, n);
      OneMore(|lists| - 1, n);
    }
  }

  lemma OneMore(k: nat, n: nat)
    ensures k * n + n == (k + 1) * n
  {}

  // ---------------------------------------------------------------- rearrangements

  lemma InsertRearranges(list: seq<Item>, item: Item, i: nat)
    requires i <= |list|
    ensures multiset(Insert(list, item, i)) == multiset([item] + list)
  {
    assert list == list[..i] + list[i..];
  }

  /** Taking the first occurrence of an item out of a list. */
  lemma TakeOut(p: seq<Item>, item: Item) returns (s: seq<Item>, i: nat)
    requires item in p
    ensures i <= |s| && p == Insert(s, item, i)
  {
    i :| 0 <= i < |p| && p[i] == item;
    s := p[..i] + p[i + 1..];
    assert s[..i] == p[..i] && s[i..] == p[i + 1..];
  }

  lemma SameRest(p: seq<Item>, s: seq<Item>, list: seq<Item>, i: nat)
    requires list != [] && i <= |s| && p == Insert(s, list[0], i) && IsRearrangement(p, list)
    ensures IsRearrangement(s, list[1..])
  {
    InsertRearranges(s, list[0], i);
    assert list == [list[0]] + list[1..];
    assert multiset([list[0]] + s) == multiset{list[0]} + multiset(s);
    assert multiset([list[0]] + list[1..]) == multiset{list[0]} + multiset(list[1..]);
    assert multiset(s) == multiset([list[0]] + s) - multiset{list[0]};
  }

  lemma RearrangementLength(p: seq<Item>, list: seq<Item>)
    requires IsRearrangement(p, list)
    ensures |p| == |list|
  {
    assert |multiset(p)| == |p|;
  }

  /** What one level of the recursion turns the arrangements of the rest of a list into. */
  lemma SpreadIsRearrangements(list: seq<Item>, lists: seq<seq<Item>>, p: seq<Item>)
    requires list != [] && forall s :: s in lists <==> IsRearrangement(s, list[1..])
    ensures p in Spread(lists, list[0]) <==> IsRearrangement(p, list)
  {
    var item := list[0];
    assert list == [item] + list[1..];
    if p in Spread(lists, item) {
      var s, i := SpreadMember(lists, item, p);
      InsertRearranges(s, item, i);
    }
    if IsRearrangement(p, list) {
      assert item in multiset(list);
      assert item in p;
      var s, i := TakeOut(p, item);
      SameRest(p, s, list, i);
      SpreadCovers(lists, item, s, i);
    }
  }

  lemma ShortRearrangement(list: seq<Item>, p: seq<Item>)
    requires |list| <= 1 && IsRearrangement(p, list)
    ensures p == list
  {
    RearrangementLength(p, list);
    if |list| == 1 {
      assert p[0] in multiset(p);
      assert p[0] in multiset(list);
    }
  }

  // ---------------------------------------------------------------- no repetitions

  lemma EarlierInsert(s: seq<Item>, i: nat, t: seq<Item>, j: nat, item: Item)
    requires i <= |s| && i < j <= |t| && item !in t
    ensures Insert(s, item, i) != Insert(t, item, j)
  {
    assert Insert(s, item, i)[i] == item && Insert(t, item, j)[i] == t[i];
  }

  lemma InsertInjective(s: seq<Item>, i: nat, t: seq<Item>, j: nat, item: Item)
    requires i <= |s| && j <= |t| && item !in s && item !in t
    requires Insert(s, item, i) == Insert(t, item, j)
    ensures i == j && s == t
  {
    var p, q := Insert(s, item, i), Insert(t, item, j);
    assert forall k :: 0 <= k < |s| ==> s[k] == p[if k < i then k else k + 1];
    assert forall k :: 0 <= k < |t| ==> t[k] == q[if k < j then k else k + 1];
    if i < j {
      EarlierInsert(s, i, t, j, item);
    } else if j < i {
      EarlierInsert(t, j, s, i, item);
    }
  }

  lemma {:induction false} InsertionsDistinct(list: seq<Item>, item: Item, n: nat)
    requires n <= |list| + 1 && item !in list
    ensures Distinct(Insertions(list, item, n))
  {
    if n > 0 {
      InsertionsDistinct(list, item, n - 1);
      var earlier := Insertions(list, item, n - 1);
      forall i | 0 <= i < |earlier|
        ensures earlier[i] != Insert(list, item, n - 1)
      {
        InsertionAt(list, item, n - 1, i);
        if Insert(list, item, i) == Insert(list, item, n - 1) {
          InsertInjective(list, i, list, n - 1, item);
        }
      }
    }
  }

  lemma {:induction false} SpreadDistinct(lists: seq<seq<Item>>, item: Item)
    requires Distinct(lists) && forall s :: s in lists ==> item !in s
    ensures Distinct(Spread(lists, item))
  {
    if lists != [] {
      var rest, last := lists[..|lists| - 1], lists[|lists| - 1];
      SpreadDistinct(rest, item);
      InsertionsDistinct(last, item, |last| + 1);
      forall q | q in Spread(rest, item)
        ensures q !in Insertions(last, item, |last| + 1)
      {
        var s, i := SpreadMember(rest, item, q);
        if q in Insertions(last, item, |last| + 1) {
          var j := InsertionMember(last, item, q);
          InsertInjective(s, i, last, j, item);
        }
      }
      DistinctAppend(Spread(rest, item), Insertions(last, item, |last| + 1));
    }
  }

  lemma AbsentFromRest(list: seq<Item>, s: seq<Item>)
    requires list != [] && Distinct(list) && IsRearrangement(s, list[1..])
    ensures list[0] !in s
  {
    var rest := list[1..];
    assert forall x :: x in multiset(rest) ==> x in rest;
    assert forall x :: x in s ==> x in multiset(s);
    assert forall x :: x in rest ==> exists k :: 1 <= k < |list| && list[k] == x;
  }

  // ---------------------------------------------------------------- the algorithm

  ghost predicate AllArrangements(out: seq<seq<Item>>, list: seq<Item>) {
    && |out| == Factorial(|list|)
    && (forall p :: p in out <==> IsRearrangement(p, list))
    && (Distinct(list) ==> Distinct(out))
  }

  lemma ArrangementsStep(list: seq<Item>, lists: seq<seq<Item>>)
    requires list != [] && AllArrangements(lists, list[1..])
    ensures AllArrangements(Spread(lists, list[0]), list)
  {
    forall s | s in lists
      ensures |s| + 1 == |list|
    {
      RearrangementLength(s, list[1..]);
    }
    SpreadLength(lists, list[0], |list|);
    forall p
      ensures p in Spread(lists, list[0]) <==> IsRearrangement(p, list)
    {
      SpreadIsRearrangements(list, lists, p);
    }
    if Distinct(list) {
      DistinctStep(list, lists);
    }
  }

  lemma DistinctStep(list: seq<Item>, lists: seq<seq<Item>>)
    requires list != [] && Distinct(list) && AllArrangements(lists, list[1..])
    ensures Distinct(Spread(lists, list[0]))
  {
    forall s | s in lists
      ensures list[0] !in s
    {
      AbsentFromRest(list, s);
    }
    SpreadDistinct(lists, list[0]);
  }

  /** permutations: n! lists, which are the rearrangements of the input; without repetitions when its items are
      distinct. */
  method Permutations(list: seq<Item>) returns (out: seq<seq<Item>>)
    ensures AllArrangements(out, list)
  {
    out := [];
    if |list| > 1 {
      var item := list[0];
      var subLists := Permutations(list[1..]);
      for k := 0 to |subLists|
        invariant out == Spread(subLists[..k], item)
      {
        var subList := subLists[k];
        assert IsRearrangement(subList, list[1..]);
        RearrangementLength(subList, list[1..]);
        for i := 0 to |list|
          invariant out == Spread(subLists[..k], item) + Insertions(subList, item, i)
        {
          out := out + [Insert(subList, item, i)];
        }
        assert subLists[..k + 1][..k] == subLists[..k];
      }
      assert subLists[..|subLists|] == subLists;
      ArrangementsStep(list, subLists);
    } else {
      out := [list];
      forall p | IsRearrangement(p, list)
        ensures p == list
      {
        ShortRearrangement(list, p);
      }
    }
  }
}
