/** Sequences: those without repetitions, and facts about slices and concatenations. */
module Sequences {

  ghost predicate Distinct<T>(s: seq<T>) {
    forall i, j :: 0 <= i < j < |s| ==> s[i] != s[j]
  }

  lemma {:induction false} DistinctBound<T>(s: seq<T>, u: set<T>)
    requires Distinct(s) && forall x :: x in s ==> x in u
    ensures |s| <= |u|
  {
    if s != [] {
      var last := s[|s| - 1];
      DistinctBound(s[..|s| - 1], u - {last});
    }
  }

  lemma DistinctAppend<T>(s: seq<T>, t: seq<T>)
    requires Distinct(s) && Distinct(t) && forall x :: x in t ==> x !in s
    ensures Distinct(s + t)
  {
    var u := s + t;
    forall i, j | 0 <= i < j < |u|
      ensures u[i] != u[j]
    {
      assert j >= |s| ==> u[j] in t;
      assert i < |s| ==> u[i] in s;
    }
  }

  lemma DistinctCons<T>(x: T, s: seq<T>)
    ensures Distinct([x] + s) <==> Distinct(s) && x !in s
  {
    var t := [x] + s;
    if Distinct(t) {
      forall i | 0 <= i < |s|
        ensures s[i] != x
      {
        assert s[i] == t[i + 1] && t[0] == x;
      }
      forall i, j | 0 <= i < j < |s|
        ensures s[i] != s[j]
      {
        assert s[i] == t[i + 1] && s[j] == t[j + 1];
      }
    }
    if Distinct(s) && x !in s {
      assert forall i :: 1 <= i < |t| ==> t[i] == s[i - 1] && t[i] in s;
    }
  }

  // ---------------------------------------------------------------- slices and concatenations

  lemma Associates<T>(a: seq<T>, b: seq<T>, c: seq<T>)
    ensures a + b + c == a + (b + c)
  {}

  lemma Nested<T>(a: seq<T>, b: seq<T>, c: seq<T>, d: seq<T>)
    ensures a + (b + (c + d)) == a + (b + c) + d
  {}

  lemma AppendNothing<T>(a: seq<T>)
    ensures a + [] == a && [] + a == a
  {}

  lemma AppendHead<T>(a: seq<T>, s: seq<T>)
    requires s != []
    ensures a + [s[0]] + s[1..] == a + s
  {}

  lemma SplitLast<T>(s: seq<T>)
    requires s != []
    ensures s == s[..|s| - 1] + [s[|s| - 1]]
  {}

  lemma SplitLastTwo<T>(s: seq<T>)
    requires |s| >= 2
    ensures s == s[..|s| - 2] + [s[|s| - 2]] + [s[|s| - 1]]
  {}

  lemma UpdateLast<T>(s: seq<T>, x: T, y: T)
    ensures (s + [x])[|s|] == x && (s + [x])[|s| := y] == s + [y]
  {}

  lemma DropPushed<T>(s: seq<T>, x: T)
    ensures (s + [x])[..|s + [x]| - 1] == s
  {}

  lemma TakeAll<T>(s: seq<T>)
    ensures s[..|s|] == s
  {}

  lemma SliceStep<T>(s: seq<T>, i: nat)
    requires i < |s|
    ensures s[i..] == [s[i]] + s[i + 1..] && s[i..][1..] == s[i + 1..] && s[..i + 1] == s[..i] + [s[i]]
  {}
}
