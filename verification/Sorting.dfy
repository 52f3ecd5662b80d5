// sort.Ints and sort.SliceStable, as insertion sorts over values.
module Sorting {

  ghost predicate Sorted(s: seq<int>)
  {
    forall i, j :: 0 <= i < j < |s| ==> s[i] <= s[j]
  }

  ghost predicate StrictlyIncreasing(s: seq<int>)
  {
    forall i, j :: 0 <= i < j < |s| ==> s[i] < s[j]
  }

  ghost predicate NoDuplicates<T>(s: seq<T>)
  {
    forall i, j :: 0 <= i < j < |s| ==> s[i] != s[j]
  }

  // Stable insertion by key: after the elements with a key not above x's.
  function InsertBy<T>(key: T -> int, x: T, s: seq<T>): (r: seq<T>)
    ensures multiset(r) == multiset(s) + multiset{x}
    ensures |r| == |s| + 1
  {
    if s == [] then [x]
    else if key(x) < key(s[|s| - 1]) then
      assert s == s[..|s| - 1] + [s[|s| - 1]];
      InsertBy(key, x, s[..|s| - 1]) + [s[|s| - 1]]
    else s + [x]
  }

  function SortBy<T>(key: T -> int, s: seq<T>): (r: seq<T>)
    ensures multiset(r) == multiset(s)
    ensures |r| == |s|
  {
    if s == [] then []
    else
      assert s == s[..|s| - 1] + [s[|s| - 1]];
      InsertBy(key, s[|s| - 1], SortBy(key, s[..|s| - 1]))
  }

  ghost predicate SortedBy<T>(key: T -> int, s: seq<T>)
  {
    forall i, j :: 0 <= i < j < |s| ==> key(s[i]) <= key(s[j])
  }

  lemma SameElements<T>(r: seq<T>, s: seq<T>)
    requires multiset(r) == multiset(s)
    ensures forall x :: x in r <==> x in s
  {
    forall x ensures x in r <==> x in s {
      assert x in r <==> x in multiset(r);
      assert x in s <==> x in multiset(s);
    }
  }

  lemma {:induction false} InsertBySorted<T>(key: T -> int, x: T, s: seq<T>)
    requires SortedBy(key, s)
    ensures SortedBy(key, InsertBy(key, x, s))
  {
    if s != [] && key(x) < key(s[|s| - 1]) {
      var init := s[..|s| - 1];
      InsertBySorted(key, x, init);
      var r := InsertBy(key, x, init);
      forall i | 0 <= i < |r| ensures key(r[i]) <= key(s[|s| - 1]) {
        assert r[i] in multiset(r);
        assert r[i] == x || r[i] in multiset(init);
      }
    }
  }

  lemma {:induction false} SortBySorted<T>(key: T -> int, s: seq<T>)
    ensures SortedBy(key, SortBy(key, s))
  {
    if s != [] {
      SortBySorted(key, s[..|s| - 1]);
      InsertBySorted(key, s[|s| - 1], SortBy(key, s[..|s| - 1]));
    }
  }

  function SortInts(s: seq<int>): (r: seq<int>)
    ensures Sorted(r) && |r| == |s| && multiset(r) == multiset(s)
    ensures forall x :: x in r <==> x in s
  {
    SortBySorted((x: int) => x, s);
    SameElements(SortBy((x: int) => x, s), s);
    SortBy((x: int) => x, s)
  }

  lemma {:induction false} SortedStays(s: seq<int>)
    requires Sorted(s)
    ensures SortInts(s) == s
  {
    if s != [] {
      var init := s[..|s| - 1];
      SortedStays(init);
      assert s == init + [s[|s| - 1]];
    }
  }

  // A value at two positions counts twice.
  lemma RepeatCounts<T>(s: seq<T>, i: nat, j: nat)
    requires i < j < |s| && s[i] == s[j]
    ensures multiset(s)[s[i]] >= 2
  {
    assert s == s[..i] + [s[i]] + s[i + 1..j] + [s[j]] + s[j + 1..];
  }

  lemma {:induction false} CountOfNoDuplicates<T>(s: seq<T>, x: T)
    requires NoDuplicates(s)
    ensures multiset(s)[x] <= 1
  {
    if s != [] {
      var init := s[..|s| - 1];
      assert s == init + [s[|s| - 1]];
      CountOfNoDuplicates(init, x);
      if x == s[|s| - 1] {
        assert x !in init;
      }
    }
  }

  lemma PermutationNoDuplicates<T>(s: seq<T>, r: seq<T>)
    requires multiset(s) == multiset(r) && NoDuplicates(s)
    ensures NoDuplicates(r)
  {
    forall i, j | 0 <= i < j < |r| ensures r[i] != r[j] {
      CountOfNoDuplicates(s, r[i]);
      if r[i] == r[j] { RepeatCounts(r, i, j); }
    }
  }

  ghost function Members<T(!new)>(s: seq<T>): (r: set<T>)
    ensures forall x :: x in r <==> x in s
  {
    set x | x in s
  }

  lemma {:induction false} MembersCount<T(!new)>(s: seq<T>)
    requires NoDuplicates(s)
    ensures |Members(s)| == |s|
  {
    if s == [] {
      assert Members(s) == {};
    } else {
      var n := |s| - 1;
      MembersCount(s[..n]);
      assert Members(s) == Members(s[..n]) + {s[n]};
    }
  }

  lemma SortStrict(s: seq<int>)
    requires NoDuplicates(s)
    ensures StrictlyIncreasing(SortInts(s))
  {
    PermutationNoDuplicates(s, SortInts(s));
  }

  // Removing one element leaves the others.
  lemma OtherStays<T>(s: seq<T>, k: nat, x: T)
    requires k < |s| && x in s && x != s[k]
    ensures x in s[..k] + s[k + 1..]
  {
    var j :| 0 <= j < |s| && s[j] == x;
    if j < k {
      assert (s[..k] + s[k + 1..])[j] == x;
    } else {
      assert (s[..k] + s[k + 1..])[j - 1] == x;
    }
  }
}
