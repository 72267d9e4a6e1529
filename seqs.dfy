/**
 * Generic sequence tools used by the read side of the model: filtering a
 * sequence, a stable insertion sort by an integer key, a page of a sorted
 * listing, and turning a set of row ids into an ordered listing.
 */
module Seqs {
  import opened Wrappers

  /** Rows per page for every paginated listing (`paginate(10)`). */
  const PerPage: nat := 10

  /** The elements of `s` that satisfy `p`, in their original order. */
  function Filter<T(!new)>(s: seq<T>, p: T -> bool): (r: seq<T>)
    ensures |r| <= |s|
    ensures forall x :: x in r <==> x in s && p(x)
    ensures forall i :: 0 <= i < |r| ==> p(r[i])
  {
    if s == [] then []
    else
      var rest := Filter(s[..|s| - 1], p);
      assert forall x :: x in s <==> x in s[..|s| - 1] || x == s[|s| - 1];
      if p(s[|s| - 1]) then rest + [s[|s| - 1]] else rest
  }

  /** Filtering by a predicate every element satisfies keeps the whole sequence. */
  lemma {:induction false} FilterAll<T(!new)>(s: seq<T>, p: T -> bool)
    requires forall x :: x in s ==> p(x)
    ensures Filter(s, p) == s
  {
    if s != [] {
      var s' := s[..|s| - 1];
      assert forall x :: x in s' ==> x in s;
      FilterAll(s', p);
      assert s == s' + [s[|s| - 1]];
    }
  }

  /** The positions of `s` whose element passes `p`. */
  ghost function Positions<T>(s: seq<T>, p: T -> bool): set<int>
  {
    set i | 0 <= i < |s| && p(s[i])
  }

  /** The filtered sequence is as long as the set of positions whose element passes. */
  lemma {:induction false} FilterIndices<T(!new)>(s: seq<T>, p: T -> bool)
    ensures |Filter(s, p)| == |Positions(s, p)|
  {
    if s != [] {
      var s' := s[..|s| - 1];
      FilterIndices(s', p);
      IndicesStep(s, p);
    }
  }

  /** The positions passing in `s` are those passing in `s` without its last element, and maybe the last. */
  lemma IndicesStep<T>(s: seq<T>, p: T -> bool)
    requires s != []
    ensures var last := |s| - 1;
      Positions(s, p) == Positions(s[..last], p) + (if p(s[last]) then {last} else {})
  {
    var last := |s| - 1;
    forall i | 0 <= i < last
      ensures s[..last][i] == s[i]
    {
    }
  }

  /** Filtering by two predicates that agree on every element gives the same sequence. */
  lemma {:induction false} FilterCongruent<T(!new)>(s: seq<T>, p: T -> bool, q: T -> bool)
    requires forall x :: x in s ==> p(x) == q(x)
    ensures Filter(s, p) == Filter(s, q)
  {
    if s != [] {
      assert forall x :: x in s[..|s| - 1] ==> x in s;
      FilterCongruent(s[..|s| - 1], p, q);
    }
  }

  /** `s` is in ascending order of `key`. */
  ghost predicate Ascending<T>(s: seq<T>, key: T -> int)
  {
    forall i, j :: 0 <= i < j < |s| ==> key(s[i]) <= key(s[j])
  }

  /** In a sorted sequence no element's key is below the first element's. */
  lemma HeadBelow<T>(s: seq<T>, key: T -> int)
    requires Ascending(s, key) && s != []
    ensures forall y :: y in s ==> key(s[0]) <= key(y)
  {
    forall y | y in s
      ensures key(s[0]) <= key(y)
    {
      assert exists j :: 0 <= j < |s| && s[j] == y;
      var j :| 0 <= j < |s| && s[j] == y;
    }
  }

  /** Inserts `x` in front of the first element of `s` whose key is not smaller. */
  function Insert<T>(x: T, s: seq<T>, key: T -> int): (r: seq<T>)
    ensures multiset(r) == multiset(s) + multiset{x}
    ensures |r| == |s| + 1
  {
    if s == [] then [x]
    else if key(x) <= key(s[0]) then [x] + s
    else
      assert s == [s[0]] + s[1..];
      [s[0]] + Insert(x, s[1..], key)
  }

  /** Putting an element no larger than any of a sorted sequence in front keeps it sorted. */
  lemma ConsAscending<T>(h: T, s: seq<T>, key: T -> int)
    requires Ascending(s, key)
    requires forall i :: 0 <= i < |s| ==> key(h) <= key(s[i])
    ensures Ascending([h] + s, key)
  {
    var r := [h] + s;
    forall i, j | 0 <= i < j < |r|
      ensures key(r[i]) <= key(r[j])
    {
      assert r[j] == s[j - 1];
      if i > 0 {
        assert r[i] == s[i - 1];
      }
    }
  }

  /** Every element of a sequence is in a permutation of it. */
  lemma MembersFromMultiset<T>(a: seq<T>, b: seq<T>, x: T)
    requires multiset(a) == multiset(b) + multiset{x}
    ensures forall i :: 0 <= i < |a| ==> a[i] == x || a[i] in b
  {
    forall i | 0 <= i < |a|
      ensures a[i] == x || a[i] in b
    {
      assert a[i] in multiset(a);
    }
  }

  /** Inserting into a sorted sequence keeps it sorted. */
  lemma {:induction false} InsertAscending<T>(x: T, s: seq<T>, key: T -> int)
    requires Ascending(s, key)
    ensures Ascending(Insert(x, s, key), key)
  {
    if s == [] {
    } else if key(x) <= key(s[0]) {
      ConsAscending(x, s, key);
    } else {
      var tail := s[1..];
      var rest := Insert(x, tail, key);
      assert Ascending(tail, key) by {
        assert forall i :: 0 <= i < |tail| ==> tail[i] == s[i + 1];
      }
      InsertAscending(x, tail, key);
      HeadBelow(s, key);
      MembersFromMultiset(rest, tail, x);
      forall i | 0 <= i < |rest|
        ensures key(s[0]) <= key(rest[i])
      {
        if rest[i] != x {
          assert rest[i] in tail;
          assert rest[i] in s;
        }
      }
      ConsAscending(s[0], rest, key);
    }
  }

  /** Stable insertion sort of `s` by ascending `key`. */
  function SortBy<T>(s: seq<T>, key: T -> int): (r: seq<T>)
    ensures Ascending(r, key)
    ensures multiset(r) == multiset(s)
    ensures |r| == |s|
  {
    if s == [] then []
    else
      assert s == [s[0]] + s[1..];
      var rest := SortBy(s[1..], key);
      InsertAscending(s[0], rest, key);
      Insert(s[0], rest, key)
  }

  /** Laravel's page resolution: a missing or non-positive page number means page 1. */
  function CurrentPage(page: Option<int>): (p: nat)
    ensures p >= 1
    ensures page.Some? && page.value >= 1 ==> p == page.value
  {
    if page.Some? && page.value >= 1 then page.value else 1
  }

  /** The `page`-th slice of `PerPage` rows of the listing `s`. */
  function Page<T>(s: seq<T>, page: Option<int>): (r: seq<T>)
    ensures |r| <= PerPage
    ensures var lo := (CurrentPage(page) - 1) * PerPage;
      |r| == if |s| <= lo then 0 else if |s| - lo < PerPage then |s| - lo else PerPage
    ensures forall i :: 0 <= i < |r| ==>
      (CurrentPage(page) - 1) * PerPage + i < |s| && r[i] == s[(CurrentPage(page) - 1) * PerPage + i]
  {
    var lo := (CurrentPage(page) - 1) * PerPage;
    if lo >= |s| then []
    else if lo + PerPage <= |s| then s[lo..lo + PerPage]
    else s[lo..]
  }

  /** A page holds only rows of its listing. */
  lemma PageMembers<T>(s: seq<T>, page: Option<int>)
    ensures forall x :: x in Page(s, page) ==> x in s
  {
    var r := Page(s, page);
    forall x | x in r
      ensures x in s
    {
      var i :| 0 <= i < |r| && r[i] == x;
      assert s[(CurrentPage(page) - 1) * PerPage + i] == x;
    }
  }

  /** A page of a sorted listing is sorted and holds only rows of the listing. */
  lemma PageAscending<T>(s: seq<T>, key: T -> int, page: Option<int>)
    requires Ascending(s, key)
    ensures Ascending(Page(s, page), key)
    ensures forall x :: x in Page(s, page) ==> x in s
  {
    var r := Page(s, page);
    var lo := (CurrentPage(page) - 1) * PerPage;
    assert forall i :: 0 <= i < |r| ==> lo + i < |s| && r[i] == s[lo + i];
    forall i, j | 0 <= i < j < |r|
      ensures key(r[i]) <= key(r[j])
    {
      assert key(s[lo + i]) <= key(s[lo + j]);
    }
    assert forall i :: 0 <= i < |r| ==> r[i] in s;
  }

  /**
   * Paging loses nothing and duplicates nothing: row `j` of the listing is
   * row `j % PerPage` of page `j / PerPage + 1`, and no other page position
   * holds an index other than its own.
   */
  lemma OnItsPage<T>(s: seq<T>, j: nat)
    requires j < |s|
    ensures var pg := Page(s, Some(j / PerPage + 1));
      j % PerPage < |pg| && pg[j % PerPage] == s[j]
  {
    var pg := Page(s, Some(j / PerPage + 1));
    var lo := (j / PerPage) * PerPage;
    assert lo + j % PerPage == j;
    assert lo <= j < |s|;
    if lo + PerPage <= |s| {
      assert |pg| == PerPage;
    } else {
      assert |pg| == |s| - lo;
    }
  }

  /** Every row of a listing is on some page of it. */
  lemma OnSomePage<T>(s: seq<T>, x: T)
    requires x in s
    ensures exists p :: p >= 1 && x in Page(s, Some(p))
  {
    assert exists j :: 0 <= j < |s| && s[j] == x;
    var j :| 0 <= j < |s| && s[j] == x;
    OnItsPage(s, j);
    assert Page(s, Some(j / PerPage + 1))[j % PerPage] == x;
  }

  /** No element occurs twice in `s`. */
  ghost predicate Distinct<T>(s: seq<T>)
  {
    forall i, j :: 0 <= i < j < |s| ==> s[i] != s[j]
  }

  /** A listing without repetitions is exactly as long as the set of its rows. */
  lemma {:induction false} DistinctCard<T>(s: seq<T>)
    requires Distinct(s)
    ensures |set x | x in s| == |s|
  {
    if s != [] {
      var s' := s[..|s| - 1];
      var last := s[|s| - 1];
      assert Distinct(s');
      DistinctCard(s');
      assert last !in s';
      assert (set x | x in s) == (set x | x in s') + {last};
    }
  }

  /** The first `n` elements of `s`, or all of them when there are fewer. */
  function Take<T>(s: seq<T>, n: nat): (r: seq<T>)
    ensures |r| == if |s| <= n then |s| else n
    ensures forall i :: 0 <= i < |r| ==> r[i] == s[i]
  {
    if |s| <= n then s else s[..n]
  }

  /** A prefix holds each element at most as often as the whole sequence. */
  lemma TakeMultiset<T>(s: seq<T>, n: nat)
    ensures multiset(Take(s, n)) <= multiset(s)
  {
    if n < |s| {
      assert s == s[..n] + s[n..];
    }
  }

  /** In a listing without repetitions every element occurs once. */
  lemma {:induction false} DistinctOnce<T>(s: seq<T>)
    requires Distinct(s)
    ensures forall x :: multiset(s)[x] <= 1
  {
    if s != [] {
      var s' := s[..|s| - 1];
      var last := s[|s| - 1];
      assert s == s' + [last];
      assert Distinct(s');
      DistinctOnce(s');
      assert last !in s';
      assert multiset(s')[last] == 0;
    }
  }

  /** Two equal entries at different positions make an element occur twice. */
  lemma RepeatCounts<T>(s: seq<T>, i: nat, j: nat)
    requires i < j < |s|
    ensures s[i] == s[j] ==> multiset(s)[s[i]] >= 2
  {
    assert s == s[..j] + s[j..];
    assert s[i] in s[..j];
    assert s[j] in s[j..];
    assert multiset(s)[s[j]] == multiset(s[..j])[s[j]] + multiset(s[j..])[s[j]];
  }

  /** A listing in which every element occurs at most once has no repetitions. */
  lemma OnceDistinct<T>(s: seq<T>)
    requires forall x :: multiset(s)[x] <= 1
    ensures Distinct(s)
  {
    forall i, j | 0 <= i < j < |s|
      ensures s[i] != s[j]
    {
      RepeatCounts(s, i, j);
    }
  }

  /** Reordering a listing without repetitions keeps it without repetitions. */
  lemma PermutationDistinct<T>(a: seq<T>, b: seq<T>)
    requires multiset(a) == multiset(b) && Distinct(a)
    ensures Distinct(b)
  {
    DistinctOnce(a);
    OnceDistinct(b);
  }

  /** Two permutations of each other hold the same elements. */
  lemma PermutationMembers<T>(a: seq<T>, b: seq<T>)
    requires multiset(a) == multiset(b)
    ensures forall x :: x in a <==> x in b
  {
    forall x
      ensures x in a <==> x in b
    {
      assert x in a <==> x in multiset(a);
      assert x in b <==> x in multiset(b);
    }
  }

  /** A listing without repetitions of the members of `members` is as long as that set is large. */
  lemma DistinctListingCard<T>(s: seq<T>, members: set<T>)
    requires Distinct(s) && forall x :: x in s <==> x in members
    ensures |members| == |s|
  {
    DistinctCard(s);
    assert (set x | x in s) == members;
  }

  /** An element among the first `n` is in the prefix of length `n`. */
  lemma InTake<T>(s: seq<T>, n: nat, k: nat)
    ensures k < n && k < |s| ==> s[k] in Take(s, n)
  {
    if k < n && k < |s| {
      assert Take(s, n)[k] == s[k];
    }
  }

  /**
   * In a listing sorted by ascending `key`, an element left out of the first
   * `n` is preceded by `n` elements whose keys are no larger than its own.
   */
  lemma {:induction false} OutsideTake<T>(s: seq<T>, key: T -> int, n: nat, x: T)
    requires Ascending(s, key) && x in s && x !in Take(s, n)
    ensures |Take(s, n)| == n
    ensures forall i :: 0 <= i < n ==> key(Take(s, n)[i]) <= key(x)
  {
    var k :| 0 <= k < |s| && s[k] == x;
    InTake(s, n, k);
  }
}
