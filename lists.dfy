/**
 * The list operations of System.Collections.Generic and System.Linq that the
 * port knocker uses: FirstOrDefault (as an index search), RemoveAll and
 * Distinct.
 */
module Lists {

  import opened Wrappers

  /** Index of the first element satisfying `p`, as FirstOrDefault finds it. */
  function FirstIndex<T>(s: seq<T>, p: T -> bool): (r: Option<nat>)
    ensures r.Some? ==> r.value < |s| && p(s[r.value])
    ensures r.Some? ==> forall k :: 0 <= k < r.value ==> !p(s[k])
    ensures r.None? <==> forall k :: 0 <= k < |s| ==> !p(s[k])
  {
    if s == [] then None
    else if p(s[0]) then Some(0)
    else match FirstIndex(s[1..], p)
      case None => None
      case Some(i) => Some(i + 1)
  }

  /** An index holding a match with none before it is the one FirstIndex finds. */
  lemma FirstIndexAt<T>(s: seq<T>, p: T -> bool, i: nat)
    requires i < |s| && p(s[i])
    requires forall k :: 0 <= k < i ==> !p(s[k])
    ensures FirstIndex(s, p) == Some(i)
  {
  }

  /** List.RemoveAll: keeps, in order, exactly the elements not satisfying `p`. */
  function RemoveAll<T(!new)>(s: seq<T>, p: T -> bool): (r: seq<T>)
    ensures |r| <= |s|
    ensures forall x :: x in r <==> x in s && !p(x)
  {
    if s == [] then []
    else if p(s[0]) then RemoveAll(s[1..], p)
    else [s[0]] + RemoveAll(s[1..], p)
  }

  /** RemoveAll works element by element, so it distributes over concatenation. */
  lemma {:induction false} RemoveAllAppend<T(!new)>(a: seq<T>, b: seq<T>, p: T -> bool)
    ensures RemoveAll(a + b, p) == RemoveAll(a, p) + RemoveAll(b, p)
  {
    if a != [] {
      assert (a + b)[0] == a[0];
      assert (a + b)[1..] == a[1..] + b;
      RemoveAllAppend(a[1..], b, p);
      if !p(a[0]) {
        calc {
          RemoveAll(a + b, p);
          [a[0]] + RemoveAll(a[1..] + b, p);
          [a[0]] + (RemoveAll(a[1..], p) + RemoveAll(b, p));
          ([a[0]] + RemoveAll(a[1..], p)) + RemoveAll(b, p);
        }
      }
    } else {
      assert a + b == b;
    }
  }

  /** A list with no element to remove is left as it is. */
  lemma {:induction false} RemoveAllNothing<T(!new)>(s: seq<T>, p: T -> bool)
    requires forall k :: 0 <= k < |s| ==> !p(s[k])
    ensures RemoveAll(s, p) == s
  {
    if s != [] {
      RemoveAllNothing(s[1..], p);
    }
  }

  /** Removing twice removes nothing more. */
  lemma RemoveAllIdempotent<T(!new)>(s: seq<T>, p: T -> bool)
    ensures RemoveAll(RemoveAll(s, p), p) == RemoveAll(s, p)
  {
    var r := RemoveAll(s, p);
    assert forall k :: 0 <= k < |r| ==> r[k] in r;
    RemoveAllNothing(r, p);
  }

  predicate NoDuplicates<T(==)>(s: seq<T>) {
    forall i, j :: 0 <= i < j < |s| ==> s[i] != s[j]
  }

  /** Position of the first occurrence of `x` in `s`. */
  function IndexOf<T(==)>(s: seq<T>, x: T): (i: nat)
    requires x in s
    ensures i < |s| && s[i] == x
    ensures forall k :: 0 <= k < i ==> s[k] != x
  {
    if s[0] == x then 0 else 1 + IndexOf(s[1..], x)
  }

  /** Enumerable.Distinct: the first occurrence of every element, in order. */
  function Distinct<T(==,!new)>(s: seq<T>): (r: seq<T>)
    ensures forall x :: x in r <==> x in s
    ensures NoDuplicates(r)
  {
    if s == [] then []
    else
      var init := Distinct(s[..|s| - 1]);
      var last := s[|s| - 1];
      assert forall x :: x in s <==> x in s[..|s| - 1] || x == last by {
        assert s == s[..|s| - 1] + [last];
      }
      if last in init then init else init + [last]
  }

  /**
   * Distinct keeps first occurrences in their original order: an element
   * listed earlier in the result occurs first earlier in the input.
   */
  lemma {:induction false} DistinctKeepsFirstOccurrenceOrder<T(!new)>(s: seq<T>, i: nat, j: nat)
    requires i < j < |Distinct(s)|
    ensures IndexOf(s, Distinct(s)[i]) < IndexOf(s, Distinct(s)[j])
  {
    var init := s[..|s| - 1];
    var last := s[|s| - 1];
    var r := Distinct(s);
    var ri := Distinct(init);
    assert s == init + [last];
    IndexOfPrefix(init, last, r[i]);
    if j < |ri| {
      DistinctKeepsFirstOccurrenceOrder(init, i, j);
      IndexOfPrefix(init, last, r[j]);
    } else {
      assert r[j] == last && last !in init;
      IndexOfLast(init, last);
    }
  }

  lemma IndexOfPrefix<T>(init: seq<T>, last: T, x: T)
    requires x in init
    ensures IndexOf(init + [last], x) == IndexOf(init, x)
  {
    var s := init + [last];
    var k := IndexOf(init, x);
    assert s[k] == x;
    var m := IndexOf(s, x);
    assert m <= k;
  }

  lemma IndexOfLast<T>(init: seq<T>, last: T)
    requires last !in init
    ensures IndexOf(init + [last], last) == |init|
  {
    var s := init + [last];
    assert s[|init|] == last;
  }

  /** A list that already has no duplicates is its own Distinct. */
  lemma {:induction false} DistinctOfDistinct<T(!new)>(s: seq<T>)
    requires NoDuplicates(s)
    ensures Distinct(s) == s
  {
    if s != [] {
      var init := s[..|s| - 1];
      DistinctOfDistinct(init);
      assert s == init + [s[|s| - 1]];
    }
  }
}
