/**
 * The stable sort of JavaScript's `Array.prototype.sort` (required to be stable
 * since ECMAScript 2019), for a comparator that is a total preorder: elements are
 * ordered by the preorder and equivalent elements keep their original order.
 */
module Sorting {

  ghost predicate Total<T(!new)>(le: (T, T) -> bool)
  {
    forall a, b :: le(a, b) || le(b, a)
  }

  ghost predicate Transitive<T(!new)>(le: (T, T) -> bool)
  {
    forall a, b, c :: le(a, b) && le(b, c) ==> le(a, c)
  }

  /** `le` is total and transitive, so `sort` with the comparator it induces has a defined result. */
  ghost predicate TotalPreorder<T(!new)>(le: (T, T) -> bool)
  {
    Total(le) && Transitive(le)
  }

  predicate SortedBy<T>(s: seq<T>, le: (T, T) -> bool)
  {
    forall i, j :: 0 <= i < j < |s| ==> le(s[i], s[j])
  }

  predicate Equivalent<T>(le: (T, T) -> bool, a: T, b: T)
  {
    le(a, b) && le(b, a)
  }

  /** The elements of `s` equivalent to `x`, in their order in `s`. */
  function ClassOf<T>(s: seq<T>, x: T, le: (T, T) -> bool): seq<T>
  {
    if s == [] then []
    else (if Equivalent(le, s[0], x) then [s[0]] else []) + ClassOf(s[1..], x, le)
  }

  /** Inserts `x` after every element of `s` that is not greater than it. */
  function InsertAfterEqual<T>(x: T, s: seq<T>, le: (T, T) -> bool): seq<T>
  {
    if s == [] then [x]
    else if le(s[0], x) then [s[0]] + InsertAfterEqual(x, s[1..], le)
    else [x] + s
  }

  lemma {:induction false} InsertPermutes<T>(x: T, s: seq<T>, le: (T, T) -> bool)
    ensures multiset(InsertAfterEqual(x, s, le)) == multiset(s) + multiset{x}
  {
    if s != [] && le(s[0], x) {
      InsertPermutes(x, s[1..], le);
      assert s == [s[0]] + s[1..];
    }
  }

  /** Sorts all but the last element and inserts the last one: an insertion sort. */
  function SortBy<T>(s: seq<T>, le: (T, T) -> bool): seq<T>
  {
    if s == [] then []
    else InsertAfterEqual(s[|s| - 1], SortBy(s[..|s| - 1], le), le)
  }

  /**
   * Stable sort: for a total preorder the result is ordered by `le`, and for every
   * element the elements equivalent to it appear in the same order as in `s`.
   */
  lemma {:induction false} SortByCorrect<T(!new)>(s: seq<T>, le: (T, T) -> bool)
    requires TotalPreorder(le)
    ensures multiset(SortBy(s, le)) == multiset(s)
    ensures SortedBy(SortBy(s, le), le)
    ensures forall x :: ClassOf(SortBy(s, le), x, le) == ClassOf(s, x, le)
  {
    if s != [] {
      var init, last := s[..|s| - 1], s[|s| - 1];
      assert s == init + [last];
      SortByCorrect(init, le);
      var sortedInit := SortBy(init, le);
      InsertPermutes(last, sortedInit, le);
      InsertKeepsSorted(last, sortedInit, le);
      ClassOfAfterSort(init, last, sortedInit, le);
    }
  }

  lemma ClassOfAfterSort<T(!new)>(init: seq<T>, last: T, sortedInit: seq<T>, le: (T, T) -> bool)
    requires Transitive(le) && SortedBy(sortedInit, le)
    requires forall x :: ClassOf(sortedInit, x, le) == ClassOf(init, x, le)
    ensures forall x :: ClassOf(InsertAfterEqual(last, sortedInit, le), x, le) == ClassOf(init + [last], x, le)
  {
    forall x
      ensures ClassOf(InsertAfterEqual(last, sortedInit, le), x, le) == ClassOf(init + [last], x, le)
    {
      ClassOfInsert(last, sortedInit, x, le);
      ClassOfConcat(init, [last], x, le);
    }
  }

  lemma {:induction false} ClassOfConcat<T>(a: seq<T>, b: seq<T>, x: T, le: (T, T) -> bool)
    ensures ClassOf(a + b, x, le) == ClassOf(a, x, le) + ClassOf(b, x, le)
  {
    if a != [] {
      assert (a + b)[1..] == a[1..] + b;
      assert (a + b)[0] == a[0];
      ClassOfConcat(a[1..], b, x, le);
      assert ClassOf(a + b, x, le)
          == (if Equivalent(le, a[0], x) then [a[0]] else []) + ClassOf(a[1..] + b, x, le);
    } else {
      assert a + b == b;
    }
  }

  lemma {:induction false} InsertKeepsSorted<T(!new)>(x: T, s: seq<T>, le: (T, T) -> bool)
    requires TotalPreorder(le) && SortedBy(s, le)
    ensures SortedBy(InsertAfterEqual(x, s, le), le)
  {
    if s != [] && le(s[0], x) {
      InsertKeepsSorted(x, s[1..], le);
      var rest := InsertAfterEqual(x, s[1..], le);
      InsertPermutes(x, s[1..], le);
      forall j | 0 <= j < |rest| ensures le(s[0], rest[j]) {
        assert rest[j] in multiset(rest);
        if rest[j] != x {
          assert rest[j] in multiset(s[1..]);
          var k :| 0 <= k < |s[1..]| && s[1..][k] == rest[j];
          assert s[k + 1] == rest[j];
        }
      }
    }
  }

  /** When `y` goes in front of a sorted `s`, nothing in `s` is equivalent to an element equivalent to `y`. */
  lemma {:induction false} NoClassAfter<T(!new)>(y: T, s: seq<T>, x: T, le: (T, T) -> bool)
    requires Transitive(le) && SortedBy(s, le)
    requires s != [] && !le(s[0], y) && Equivalent(le, y, x)
    ensures ClassOf(s, x, le) == []
  {
    if |s| > 1 {
      assert le(s[0], s[1]);
      assert !le(s[1], y);
      NoClassAfter(y, s[1..], x, le);
    }
    assert le(x, y);
    assert !le(s[0], x);
  }

  lemma {:induction false} ClassOfInsert<T(!new)>(y: T, s: seq<T>, x: T, le: (T, T) -> bool)
    requires Transitive(le) && SortedBy(s, le)
    ensures ClassOf(InsertAfterEqual(y, s, le), x, le) == ClassOf(s, x, le) + ClassOf([y], x, le)
  {
    if s == [] {
    } else if le(s[0], y) {
      var tail := s[1..];
      assert SortedBy(tail, le);
      ClassOfInsert(y, tail, x, le);
      assert InsertAfterEqual(y, s, le) == [s[0]] + InsertAfterEqual(y, tail, le);
      ClassOfCons(s[0], InsertAfterEqual(y, tail, le), x, le);
      assert s == [s[0]] + tail;
      ClassOfCons(s[0], tail, x, le);
    } else {
      ClassOfConcat([y], s, x, le);
      if Equivalent(le, y, x) {
        NoClassAfter(y, s, x, le);
      }
    }
  }

  lemma ClassOfCons<T>(a: T, s: seq<T>, x: T, le: (T, T) -> bool)
    ensures ClassOf([a] + s, x, le) == ClassOf([a], x, le) + ClassOf(s, x, le)
  {
    assert ([a] + s)[1..] == s;
    assert [a][1..] == [];
  }

  /** An input already ordered by `le` comes out unchanged. */
  lemma {:induction false} SortedInputUnchanged<T>(s: seq<T>, le: (T, T) -> bool)
    requires SortedBy(s, le)
    ensures SortBy(s, le) == s
  {
    if s != [] {
      var init, last := s[..|s| - 1], s[|s| - 1];
      SortedSplit(s, le);
      SortedInputUnchanged(init, le);
      SortByStep(s, le);
      InsertAtEnd(last, init, le);
      assert s == init + [last];
    }
  }

  /** `SortBy` sorts all but the last element and then inserts the last one. */
  lemma SortByStep<T>(s: seq<T>, le: (T, T) -> bool)
    requires s != []
    ensures SortBy(s, le) == InsertAfterEqual(s[|s| - 1], SortBy(s[..|s| - 1], le), le)
  {
  }

  lemma SortedSplit<T>(s: seq<T>, le: (T, T) -> bool)
    requires SortedBy(s, le) && s != []
    ensures SortedBy(s[..|s| - 1], le)
    ensures forall i :: 0 <= i < |s| - 1 ==> le(s[i], s[|s| - 1])
  {
  }

  lemma {:induction false} InsertAtEnd<T>(x: T, s: seq<T>, le: (T, T) -> bool)
    requires forall i :: 0 <= i < |s| ==> le(s[i], x)
    ensures InsertAfterEqual(x, s, le) == s + [x]
  {
    if s != [] {
      var t := s[1..];
      assert forall i :: 0 <= i < |t| ==> t[i] == s[i + 1];
      InsertAtEnd(x, t, le);
      assert s == [s[0]] + t;
    }
  }
}
