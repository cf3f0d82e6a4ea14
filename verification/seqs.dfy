/**
 * Order-preserving list operations that the app's code spells as
 * `Array.prototype.filter`, `Array.prototype.map` and the
 * "remove if present, else append" toggle that five components repeat.
 */
module Seqs {

  /** `s.filter(keep)`: the elements of `s` that satisfy `keep`, in their original order. */
  function Filter<T>(s: seq<T>, keep: T -> bool): (r: seq<T>)
    ensures |r| <= |s|
    ensures forall i :: 0 <= i < |r| ==> r[i] in s && keep(r[i])
    ensures forall i :: 0 <= i < |s| && keep(s[i]) ==> s[i] in r
  {
    if |s| == 0 then []
    else (if keep(s[0]) then [s[0]] else []) + Filter(s[1..], keep)
  }

  /** `s.map(f)`. */
  function Map<T, U>(s: seq<T>, f: T -> U): (r: seq<U>)
    ensures |r| == |s|
    ensures forall i :: 0 <= i < |s| ==> r[i] == f(s[i])
  {
    seq(|s|, i requires 0 <= i < |s| => f(s[i]))
  }

  /** `s.filter(y => y !== x)`: every occurrence of `x` removed. */
  function Without<T(==)>(s: seq<T>, x: T): (r: seq<T>)
    ensures x !in r
    ensures forall i :: 0 <= i < |r| ==> r[i] in s
    ensures forall i :: 0 <= i < |s| && s[i] != x ==> s[i] in r
    ensures |r| <= |s|
  {
    Filter(s, (y: T) => y != x)
  }

  /**
   * `s.includes(x) ? s.filter(y => y !== x) : [...s, x]`: the toggle shared by the
   * saved-meal list, the filter bar and both preference forms.
   */
  function Toggle<T(==)>(s: seq<T>, x: T): (r: seq<T>)
    ensures x in r <==> x !in s
    ensures forall i :: 0 <= i < |s| && s[i] != x ==> s[i] in r
    ensures forall i :: 0 <= i < |r| && r[i] != x ==> r[i] in s
    ensures x !in s ==> r == s + [x]
  {
    if x in s then Without(s, x) else s + [x]
  }

  /** No element occurs twice. */
  predicate NoDup<T(==)>(s: seq<T>) {
    forall i, j :: 0 <= i < j < |s| ==> s[i] != s[j]
  }

  /** Filtering a concatenation filters each part: the filter keeps the relative order of what it keeps. */
  lemma {:induction false} FilterConcat<T>(a: seq<T>, b: seq<T>, keep: T -> bool)
    ensures Filter(a + b, keep) == Filter(a, keep) + Filter(b, keep)
  {
    if |a| == 0 {
      assert a + b == b;
    } else {
      assert (a + b)[0] == a[0];
      assert (a + b)[1..] == a[1..] + b;
      FilterConcat(a[1..], b, keep);
    }
  }

  /** A filter that keeps every element is the identity. */
  lemma {:induction false} FilterKeepsAll<T>(s: seq<T>, keep: T -> bool)
    requires forall i :: 0 <= i < |s| ==> keep(s[i])
    ensures Filter(s, keep) == s
  {
    if |s| != 0 {
      assert keep(s[0]);
      FilterKeepsAll(s[1..], keep);
    }
  }

  /** Filtering never introduces a duplicate. */
  lemma {:induction false} FilterNoDup<T>(s: seq<T>, keep: T -> bool)
    requires NoDup(s)
    ensures NoDup(Filter(s, keep))
  {
    if |s| != 0 {
      assert NoDup(s[1..]) by {
        forall i, j | 0 <= i < j < |s[1..]| ensures s[1..][i] != s[1..][j] {
          assert s[1..][i] == s[i + 1] && s[1..][j] == s[j + 1];
        }
      }
      FilterNoDup(s[1..], keep);
      var rest := Filter(s[1..], keep);
      assert s[0] !in s[1..];
      assert s[0] !in rest;
      var head: seq<T> := if keep(s[0]) then [s[0]] else [];
      assert Filter(s, keep) == head + rest;
      forall i, j | 0 <= i < j < |head + rest| ensures (head + rest)[i] != (head + rest)[j] {
        if |head| == 1 && i == 0 {
          assert (head + rest)[j] == rest[j - 1];
          assert rest[j - 1] in rest;
        } else {
          assert (head + rest)[i] == rest[i - |head|];
          assert (head + rest)[j] == rest[j - |head|];
        }
      }
    }
  }

  /** Removing an element that does not occur changes nothing. */
  lemma WithoutAbsent<T>(s: seq<T>, x: T)
    requires x !in s
    ensures Without(s, x) == s
  {
    FilterKeepsAll(s, (y: T) => y != x);
  }

  /** Removal distributes over concatenation, so it keeps the order of the remaining elements. */
  lemma WithoutConcat<T>(a: seq<T>, b: seq<T>, x: T)
    ensures Without(a + b, x) == Without(a, x) + Without(b, x)
  {
    FilterConcat(a, b, (y: T) => y != x);
  }

  /** Removing an element around one of its occurrences removes it on both sides. */
  lemma WithoutAround<T>(a: seq<T>, b: seq<T>, x: T)
    ensures Without(a + [x] + b, x) == Without(a, x) + Without(b, x)
  {
    assert Without([x], x) == [] by {
      assert [x][1..] == [];
    }
    assert Without(a + [x], x) == Without(a, x) by {
      WithoutConcat(a, [x], x);
      assert Without(a, x) + [] == Without(a, x);
    }
    WithoutConcat(a + [x], b, x);
  }

  /** Toggling an absent element twice gives back exactly the original list. */
  lemma ToggleTwiceAbsent<T>(s: seq<T>, x: T)
    requires x !in s
    ensures Toggle(Toggle(s, x), x) == s
  {
    WithoutConcat(s, [x], x);
    WithoutAbsent(s, x);
    assert Without([x], x) == [];
  }

  /**
   * Toggling a present element twice restores membership of every element,
   * but moves the element to the end: the original list is not restored.
   */
  lemma ToggleTwicePresent<T>(s: seq<T>, x: T)
    requires x in s
    ensures Toggle(Toggle(s, x), x) == Without(s, x) + [x]
    ensures forall i :: 0 <= i < |s| ==> s[i] in Toggle(Toggle(s, x), x)
  {
  }

  /** The toggle keeps a duplicate-free list duplicate-free. */
  lemma ToggleNoDup<T>(s: seq<T>, x: T)
    requires NoDup(s)
    ensures NoDup(Toggle(s, x))
  {
    if x in s {
      FilterNoDup(s, (y: T) => y != x);
    } else {
      var r := s + [x];
      forall i, j | 0 <= i < j < |r| ensures r[i] != r[j] {
        if j == |s| {
          assert r[i] == s[i];
        }
      }
    }
  }

  /** Mapping distributes over concatenation. */
  lemma MapConcat<T, U>(a: seq<T>, c: seq<T>, f: T -> U)
    ensures Map(a + c, f) == Map(a, f) + Map(c, f)
  {
  }

  /** Filtering after a map is mapping after filtering with the composed test. */
  lemma {:induction false} FilterMap<T, U>(s: seq<T>, f: T -> U, keep: U -> bool, keepBefore: T -> bool)
    requires forall x :: keepBefore(x) == keep(f(x))
    ensures Filter(Map(s, f), keep) == Map(Filter(s, keepBefore), f)
  {
    if |s| != 0 {
      var head: seq<T> := [s[0]];
      assert s == head + s[1..];
      MapConcat(head, s[1..], f);
      FilterConcat(Map(head, f), Map(s[1..], f), keep);
      FilterMap(s[1..], f, keep, keepBefore);
      var kept: seq<T> := if keepBefore(s[0]) then [s[0]] else [];
      assert Filter(s, keepBefore) == kept + Filter(s[1..], keepBefore);
      MapConcat(kept, Filter(s[1..], keepBefore), f);
    }
  }

  /** In a duplicate-free list, removing a present element shortens the list by exactly one. */
  lemma {:induction false} WithoutPresentLength<T>(s: seq<T>, x: T)
    requires NoDup(s) && x in s
    ensures |Without(s, x)| == |s| - 1
  {
    assert s == [s[0]] + s[1..];
    WithoutConcat([s[0]], s[1..], x);
    assert NoDup(s[1..]) by {
      forall i, j | 0 <= i < j < |s[1..]| ensures s[1..][i] != s[1..][j] {
        assert s[1..][i] == s[i + 1] && s[1..][j] == s[j + 1];
      }
    }
    if s[0] == x {
      assert x !in s[1..];
      WithoutAbsent(s[1..], x);
      assert Without([s[0]], x) == [];
    } else {
      assert x in s[1..];
      WithoutPresentLength(s[1..], x);
      assert Without([s[0]], x) == [s[0]];
    }
  }
}
