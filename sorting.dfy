/** Array.prototype.sort with a comparator, as ECMAScript (2019 and later) specifies it:
    a stable sort. `less(a, b)` stands for "the comparator returns a negative number
    for (a, b)"; the site's comparators are consistent, so `less` is a strict weak
    order. The sort is written as an insertion sort; any stable sort yields the same
    sequence (the lemmas below pin the result down). */
module Sorting {

  /** A comparator that never contradicts itself: asymmetric, and "not less" is transitive. */
  ghost predicate StrictWeakOrder<T(!new)>(less: (T, T) -> bool) {
    && (forall a, b :: less(a, b) ==> !less(b, a))
    && (forall a, b, c :: !less(a, b) && !less(b, c) ==> !less(a, c))
  }

  /** Neither comes first: the comparator returns 0. */
  predicate Tied<T>(less: (T, T) -> bool, a: T, b: T) {
    !less(a, b) && !less(b, a)
  }

  /** No later element is strictly less than an earlier one. */
  ghost predicate Sorted<T>(s: seq<T>, less: (T, T) -> bool) {
    forall i, j :: 0 <= i < j < |s| ==> !less(s[j], s[i])
  }

  /** The elements of `s` tied with `x`, in their order in `s`. */
  function TiedWith<T>(s: seq<T>, less: (T, T) -> bool, x: T): (r: seq<T>)
    ensures |r| <= |s|
  {
    if s == [] then []
    else (if Tied(less, x, s[0]) then [s[0]] else []) + TiedWith(s[1..], less, x)
  }

  /** Puts `x` in front of the first element that is not less than it. */
  function Insert<T>(x: T, s: seq<T>, less: (T, T) -> bool): (r: seq<T>)
    ensures |r| == |s| + 1
    ensures forall k :: 0 <= k < |r| ==> r[k] in s || r[k] == x
  {
    if s == [] then [x]
    else if !less(s[0], x) then [x] + s
    else assert s == [s[0]] + s[1..]; [s[0]] + Insert(x, s[1..], less)
  }

  /** Inserting adds exactly one copy of the element. */
  lemma {:induction false} InsertPermutes<T>(x: T, s: seq<T>, less: (T, T) -> bool)
    ensures multiset(Insert(x, s, less)) == multiset(s) + multiset{x}
  {
    if s != [] && less(s[0], x) {
      var t := Insert(x, s[1..], less);
      InsertPermutes(x, s[1..], less);
      assert Insert(x, s, less) == [s[0]] + t;
      assert multiset([s[0]] + t) == multiset{s[0]} + multiset(t);
      assert s == [s[0]] + s[1..];
      assert multiset(s) == multiset{s[0]} + multiset(s[1..]);
    }
  }

  function Sort<T>(s: seq<T>, less: (T, T) -> bool): (r: seq<T>)
    ensures multiset(r) == multiset(s)
    ensures |r| == |s|
  {
    if s == [] then []
    else
      assert s == [s[0]] + s[1..];
      InsertPermutes(s[0], Sort(s[1..], less), less);
      Insert(s[0], Sort(s[1..], less), less)
  }

  lemma {:induction false} InsertSorted<T(!new)>(x: T, s: seq<T>, less: (T, T) -> bool)
    requires StrictWeakOrder(less) && Sorted(s, less)
    ensures Sorted(Insert(x, s, less), less)
  {
    if s != [] {
      if !less(s[0], x) {
        var r := [x] + s;
        forall i, j | 0 <= i < j < |r| ensures !less(r[j], r[i]) {
          if i == 0 {
            assert !less(r[j], s[0]);
          }
        }
      } else {
        InsertSorted(x, s[1..], less);
        var t := Insert(x, s[1..], less);
        var r := [s[0]] + t;
        forall j | 0 <= j < |t| ensures !less(t[j], s[0]) {
          if t[j] != x {
            assert t[j] in s[1..];
          }
        }
        forall i, j | 0 <= i < j < |r| ensures !less(r[j], r[i]) {
          if i == 0 {
            assert r[j] == t[j - 1];
          } else {
            assert r[i] == t[i - 1] && r[j] == t[j - 1];
          }
        }
      }
    }
  }

  /** The sort puts no element after one that is strictly greater. */
  lemma {:induction false} SortSorted<T(!new)>(s: seq<T>, less: (T, T) -> bool)
    requires StrictWeakOrder(less)
    ensures Sorted(Sort(s, less), less)
  {
    if s != [] {
      SortSorted(s[1..], less);
      InsertSorted(s[0], Sort(s[1..], less), less);
    }
  }

  /** An element strictly before `y` cannot be tied with `x` when `y` is. */
  lemma NotBothTied<T(!new)>(less: (T, T) -> bool, x: T, y: T, z: T)
    requires StrictWeakOrder(less)
    requires less(z, y)
    ensures !(Tied(less, x, y) && Tied(less, x, z))
  {
    assert !less(z, x) && !less(x, y) ==> !less(z, y);
  }

  /** Inserting `y` adds it to the elements tied with `x`, in front, provided nothing
      that goes before `y` is tied with `x` when `y` is. */
  lemma {:induction false} InsertTiedWith<T>(y: T, s: seq<T>, less: (T, T) -> bool, x: T)
    requires Tied(less, x, y) ==> forall k :: 0 <= k < |s| && less(s[k], y) ==> !Tied(less, x, s[k])
    ensures TiedWith(Insert(y, s, less), less, x)
         == (if Tied(less, x, y) then [y] else []) + TiedWith(s, less, x)
  {
    if s == [] {
      assert Insert(y, s, less) == [y];
      assert [y][1..] == [];
    } else {
      assert TiedWith(s, less, x)
          == (if Tied(less, x, s[0]) then [s[0]] else []) + TiedWith(s[1..], less, x);
      if !less(s[0], y) {
        var r := [y] + s;
        assert Insert(y, s, less) == r;
        assert r[1..] == s;
      } else {
        var rest := Insert(y, s[1..], less);
        assert Tied(less, x, y) ==> !Tied(less, x, s[0]);
        InsertTiedWith(y, s[1..], less, x);
        var r := [s[0]] + rest;
        assert Insert(y, s, less) == r;
        assert r[1..] == rest;
        var t1 := TiedWith(s[1..], less, x);
        assert TiedWith(r, less, x) == (if Tied(less, x, s[0]) then [s[0]] else []) + TiedWith(rest, less, x);
        if Tied(less, x, y) {
          assert TiedWith(rest, less, x) == [y] + t1;
          assert TiedWith(r, less, x) == [y] + t1;
        } else {
          assert TiedWith(rest, less, x) == t1;
        }
      }
    }
  }

  /** Stability: elements the comparator ties keep their relative order. */
  lemma {:induction false} SortStable<T(!new)>(s: seq<T>, less: (T, T) -> bool, x: T)
    requires StrictWeakOrder(less)
    ensures TiedWith(Sort(s, less), less, x) == TiedWith(s, less, x)
  {
    if s != [] {
      var sorted := Sort(s[1..], less);
      SortStable(s[1..], less, x);
      forall k | 0 <= k < |sorted| && less(sorted[k], s[0])
        ensures !(Tied(less, x, s[0]) && Tied(less, x, sorted[k]))
      {
        NotBothTied(less, x, s[0], sorted[k]);
      }
      InsertTiedWith(s[0], sorted, less, x);
    }
  }

  /** A comparator that always answers 0 leaves the order unchanged. */
  lemma {:induction false} SortAllTied<T>(s: seq<T>, less: (T, T) -> bool)
    requires forall a, b :: a in s && b in s ==> !less(a, b)
    ensures Sort(s, less) == s
  {
    if s != [] {
      SortAllTied(s[1..], less);
    }
  }

  /** An already sorted input comes back unchanged. */
  lemma {:induction false} SortOfSorted<T(!new)>(s: seq<T>, less: (T, T) -> bool)
    requires Sorted(s, less)
    ensures Sort(s, less) == s
  {
    if s != [] {
      assert Sorted(s[1..], less) by {
        forall i, j | 0 <= i < j < |s[1..]| ensures !less(s[1..][j], s[1..][i]) {
          assert s[1..][j] == s[j + 1] && s[1..][i] == s[i + 1];
        }
      }
      SortOfSorted(s[1..], less);
      if |s| > 1 {
        assert !less(s[1], s[0]);
      }
    }
  }

  /** An element at two positions occurs at least twice in the multiset. */
  lemma RepeatCounted<T>(s: seq<T>, i: int, j: int)
    requires 0 <= i < j < |s| && s[i] == s[j]
    ensures multiset(s)[s[i]] >= 2
  {
    assert s == s[..j] + s[j..];
    assert s[i] in s[..j];
    assert s[j] in s[j..];
  }
}
