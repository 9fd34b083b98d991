/**
 The comparisons `sort` runs on, and the sort itself. Strings compare character
 by character, as JavaScript's `<` does.
 */
module Ordering {

  predicate StrLess(a: string, b: string) {
    |b| > 0 && (|a| == 0 || a[0] < b[0] || (a[0] == b[0] && StrLess(a[1..], b[1..])))
  }

  lemma {:induction false} StrTrichotomy(a: string, b: string)
    ensures a == b || StrLess(a, b) || StrLess(b, a)
    ensures !(StrLess(a, b) && StrLess(b, a))
    ensures !StrLess(a, a)
    decreases |a|
  {
    if |a| > 0 {
      StrTrichotomy(a[1..], a[1..]);
      if |b| > 0 {
        StrTrichotomy(a[1..], b[1..]);
        if a[0] == b[0] && a[1..] == b[1..] {
          assert a == [a[0]] + a[1..];
          assert b == [b[0]] + b[1..];
        }
      }
    }
  }

  lemma {:induction false} StrTransitive(a: string, b: string, c: string)
    requires StrLess(a, b) && StrLess(b, c)
    ensures StrLess(a, c)
    decreases |a|
  {
    if |a| > 0 && a[0] == b[0] && b[0] == c[0] {
      StrTransitive(a[1..], b[1..], c[1..]);
    }
  }

  /** `a` begins `b` and is shorter, or has the smaller character where the two first differ. */
  ghost predicate Precedes(a: string, b: string) {
    a < b || exists k :: 0 <= k < |a| && k < |b| && a[..k] == b[..k] && a[k] < b[k]
  }

  lemma {:induction false} StrLessMeans(a: string, b: string)
    ensures StrLess(a, b) <==> Precedes(a, b)
    decreases |a|
  {
    if |a| > 0 && |b| > 0 && a[0] == b[0] {
      StrLessMeans(a[1..], b[1..]);
      assert a == [a[0]] + a[1..] && b == [b[0]] + b[1..];
      if k :| 0 <= k < |a[1..]| && k < |b[1..]| && a[1..][..k] == b[1..][..k] && a[1..][k] < b[1..][k] {
        assert a[..k + 1] == [a[0]] + a[1..][..k] && b[..k + 1] == [b[0]] + b[1..][..k];
      }
      if k :| 0 <= k < |a| && k < |b| && a[..k] == b[..k] && a[k] < b[k] {
        assert a[1..][..k - 1] == a[..k][1..] && b[1..][..k - 1] == b[..k][1..];
      }
    } else if |a| > 0 && |b| > 0 && a[0] < b[0] {
      assert a[..0] == b[..0];
    }
  }

  /** A comparator JavaScript's sort accepts: antisymmetric, and "not before" is transitive. */
  ghost predicate WeakOrder<T(!new)>(less: (T, T) -> bool) {
    && (forall x, y :: less(x, y) ==> !less(y, x))
    && (forall x, y, z :: !less(y, x) && !less(z, y) ==> !less(z, x))
  }

  ghost predicate Sorted<T(!new)>(s: seq<T>, less: (T, T) -> bool) {
    forall i, j :: 0 <= i < j < |s| ==> !less(s[j], s[i])
  }

  function Insert<T(!new)>(x: T, s: seq<T>, less: (T, T) -> bool): (r: seq<T>)
    ensures multiset(r) == multiset(s) + multiset{x}
  {
    if s == [] || less(x, s[0]) then [x] + s
    else
      assert s == [s[0]] + s[1..];
      [s[0]] + Insert(x, s[1..], less)
  }

  lemma {:induction false} InsertKeepsSorted<T(!new)>(x: T, s: seq<T>, less: (T, T) -> bool)
    requires WeakOrder(less) && Sorted(s, less)
    ensures Sorted(Insert(x, s, less), less)
  {
    var r := Insert(x, s, less);
    if s == [] {
    } else if less(x, s[0]) {
      forall j | 0 <= j < |s| ensures !less(s[j], x) {
        assert !less(s[0], x);
        assert j == 0 || !less(s[j], s[0]);
      }
    } else {
      var t := Insert(x, s[1..], less);
      InsertKeepsSorted(x, s[1..], less);
      forall y | y in t ensures !less(y, s[0]) {
        assert y in multiset(s[1..]) + multiset{x};
        if y != x {
          assert y in s[1..];
        }
      }
      assert r == [s[0]] + t;
    }
  }

  /** `Array.prototype.sort` with a consistent comparator: stable, ascending. */
  function SortBy<T(!new)>(s: seq<T>, less: (T, T) -> bool): (r: seq<T>)
    requires WeakOrder(less)
    ensures Sorted(r, less) && multiset(r) == multiset(s)
  {
    if s == [] then []
    else
      var n := |s| - 1;
      assert s == s[..n] + [s[n]];
      InsertKeepsSorted(s[n], SortBy(s[..n], less), less);
      Insert(s[n], SortBy(s[..n], less), less)
  }

  /** A sorted arrangement of given elements is unique when the comparator tells them apart. */
  lemma {:induction false} SortedUnique<T(!new)>(s: seq<T>, t: seq<T>, less: (T, T) -> bool)
    requires Sorted(s, less) && Sorted(t, less) && multiset(s) == multiset(t)
    requires forall x, y :: x in multiset(s) && y in multiset(s) && x != y ==> less(x, y) || less(y, x)
    ensures s == t
  {
    assert |s| == |multiset(s)| == |multiset(t)| == |t|;
    if s != [] {
      SameHead(s, t, less);
      TailElements(s);
      TailElements(t);
      SortedUnique(s[1..], t[1..], less);
    }
  }

  lemma TailElements<T>(s: seq<T>)
    requires s != []
    ensures multiset(s[1..]) == multiset(s) - multiset{s[0]}
  {
    assert s == [s[0]] + s[1..];
  }

  lemma SameHead<T(!new)>(s: seq<T>, t: seq<T>, less: (T, T) -> bool)
    requires s != [] && t != []
    requires Sorted(s, less) && Sorted(t, less) && multiset(s) == multiset(t)
    requires forall x, y :: x in multiset(s) && y in multiset(s) && x != y ==> less(x, y) || less(y, x)
    ensures s[0] == t[0]
  {
    var a, b := s[0], t[0];
    assert a in multiset(s) && b in multiset(t);
    var i :| 0 <= i < |s| && s[i] == b;
    var j :| 0 <= j < |t| && t[j] == a;
    assert i == 0 || !less(s[i], s[0]);
    assert j == 0 || !less(t[j], t[0]);
  }

  const STRING_ORDER: (string, string) -> bool := (a, b) => StrLess(a, b)

  lemma StringOrderIsWeakOrder()
    ensures WeakOrder(STRING_ORDER)
  {
    forall x, y | STRING_ORDER(x, y) ensures !STRING_ORDER(y, x) { StrTrichotomy(x, y); }
    forall x, y, z | !STRING_ORDER(y, x) && !STRING_ORDER(z, y) ensures !STRING_ORDER(z, x) {
      NotLessTransitive(x, y, z);
    }
  }

  lemma NotLessTransitive(x: string, y: string, z: string)
    requires !StrLess(y, x) && !StrLess(z, y)
    ensures !StrLess(z, x)
  {
    StrTrichotomy(x, y);
    StrTrichotomy(y, z);
    StrTrichotomy(x, z);
    if x != y && y != z {
      StrTransitive(x, y, z);
    }
  }
}
