/**
 Python's `sorted`: a stable sort. `le(x, y)` is `key(x) <= key(y)`. The lemmas say what fixes
 its result: it is ordered, and for every class of equal keys it lists the members in their
 original order.
 */
module Sorting {
  import opened Sequences

  ghost predicate TotalPreorder<T(!new)>(le: (T, T) -> bool) {
    && (forall x, y :: le(x, y) || le(y, x))
    && (forall x, y, z :: le(x, y) && le(y, z) ==> le(x, z))
  }

  ghost predicate SortedBy<T(!new)>(s: seq<T>, le: (T, T) -> bool) {
    forall i, j :: 0 <= i < j < |s| ==> le(s[i], s[j])
  }

  function Insert<T>(x: T, s: seq<T>, le: (T, T) -> bool): (r: seq<T>)
    ensures multiset(r) == multiset(s) + multiset{x} && |r| == |s| + 1
    ensures forall i :: 0 <= i < |r| ==> r[i] == x || r[i] in s
  {
    if s == [] || le(x, s[0]) then [x] + s
    else
      assert s == [s[0]] + s[1..];
      [s[0]] + Insert(x, s[1..], le)
  }

  function SortBy<T>(s: seq<T>, le: (T, T) -> bool): (r: seq<T>)
    ensures multiset(r) == multiset(s) && |r| == |s|
  {
    if s == [] then []
    else
      assert s == [s[0]] + s[1..];
      Insert(s[0], SortBy(s[1..], le), le)
  }

  lemma SameElements<T>(a: seq<T>, b: seq<T>)
    requires multiset(a) == multiset(b)
    ensures forall x :: x in a <==> x in b
  {
    forall x
      ensures x in a <==> x in b
    {
      assert x in multiset(a) <==> x in a;
      assert x in multiset(b) <==> x in b;
    }
  }

  lemma {:induction false} InsertSorted<T(!new)>(x: T, s: seq<T>, le: (T, T) -> bool)
    requires TotalPreorder(le) && SortedBy(s, le)
    ensures SortedBy(Insert(x, s, le), le)
  {
    if s == [] || le(x, s[0]) {
      assert forall i :: 0 <= i < |s| ==> le(x, s[i]) by {
        assert forall i :: 0 < i < |s| ==> le(s[0], s[i]);
      }
    } else {
      InsertSorted(x, s[1..], le);
      assert le(s[0], x);
    }
  }

  /** The result is ordered. */
  lemma {:induction false} SortByOrders<T(!new)>(s: seq<T>, le: (T, T) -> bool)
    requires TotalPreorder(le)
    ensures SortedBy(SortBy(s, le), le)
  {
    if s != [] {
      SortByOrders(s[1..], le);
      InsertSorted(s[0], SortBy(s[1..], le), le);
    }
  }

  lemma {:induction false} InsertStable<T(!new)>(x: T, s: seq<T>, le: (T, T) -> bool, same: T -> bool)
    requires forall a, b :: same(a) && same(b) ==> le(a, b)
    ensures Filter(Insert(x, s, le), same) == (if same(x) then [x] else []) + Filter(s, same)
  {
    var r := Insert(x, s, le);
    if s == [] || le(x, s[0]) {
      assert r[1..] == s;
    } else {
      assert r[0] == s[0] && r[1..] == Insert(x, s[1..], le);
      InsertStable(x, s[1..], le, same);
      if same(x) {
        assert !same(s[0]);
      }
    }
  }

  /** Elements with equal keys keep their order. */
  lemma {:induction false} SortByStable<T(!new)>(s: seq<T>, le: (T, T) -> bool, same: T -> bool)
    requires forall a, b :: same(a) && same(b) ==> le(a, b)
    ensures Filter(SortBy(s, le), same) == Filter(s, same)
  {
    if s != [] {
      SortByStable(s[1..], le, same);
      InsertStable(s[0], SortBy(s[1..], le), le, same);
    }
  }

  /** Sorting an ordered list changes nothing. */
  lemma {:induction false} SortByOrdered<T(!new)>(s: seq<T>, le: (T, T) -> bool)
    requires SortedBy(s, le)
    ensures SortBy(s, le) == s
  {
    if s != [] {
      SortByOrdered(s[1..], le);
      assert s == [s[0]] + s[1..];
    }
  }

  lemma SortByDistinct<T(!new)>(s: seq<T>, le: (T, T) -> bool)
    requires Distinct(s)
    ensures Distinct(SortBy(s, le))
  {
    var r := SortBy(s, le);
    SameElements(r, s);
    forall i, j | 0 <= i < j < |r|
      ensures r[i] != r[j]
    {
      TwoOccurrences(r, i, j);
      OneOccurrence(s, r[i]);
    }
  }

  lemma TwoOccurrences<T>(s: seq<T>, i: nat, j: nat)
    requires i < j < |s|
    ensures s[i] == s[j] ==> multiset(s)[s[i]] >= 2
  {
    assert s == s[..j] + s[j..];
    assert multiset(s) == multiset(s[..j]) + multiset(s[j..]);
    assert s[..j][i] == s[i] && s[j..][0] == s[j];
  }

  lemma {:induction false} OneOccurrence<T(!new)>(s: seq<T>, x: T)
    requires Distinct(s) && x in s
    ensures multiset(s)[x] == 1
  {
    assert s == [s[0]] + s[1..];
    if x != s[0] {
      OneOccurrence(s[1..], x);
    }
  }

  // ---- Python's order on strings ----

  /** Lexicographic, by code point. */
  predicate StringLe(a: string, b: string) {
    a == [] || (b != [] && (a[0] < b[0] || (a[0] == b[0] && StringLe(a[1..], b[1..]))))
  }

  lemma {:induction false} StringLeTotal(a: string, b: string)
    ensures StringLe(a, b) || StringLe(b, a)
    ensures StringLe(a, b) && StringLe(b, a) ==> a == b
  {
    if a != [] && b != [] && a[0] == b[0] {
      StringLeTotal(a[1..], b[1..]);
      assert a == [a[0]] + a[1..] && b == [b[0]] + b[1..];
    }
  }

  lemma {:induction false} StringLeTransitive(a: string, b: string, c: string)
    requires StringLe(a, b) && StringLe(b, c)
    ensures StringLe(a, c)
  {
    if a != [] && a[0] == b[0] && b[0] == c[0] {
      StringLeTransitive(a[1..], b[1..], c[1..]);
    }
  }

  /** The first character that differs decides; where none does, the shorter string comes first. */
  lemma {:induction false} StringLeIff(a: string, b: string)
    ensures StringLe(a, b) <==>
            a <= b || exists i :: 0 <= i < |a| && i < |b| && a[..i] == b[..i] && a[i] < b[i]
  {
    if a != [] && b != [] {
      var x, y := a[1..], b[1..];
      assert a == [a[0]] + x && b == [b[0]] + y;
      StringLeIff(x, y);
      if a[0] == b[0] {
        if i :| 0 <= i < |x| && i < |y| && x[..i] == y[..i] && x[i] < y[i] {
          assert a[..i + 1] == [a[0]] + x[..i] && b[..i + 1] == [b[0]] + y[..i];
        }
        if i :| 0 <= i < |a| && i < |b| && a[..i] == b[..i] && a[i] < b[i] {
          assert x[..i - 1] == a[..i][1..] && y[..i - 1] == b[..i][1..];
        }
      } else {
        assert a[0] < b[0] ==> a[..0] == b[..0];
        forall i | 0 < i < |a| && i < |b|
          ensures a[..i] != b[..i]
        {
          assert a[..i][0] != b[..i][0];
        }
      }
    }
  }

  lemma StringOrder()
    ensures TotalPreorder(StringLe)
  {
    forall x, y
      ensures StringLe(x, y) || StringLe(y, x)
    {
      StringLeTotal(x, y);
    }
    forall x, y, z | StringLe(x, y) && StringLe(y, z)
      ensures StringLe(x, z)
    {
      StringLeTransitive(x, y, z);
    }
  }
}
