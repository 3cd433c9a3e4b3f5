/** Facts about finite lists that several components share. */
module Sequences {

  function Filter<T>(s: seq<T>, keep: T -> bool): (r: seq<T>)
    ensures |r| <= |s|
  {
    if s == [] then [] else (if keep(s[0]) then [s[0]] else []) + Filter(s[1..], keep)
  }

  function Min(a: int, b: int): int {
    if a <= b then a else b
  }

  /** Python's `s[:n]` for n >= 0. */
  function Take<T>(s: seq<T>, n: nat): (r: seq<T>)
    ensures |r| == Min(|s|, n) && r <= s
  {
    if n <= |s| then s[..n] else s
  }

  ghost predicate Distinct<T(!new)>(s: seq<T>) {
    forall i, j :: 0 <= i < j < |s| ==> s[i] != s[j]
  }

  lemma {:induction false} FilterMembers<T>(s: seq<T>, keep: T -> bool, x: T)
    ensures x in Filter(s, keep) <==> x in s && keep(x)
  {
    if s != [] {
      FilterMembers(s[1..], keep, x);
      assert x in s <==> x == s[0] || x in s[1..];
    }
  }

  lemma Associative<T>(a: seq<T>, b: seq<T>, c: seq<T>)
    ensures a + b + c == a + (b + c)
  {
  }

  lemma {:induction false} FilterConcat<T>(a: seq<T>, b: seq<T>, keep: T -> bool)
    ensures Filter(a + b, keep) == Filter(a, keep) + Filter(b, keep)
  {
    if a == [] {
      assert a + b == b;
    } else {
      assert (a + b)[0] == a[0] && (a + b)[1..] == a[1..] + b;
      FilterConcat(a[1..], b, keep);
      Associative(if keep(a[0]) then [a[0]] else [], Filter(a[1..], keep), Filter(b, keep));
    }
  }

  lemma {:induction false} FilterSnoc<T>(s: seq<T>, x: T, keep: T -> bool)
    ensures Filter(s + [x], keep) == Filter(s, keep) + if keep(x) then [x] else []
  {
    FilterConcat(s, [x], keep);
    assert [x][1..] == [];
  }

  /** A list without repetitions is as long as its set of elements. */
  lemma {:induction false} DistinctSize<T(!new)>(s: seq<T>)
    requires Distinct(s)
    ensures |set x | x in s| == |s|
  {
    if s != [] {
      DistinctSize(s[1..]);
      assert (set x | x in s) == {s[0]} + (set x | x in s[1..]);
    }
  }

  lemma {:induction false} SubsetSize<T>(a: set<T>, b: set<T>)
    requires a <= b
    ensures |a| <= |b|
  {
    assert b == a + (b - a);
  }

  /** Each element once, in the order in which they are first seen. */
  function Uniq<T(==)>(s: seq<T>): seq<T> {
    if s == [] then []
    else
      var init, last := Uniq(s[..|s| - 1]), s[|s| - 1];
      if last in init then init else init + [last]
  }

  lemma {:induction false} UniqMembers<T>(s: seq<T>, x: T)
    ensures x in Uniq(s) <==> x in s
  {
    if s != [] {
      UniqMembers(s[..|s| - 1], x);
      UniqMembers(s[..|s| - 1], s[|s| - 1]);
      assert s == s[..|s| - 1] + [s[|s| - 1]];
    }
  }

  lemma {:induction false} UniqIsDistinct<T(!new)>(s: seq<T>)
    ensures Distinct(Uniq(s))
  {
    if s != [] {
      UniqIsDistinct(s[..|s| - 1]);
    }
  }

  lemma UniqSnoc<T>(s: seq<T>, x: T)
    ensures Uniq(s + [x]) == if x in s then Uniq(s) else Uniq(s) + [x]
  {
    assert (s + [x])[..|s|] == s;
    UniqMembers(s, x);
  }

  lemma {:induction false} UniqConcat<T(!new)>(a: seq<T>, b: seq<T>)
    ensures Uniq(a + b) == Uniq(a) + Filter(Uniq(b), (x: T) => x !in a)
  {
    if b == [] {
      assert a + b == a;
    } else {
      var init, last := b[..|b| - 1], b[|b| - 1];
      assert a + b == (a + init) + [last] && b == init + [last];
      UniqConcat(a, init);
      UniqSnoc(a + init, last);
      UniqSnoc(init, last);
      FilterSnoc(Uniq(init), last, (x: T) => x !in a);
    }
  }

  lemma {:induction false} UniqOfDistinct<T(!new)>(s: seq<T>)
    requires Distinct(s)
    ensures Uniq(s) == s
  {
    if s != [] {
      var init, last := s[..|s| - 1], s[|s| - 1];
      UniqOfDistinct(init);
      assert last !in init;
      assert s == init + [last];
    }
  }
}
