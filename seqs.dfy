/** Order-preserving sequence pipelines: filtering, first-occurrence deduplication, subsequences. */
module Seqs {

  predicate NoDuplicates<T(==)>(s: seq<T>) {
    forall i, j :: 0 <= i < j < |s| ==> s[i] != s[j]
  }

  /** `a` can be obtained from `b` by deleting elements (greedy match from the back). */
  predicate IsSubsequence<T(==)>(a: seq<T>, b: seq<T>)
    decreases |b|
  {
    if a == [] then true
    else if b == [] then false
    else if a[|a| - 1] == b[|b| - 1] then IsSubsequence(a[..|a| - 1], b[..|b| - 1])
    else IsSubsequence(a, b[..|b| - 1])
  }

  /** Dropping the last element of a subsequence leaves a subsequence. */
  lemma {:induction false} SubsequenceDropLast<T>(a: seq<T>, b: seq<T>)
    requires a != [] && IsSubsequence(a, b)
    ensures IsSubsequence(a[..|a| - 1], b)
    decreases |b|, 0
  {
    var a', b' := a[..|a| - 1], b[..|b| - 1];
    if a[|a| - 1] == b[|b| - 1] {
      SubsequenceExtend(a', b', b[|b| - 1]);
      assert b' + [b[|b| - 1]] == b;
    } else {
      SubsequenceDropLast(a, b');
      SubsequenceExtend(a', b', b[|b| - 1]);
      assert b' + [b[|b| - 1]] == b;
    }
  }

  /** A subsequence of `b` stays one when `b` grows at the end. */
  lemma {:induction false} SubsequenceExtend<T>(a: seq<T>, b: seq<T>, x: T)
    requires IsSubsequence(a, b)
    ensures IsSubsequence(a, b + [x])
    decreases |b|, 1
  {
    var bx := b + [x];
    assert bx[..|bx| - 1] == b;
    if a != [] && a[|a| - 1] == x {
      SubsequenceDropLast(a, b);
    }
  }

  lemma {:induction false} SubsequenceTransitive<T>(a: seq<T>, b: seq<T>, c: seq<T>)
    requires IsSubsequence(a, b) && IsSubsequence(b, c)
    ensures IsSubsequence(a, c)
    decreases |c|
  {
    if a != [] && c != [] {
      assert b != [];
      var a', b', c' := a[..|a| - 1], b[..|b| - 1], c[..|c| - 1];
      var z := c[|c| - 1];
      if b[|b| - 1] == z {
        if a[|a| - 1] == z {
          SubsequenceTransitive(a', b', c');
        } else {
          SubsequenceTransitive(a, b', c');
        }
      } else {
        SubsequenceTransitive(a, b, c');
        SubsequenceExtend(a, c', z);
        assert c' + [z] == c;
      }
    }
  }

  /** Keeps, in order, the elements that satisfy `keep`. */
  function Filter<T(!new)>(keep: T -> bool, s: seq<T>): (r: seq<T>)
    ensures |r| <= |s|
    ensures forall x :: x in r <==> x in s && keep(x)
  {
    if s == [] then []
    else
      var rest := Filter(keep, s[..|s| - 1]);
      assert forall x :: x in s <==> x in s[..|s| - 1] || x == s[|s| - 1];
      if keep(s[|s| - 1]) then rest + [s[|s| - 1]] else rest
  }

  lemma {:induction false} FilterIsSubsequence<T(!new)>(keep: T -> bool, s: seq<T>)
    ensures IsSubsequence(Filter(keep, s), s)
  {
    if s != [] {
      var s' := s[..|s| - 1];
      FilterIsSubsequence(keep, s');
      assert s' + [s[|s| - 1]] == s;
      if keep(s[|s| - 1]) {
        var r := Filter(keep, s);
        assert r[..|r| - 1] == Filter(keep, s');
      } else {
        SubsequenceExtend(Filter(keep, s'), s', s[|s| - 1]);
      }
    }
  }

  /** Filtering a sequence without duplicates yields one without duplicates. */
  lemma {:induction false} FilterDistinct<T(!new)>(keep: T -> bool, s: seq<T>)
    requires NoDuplicates(s)
    ensures NoDuplicates(Filter(keep, s))
  {
    if s != [] {
      var s' := s[..|s| - 1];
      FilterDistinct(keep, s');
      assert s[|s| - 1] !in s';
    }
  }

  /** Extending the input extends the filtered output the same way (the step of a filtering loop). */
  lemma FilterSnoc<T(!new)>(keep: T -> bool, s: seq<T>, x: T)
    ensures Filter(keep, s + [x]) == Filter(keep, s) + (if keep(x) then [x] else [])
  {
    assert (s + [x])[..|s|] == s;
  }

  /** A filter that rejects every element of its input yields nothing. */
  lemma FilterNone<T(!new)>(keep: T -> bool, s: seq<T>)
    requires forall x :: x in s ==> !keep(x)
    ensures Filter(keep, s) == []
  {
  }

  /** The first element whose value is `x`. */
  function FirstIndex<T(==)>(s: seq<T>, x: T): (i: nat)
    requires x in s
    ensures i < |s| && s[i] == x && x !in s[..i]
  {
    if s[0] == x then 0 else 1 + FirstIndex(s[1..], x)
  }

  lemma {:induction false} FirstIndexSnoc<T>(s: seq<T>, y: T, x: T)
    requires y in s
    ensures FirstIndex(s + [x], y) == FirstIndex(s, y)
  {
    if s[0] != y {
      assert (s + [x])[1..] == s[1..] + [x];
      FirstIndexSnoc(s[1..], y, x);
    }
  }

  /** Keeps the first occurrence of every value, in input order. */
  function Unique<T(==,!new)>(s: seq<T>): (r: seq<T>)
    ensures NoDuplicates(r)
    ensures forall x :: x in r <==> x in s
  {
    if s == [] then []
    else
      var last := s[|s| - 1];
      var rest := Unique(s[..|s| - 1]);
      assert forall x :: x in s <==> x in s[..|s| - 1] || x == last;
      if last in rest then rest else rest + [last]
  }

  lemma {:induction false} UniqueIsSubsequence<T(!new)>(s: seq<T>)
    ensures IsSubsequence(Unique(s), s)
  {
    if s != [] {
      var s', last := s[..|s| - 1], s[|s| - 1];
      UniqueIsSubsequence(s');
      assert s' + [last] == s;
      var u := Unique(s');
      if last in u {
        SubsequenceExtend(u, s', last);
      } else {
        var r := Unique(s);
        assert r[..|r| - 1] == u;
      }
    }
  }

  /** The output lists values in the order of their first occurrence in the input. */
  lemma {:induction false} UniqueFirstOccurrenceOrder<T(!new)>(s: seq<T>)
    ensures forall i, j :: 0 <= i < j < |Unique(s)| ==> FirstIndex(s, Unique(s)[i]) < FirstIndex(s, Unique(s)[j])
  {
    if s != [] {
      var s', last := s[..|s| - 1], s[|s| - 1];
      UniqueFirstOccurrenceOrder(s');
      assert s' + [last] == s;
      var u, r := Unique(s'), Unique(s);
      forall y | y in s'
        ensures FirstIndex(s, y) == FirstIndex(s', y)
      {
        FirstIndexSnoc(s', y, last);
      }
      if last !in u {
        assert FirstIndex(s, last) == |s'|;
        forall i, j | 0 <= i < j < |r|
          ensures FirstIndex(s, r[i]) < FirstIndex(s, r[j])
        {
          assert r == u + [last];
          assert r[i] == u[i] && u[i] in u && u[i] in s';
          assert FirstIndex(s, r[i]) == FirstIndex(s', u[i]) < |s'|;
          if j < |u| {
            assert r[j] == u[j] && u[j] in u && u[j] in s';
            assert FirstIndex(s', u[i]) < FirstIndex(s', u[j]);
            assert FirstIndex(s, r[j]) == FirstIndex(s', u[j]);
          } else {
            assert r[j] == last;
            assert FirstIndex(s, r[j]) == |s'|;
          }
        }
      } else {
        forall i, j | 0 <= i < j < |r|
          ensures FirstIndex(s, r[i]) < FirstIndex(s, r[j])
        {
          assert r == u;
          assert u[i] in u && u[j] in u;
        }
      }
    }
  }

  /** Deduplicating a sequence that has no duplicates changes nothing. */
  lemma {:induction false} UniqueOfDistinct<T(!new)>(s: seq<T>)
    requires NoDuplicates(s)
    ensures Unique(s) == s
  {
    if s != [] {
      var s' := s[..|s| - 1];
      UniqueOfDistinct(s');
      assert s[|s| - 1] !in s';
    }
  }
}
