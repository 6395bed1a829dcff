/** Generic sequence vocabulary shared by the loader and the chart layout:
    keeping the elements that satisfy a predicate (a boolean-mask selection
    on a data frame), and being a subsequence. */
module Seqs {
  import opened Wrappers

  /** The elements of `s` that satisfy `p`, in their original order. */
  function Where<T>(s: seq<T>, p: T -> bool): (r: seq<T>)
    ensures |r| <= |s|
    ensures forall x :: x in r ==> x in s && p(x)
    decreases |s|
  {
    if s == [] then []
    else Where(s[..|s| - 1], p) + (if p(s[|s| - 1]) then [s[|s| - 1]] else [])
  }

  /** `a` can be obtained from `b` by deleting elements. */
  predicate Subseq<T(==)>(a: seq<T>, b: seq<T>)
    decreases |b|
  {
    a == [] ||
    (b != [] &&
     ((a[|a| - 1] == b[|b| - 1] && Subseq(a[..|a| - 1], b[..|b| - 1])) ||
      Subseq(a, b[..|b| - 1])))
  }

  /** Number of occurrences of `x` in `s`. */
  function Count<T(==)>(s: seq<T>, x: T): nat
  {
    multiset(s)[x]
  }

  lemma {:induction false} WhereAppend<T>(a: seq<T>, b: seq<T>, p: T -> bool)
    ensures Where(a + b, p) == Where(a, p) + Where(b, p)
    decreases |b|
  {
    if b == [] {
      assert a + b == a;
    } else {
      var b' := b[..|b| - 1];
      assert (a + b)[..|a + b| - 1] == a + b';
      WhereAppend(a, b', p);
    }
  }

  /** Every element of `s` that satisfies `p` is kept, and only those. */
  lemma {:induction false} WhereMembers<T>(s: seq<T>, p: T -> bool, x: T)
    ensures x in Where(s, p) <==> x in s && p(x)
    decreases |s|
  {
    if s != [] {
      var s' := s[..|s| - 1];
      WhereMembers(s', p, x);
      assert s == s' + [s[|s| - 1]];
    }
  }

  /** A selection never reorders: the result is a subsequence of the input. */
  lemma {:induction false} WhereIsSubseq<T>(s: seq<T>, p: T -> bool)
    ensures Subseq(Where(s, p), s)
    decreases |s|
  {
    if s != [] {
      var s' := s[..|s| - 1];
      WhereIsSubseq(s', p);
      var r := Where(s, p);
      assert s[..|s| - 1] == s';
      if p(s[|s| - 1]) {
        assert r == Where(s', p) + [s[|s| - 1]];
        assert r[..|r| - 1] == Where(s', p);
      } else {
        assert r == Where(s', p);
      }
    }
  }

  /** Selecting by `p` and then by `q` is selecting by both at once. */
  lemma {:induction false} WhereWhere<T>(s: seq<T>, p: T -> bool, q: T -> bool, pq: T -> bool)
    requires forall x :: pq(x) == (p(x) && q(x))
    ensures Where(Where(s, p), q) == Where(s, pq)
    decreases |s|
  {
    if s != [] {
      var s' := s[..|s| - 1];
      var x := s[|s| - 1];
      WhereWhere(s', p, q, pq);
      WhereAppend(Where(s', p), if p(x) then [x] else [], q);
      assert Where([x], q) == (if q(x) then [x] else []) by {
        assert [x][..0] == [];
      }
      assert Where([], q) == [];
    }
  }

  /** Selections by two predicates that agree everywhere are equal. */
  lemma {:induction false} WhereSame<T>(s: seq<T>, p: T -> bool, q: T -> bool)
    requires forall x :: p(x) == q(x)
    ensures Where(s, p) == Where(s, q)
    decreases |s|
  {
    if s != [] {
      WhereSame(s[..|s| - 1], p, q);
    }
  }

  /** A predicate that holds of every element selects everything. */
  lemma {:induction false} WhereAll<T>(s: seq<T>, p: T -> bool)
    requires forall i :: 0 <= i < |s| ==> p(s[i])
    ensures Where(s, p) == s
    decreases |s|
  {
    if s != [] {
      var s' := s[..|s| - 1];
      var x := s[|s| - 1];
      forall i | 0 <= i < |s'|
        ensures p(s'[i])
      {
        assert s'[i] == s[i];
      }
      WhereAll(s', p);
      assert p(x);
      calc {
        Where(s, p);
        Where(s', p) + [x];
        s' + [x];
        s;
      }
    }
  }

  /** Each value occurs in the selection exactly as often as in the input
      when it satisfies the predicate, and not at all otherwise. */
  lemma {:induction false} WhereCount<T>(s: seq<T>, p: T -> bool, x: T)
    ensures Count(Where(s, p), x) == if p(x) then Count(s, x) else 0
    decreases |s|
  {
    if s != [] {
      var s' := s[..|s| - 1];
      WhereCount(s', p, x);
      assert s == s' + [s[|s| - 1]];
    }
  }

  /** Applies `f` to every element and keeps the present results, in order. */
  function FilterMap<A, B>(s: seq<A>, f: A -> Option<B>): (r: seq<B>)
    ensures |r| <= |s|
    decreases |s|
  {
    if s == [] then []
    else
      var y := f(s[|s| - 1]);
      FilterMap(s[..|s| - 1], f) + (if y.Some? then [y.value] else [])
  }

  /** `FilterMap` is a selection followed by an element-wise map: its
      results are those of the kept elements, one for one and in order. */
  lemma {:induction false} FilterMapIsWhere<A, B>(s: seq<A>, f: A -> Option<B>, keep: A -> bool)
    requires forall x :: keep(x) == f(x).Some?
    ensures |FilterMap(s, f)| == |Where(s, keep)|
    ensures forall i :: 0 <= i < |Where(s, keep)| ==> f(Where(s, keep)[i]) == Some(FilterMap(s, f)[i])
    decreases |s|
  {
    if s != [] {
      FilterMapIsWhere(s[..|s| - 1], f, keep);
    }
  }

  /** A value is produced iff some element maps to it. */
  lemma FilterMapMembers<A, B>(s: seq<A>, f: A -> Option<B>, y: B)
    ensures y in FilterMap(s, f) <==> exists x :: x in s && f(x) == Some(y)
  {
    var keep := (x: A) => f(x).Some?;
    FilterMapIsWhere(s, f, keep);
    var w := Where(s, keep);
    if y in FilterMap(s, f) {
      var i :| 0 <= i < |w| && FilterMap(s, f)[i] == y;
      assert w[i] in s && f(w[i]) == Some(y);
    }
    if exists x :: x in s && f(x) == Some(y) {
      var x :| x in s && f(x) == Some(y);
      WhereMembers(s, keep, x);
      var i :| 0 <= i < |w| && w[i] == x;
      assert FilterMap(s, f)[i] == y;
    }
  }

  /** Applies `f` to every element, in order. */
  function Map<A, B>(s: seq<A>, f: A --> B): (r: seq<B>)
    requires forall i :: 0 <= i < |s| ==> f.requires(s[i])
    ensures |r| == |s| && forall i :: 0 <= i < |s| ==> r[i] == f(s[i])
    decreases |s|
  {
    if s == [] then []
    else Map(s[..|s| - 1], f) + [f(s[|s| - 1])]
  }

  /** A sequence that agrees with `f` applied element-wise is `Map`'s
      result. */
  lemma MapEqual<A, B>(s: seq<A>, f: A --> B, r: seq<B>)
    requires forall i :: 0 <= i < |s| ==> f.requires(s[i])
    requires |r| == |s| && forall i :: 0 <= i < |s| ==> r[i] == f(s[i])
    ensures r == Map(s, f)
  {
  }
}
