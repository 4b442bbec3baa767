/**
 * The list transformers the application is built from: JavaScript's
 * `Array.prototype.filter`, `map` and `flat`, and the "remove every
 * occurrence" filter, with the facts about order and membership that the
 * rest of the model relies on.
 */
module Seqs {

  /** No element occurs twice. */
  predicate Distinct<T(==)>(s: seq<T>) {
    forall i, j :: 0 <= i < j < |s| ==> s[i] != s[j]
  }

  /** `xs` can be obtained from `s` by deleting elements: the elements of `xs` occur in `s` in the same order. */
  ghost predicate IsSubseq<T>(xs: seq<T>, s: seq<T>)
    decreases |s|
  {
    if |xs| == 0 then true
    else if |s| == 0 then false
    else (xs[0] == s[0] && IsSubseq(xs[1..], s[1..])) || IsSubseq(xs, s[1..])
  }

  /** `Array.prototype.map`. */
  function Map<A, B>(f: A -> B, s: seq<A>): (r: seq<B>)
    ensures |r| == |s|
    ensures forall i :: 0 <= i < |s| ==> r[i] == f(s[i])
  {
    if |s| == 0 then [] else [f(s[0])] + Map(f, s[1..])
  }

  /** `Array.prototype.filter`: keeps the elements satisfying `p`, in order. */
  function Filter<T(!new)>(p: T -> bool, s: seq<T>): (r: seq<T>)
    ensures |r| <= |s|
    ensures forall x :: x in r <==> x in s && p(x)
  {
    if |s| == 0 then []
    else if p(s[0]) then [s[0]] + Filter(p, s[1..])
    else Filter(p, s[1..])
  }

  /** `Array.prototype.flat` on a list of lists. */
  function Concat<T(!new)>(ss: seq<seq<T>>): (r: seq<T>)
    ensures forall x :: x in r <==> exists i :: 0 <= i < |ss| && x in ss[i]
  {
    if |ss| == 0 then [] else ss[0] + Concat(ss[1..])
  }

  /** `s.filter(y => y !== x)`: drops every occurrence of `x`. */
  function RemoveAll<T(==,!new)>(s: seq<T>, x: T): (r: seq<T>)
    ensures x !in r
    ensures forall y :: y != x ==> (y in r <==> y in s)
    ensures |r| <= |s|
  {
    Filter(y => y != x, s)
  }

  lemma {:induction false} FilterIsSubseq<T(!new)>(p: T -> bool, s: seq<T>)
    ensures IsSubseq(Filter(p, s), s)
    decreases |s|
  {
    if |s| > 0 {
      FilterIsSubseq(p, s[1..]);
      var rest := Filter(p, s[1..]);
      if p(s[0]) {
        assert ([s[0]] + rest)[1..] == rest;
      } else {
        SubseqOfTail(rest, s);
      }
    }
  }

  /** A subsequence of the tail is a subsequence of the whole list. */
  lemma SubseqOfTail<T>(xs: seq<T>, s: seq<T>)
    requires |s| > 0 && IsSubseq(xs, s[1..])
    ensures IsSubseq(xs, s)
  {
  }

  lemma {:induction false} SubseqMember<T>(xs: seq<T>, s: seq<T>)
    requires IsSubseq(xs, s)
    ensures forall x :: x in xs ==> x in s
    decreases |s|
  {
    if |xs| > 0 {
      if xs[0] == s[0] && IsSubseq(xs[1..], s[1..]) {
        SubseqMember(xs[1..], s[1..]);
        assert forall x :: x in xs ==> x == xs[0] || x in xs[1..];
      } else {
        SubseqMember(xs, s[1..]);
      }
    }
  }

  /** A subsequence of a list without duplicates has no duplicates. */
  lemma {:induction false} SubseqDistinct<T>(xs: seq<T>, s: seq<T>)
    requires IsSubseq(xs, s) && Distinct(s)
    ensures Distinct(xs)
    decreases |s|
  {
    if |xs| > 0 {
      assert Distinct(s[1..]);
      if xs[0] == s[0] && IsSubseq(xs[1..], s[1..]) {
        SubseqDistinct(xs[1..], s[1..]);
        SubseqMember(xs[1..], s[1..]);
        assert s[0] !in s[1..];
        forall i, j | 0 <= i < j < |xs|
          ensures xs[i] != xs[j]
        {
          if i == 0 {
            assert xs[j] == xs[1..][j - 1];
          } else {
            assert xs[i] == xs[1..][i - 1] && xs[j] == xs[1..][j - 1];
          }
        }
      } else {
        SubseqDistinct(xs, s[1..]);
      }
    }
  }

  /** Mapping both sides preserves the subsequence relation. */
  lemma {:induction false} MapSubseq<A, B>(f: A -> B, xs: seq<A>, s: seq<A>)
    requires IsSubseq(xs, s)
    ensures IsSubseq(Map(f, xs), Map(f, s))
    decreases |s|
  {
    if |xs| > 0 {
      assert Map(f, s)[1..] == Map(f, s[1..]);
      if xs[0] == s[0] && IsSubseq(xs[1..], s[1..]) {
        MapSubseq(f, xs[1..], s[1..]);
        assert Map(f, xs)[1..] == Map(f, xs[1..]);
      } else {
        MapSubseq(f, xs, s[1..]);
        SubseqOfTail(Map(f, xs), Map(f, s));
      }
    }
  }

  /** Filtering distributes over concatenation: the filter keeps relative order. */
  lemma {:induction false} FilterAppend<T(!new)>(p: T -> bool, a: seq<T>, b: seq<T>)
    ensures Filter(p, a + b) == Filter(p, a) + Filter(p, b)
    decreases |a|
  {
    if |a| > 0 {
      assert (a + b)[1..] == a[1..] + b;
      FilterAppend(p, a[1..], b);
    } else {
      assert a + b == b;
    }
  }

  /** When every element passes, the filter is the identity. */
  lemma {:induction false} FilterAll<T(!new)>(p: T -> bool, s: seq<T>)
    requires forall x :: x in s ==> p(x)
    ensures Filter(p, s) == s
    decreases |s|
  {
    if |s| > 0 {
      FilterAll(p, s[1..]);
    }
  }

  /** Filtering keeps every occurrence of a satisfying element and drops every other. */
  lemma {:induction false} FilterMultiset<T(!new)>(p: T -> bool, s: seq<T>, x: T)
    ensures multiset(Filter(p, s))[x] == if p(x) then multiset(s)[x] else 0
  {
    if |s| > 0 {
      FilterMultiset(p, s[1..], x);
      assert s == [s[0]] + s[1..];
    }
  }

  /** Filtering a list with one more element at the end. */
  lemma FilterSnoc<T(!new)>(p: T -> bool, s: seq<T>, x: T)
    ensures Filter(p, s + [x]) == Filter(p, s) + (if p(x) then [x] else [])
  {
    FilterAppend(p, s, [x]);
    assert [x][1..] == [];
  }

  /** When no element passes, the filter is empty. */
  lemma FilterNone<T(!new)>(p: T -> bool, s: seq<T>)
    requires forall x :: x in s ==> !p(x)
    ensures Filter(p, s) == []
  {
    if Filter(p, s) != [] {
      assert Filter(p, s)[0] in Filter(p, s);
    }
  }

  /** The filter keeps every element exactly when all of them pass. */
  lemma {:induction false} FilterFullLength<T(!new)>(p: T -> bool, s: seq<T>)
    ensures |Filter(p, s)| == |s| <==> forall x :: x in s ==> p(x)
    decreases |s|
  {
    if |s| > 0 {
      FilterFullLength(p, s[1..]);
      if !p(s[0]) {
        assert |Filter(p, s)| <= |s[1..]|;
      } else {
        assert forall x :: x in s ==> x == s[0] || x in s[1..];
      }
    }
  }

  /** Flattening distributes over concatenation. */
  lemma {:induction false} ConcatAppend<T(!new)>(a: seq<seq<T>>, b: seq<seq<T>>)
    ensures Concat(a + b) == Concat(a) + Concat(b)
    decreases |a|
  {
    if |a| > 0 {
      assert (a + b)[1..] == a[1..] + b;
      ConcatAppend(a[1..], b);
    } else {
      assert a + b == b;
    }
  }

  /** Removing an element that is absent leaves the list as it is. */
  lemma RemoveAllAbsent<T(!new)>(s: seq<T>, x: T)
    requires x !in s
    ensures RemoveAll(s, x) == s
  {
    FilterAll(y => y != x, s);
  }

  /**
   * Removing every occurrence keeps the rest in order: it distributes over
   * concatenation and leaves lists without `x` unchanged, so it deletes the
   * occurrences of `x` and nothing else.
   */
  lemma RemoveAllKeepsOrder<T(!new)>(a: seq<T>, b: seq<T>, x: T)
    ensures RemoveAll(a + b, x) == RemoveAll(a, x) + RemoveAll(b, x)
    ensures IsSubseq(RemoveAll(a, x), a)
    ensures RemoveAll([x], x) == []
    ensures x !in a ==> RemoveAll(a, x) == a
    ensures x in a ==> |RemoveAll(a, x)| < |a|
  {
    FilterAppend(y => y != x, a, b);
    FilterIsSubseq(y => y != x, a);
    FilterFullLength(y => y != x, a);
    if x !in a {
      RemoveAllAbsent(a, x);
    }
  }

  /** Removing drops every copy of `x` and keeps every copy of every other element. */
  lemma RemoveAllCounts<T(!new)>(s: seq<T>, x: T)
    ensures forall y :: multiset(RemoveAll(s, x))[y] == if y == x then 0 else multiset(s)[y]
  {
    forall y: T
      ensures multiset(RemoveAll(s, x))[y] == if y == x then 0 else multiset(s)[y]
    {
      FilterMultiset(z => z != x, s, y);
    }
  }

  /** Removing keeps a list free of duplicates. */
  lemma RemoveAllDistinct<T(!new)>(s: seq<T>, x: T)
    requires Distinct(s)
    ensures Distinct(RemoveAll(s, x))
  {
    FilterIsSubseq(y => y != x, s);
    SubseqDistinct(RemoveAll(s, x), s);
  }
}
