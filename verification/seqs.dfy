/** Sequence helpers shared by the screens: the `Array.prototype.filter`
    every list view is built from, order-preserving subsequences, counting
    and removal of every occurrence of a value. */
module Seqs {

  /** `a` can be obtained from `b` by deleting elements, keeping the order of
      what remains: either `b`'s head is kept as `a`'s head, or it is deleted. */
  predicate SubseqOf<T(==)>(a: seq<T>, b: seq<T>)
    decreases |b|
  {
    if |b| == 0 then |a| == 0
    else (|a| > 0 && a[0] == b[0] && SubseqOf(a[1..], b[1..])) || SubseqOf(a, b[1..])
  }

  predicate NoDuplicates<T(==)>(s: seq<T>) {
    forall i, j :: 0 <= i < j < |s| ==> s[i] != s[j]
  }

  /** The elements of `s` that satisfy `p`, in their original order. */
  function Filter<T>(s: seq<T>, p: T -> bool): (r: seq<T>)
    ensures |r| <= |s|
    ensures forall i :: 0 <= i < |r| ==> r[i] in s && p(r[i])
    ensures forall i :: 0 <= i < |s| && p(s[i]) ==> s[i] in r
    ensures forall i {:trigger multiset(r)[s[i]]} :: 0 <= i < |s| ==> multiset(r)[s[i]] == if p(s[i]) then multiset(s)[s[i]] else 0
  {
    if |s| == 0 then []
    else
      assert s == [s[0]] + s[1..];
      if p(s[0]) then [s[0]] + Filter(s[1..], p)
      else Filter(s[1..], p)
  }

  /** How many elements of `s` satisfy `p`. */
  function Count<T>(s: seq<T>, p: T -> bool): (n: nat)
    ensures n <= |s|
  {
    |Filter(s, p)|
  }

  /** JavaScript's `Array.prototype.some`: whether any element satisfies `p`. */
  function AnySatisfies<T>(s: seq<T>, p: T -> bool): (b: bool)
    ensures b <==> exists i :: 0 <= i < |s| && p(s[i])
  {
    if |s| == 0 then false
    else if p(s[0]) then true
    else
      assert forall i :: 1 <= i < |s| ==> s[i] == s[1..][i - 1];
      AnySatisfies(s[1..], p)
  }

  /** `s` with every occurrence of `x` removed. */
  function Without<T(==)>(s: seq<T>, x: T): (r: seq<T>)
    ensures x !in r
    ensures forall i :: 0 <= i < |r| ==> r[i] in s
    ensures forall i :: 0 <= i < |s| && s[i] != x ==> s[i] in r
    ensures SubseqOf(r, s)
    ensures multiset(r) == multiset(s)[x := 0]
  {
    FilterIsSubseq(s, y => y != x);
    FilterOutMultiset(s, x);
    Filter(s, y => y != x)
  }

  /** Filtering out `x` keeps every other value exactly as often as `s` holds it. */
  lemma FilterOutMultiset<T>(s: seq<T>, x: T)
    ensures multiset(Filter(s, y => y != x)) == multiset(s)[x := 0]
  {
    var r := Filter(s, y => y != x);
    forall y
      ensures multiset(r)[y] == multiset(s)[x := 0][y]
    {
      if y !in s {
        assert y !in r;
      } else {
        var i :| 0 <= i < |s| && s[i] == y;
      }
    }
  }

  /** Removing a value that does not occur leaves the list as it is. */
  lemma WithoutAbsent<T>(s: seq<T>, x: T)
    requires x !in s
    ensures Without(s, x) == s
  {
    FilterKeepsAll(s, y => y != x);
  }

  /** A subsequence holds nothing its sequence does not. */
  lemma {:induction false} SubseqMembers<T>(a: seq<T>, b: seq<T>)
    requires SubseqOf(a, b)
    ensures forall i :: 0 <= i < |a| ==> a[i] in b
    decreases |b|
  {
    if |b| > 0 {
      if |a| > 0 && a[0] == b[0] && SubseqOf(a[1..], b[1..]) {
        SubseqMembers(a[1..], b[1..]);
        forall i | 0 <= i < |a|
          ensures a[i] in b
        {
          if i > 0 {
            assert a[i] == a[1..][i - 1];
          }
        }
      } else {
        SubseqMembers(a, b[1..]);
      }
    }
  }

  /** A subsequence of a duplicate-free sequence is duplicate-free. */
  lemma {:induction false} SubseqNoDuplicates<T>(a: seq<T>, b: seq<T>)
    requires SubseqOf(a, b) && NoDuplicates(b)
    ensures NoDuplicates(a)
    decreases |b|
  {
    if |b| > 0 {
      assert NoDuplicates(b[1..]);
      if |a| > 0 && a[0] == b[0] && SubseqOf(a[1..], b[1..]) {
        SubseqNoDuplicates(a[1..], b[1..]);
        SubseqMembers(a[1..], b[1..]);
        assert b[0] !in b[1..];
        forall i, j | 0 <= i < j < |a|
          ensures a[i] != a[j]
        {
          assert a[j] == a[1..][j - 1];
          if i > 0 {
            assert a[i] == a[1..][i - 1];
          }
        }
      } else {
        SubseqNoDuplicates(a, b[1..]);
      }
    }
  }

  /** Appending an element not yet present keeps a list duplicate-free and
      adds exactly that element. */
  lemma AppendNew<T>(s: seq<T>, x: T)
    requires x !in s
    ensures forall y :: y in s + [x] <==> y in s || y == x
    ensures NoDuplicates(s) ==> NoDuplicates(s + [x])
  {
  }

  lemma {:induction false} EmptyIsSubseq<T>(s: seq<T>)
    ensures SubseqOf([], s)
  {
    if |s| > 0 {
      EmptyIsSubseq(s[1..]);
    }
  }

  /** Whatever `p` is, the filtered list is an order-preserving subsequence. */
  lemma {:induction false} FilterIsSubseq<T>(s: seq<T>, p: T -> bool)
    ensures SubseqOf(Filter(s, p), s)
  {
    if |s| > 0 {
      FilterIsSubseq(s[1..], p);
    }
  }

  /** Filtering a list with a known head: the head, if kept, then the filtered tail. */
  lemma FilterCons<T>(x: T, s: seq<T>, p: T -> bool)
    ensures Filter([x] + s, p) == (if p(x) then [x] else []) + Filter(s, p)
  {
    assert ([x] + s)[1..] == s;
  }

  /** Putting the same head `x` in front of two lists whose filters differ by
      a prefix `extra` keeps that difference, provided `x` and `extra` are not
      both kept. */
  lemma FilterSharedHead<T>(x: T, a: seq<T>, b: seq<T>, extra: seq<T>, p: T -> bool)
    requires Filter(a, p) == extra + Filter(b, p)
    requires !p(x) || extra == []
    ensures Filter([x] + a, p) == extra + Filter([x] + b, p)
  {
    FilterCons(x, a, p);
    FilterCons(x, b, p);
    if p(x) {
      assert extra + Filter(b, p) == Filter(b, p);
    }
  }

  /** A filter whose predicate holds everywhere keeps the list as it is. */
  lemma {:induction false} FilterKeepsAll<T>(s: seq<T>, p: T -> bool)
    requires forall i :: 0 <= i < |s| ==> p(s[i])
    ensures Filter(s, p) == s
  {
    if |s| > 0 {
      FilterKeepsAll(s[1..], p);
      assert s == [s[0]] + s[1..];
    }
  }

  lemma {:induction false} FilterConcat<T>(a: seq<T>, b: seq<T>, p: T -> bool)
    ensures Filter(a + b, p) == Filter(a, p) + Filter(b, p)
  {
    if |a| == 0 {
      assert a + b == b;
    } else {
      assert (a + b)[1..] == a[1..] + b;
      FilterConcat(a[1..], b, p);
    }
  }

  /** A weaker predicate keeps at least as many elements. */
  lemma {:induction false} CountMonotone<T>(s: seq<T>, p: T -> bool, q: T -> bool)
    requires forall x :: p(x) ==> q(x)
    ensures Count(s, p) <= Count(s, q)
  {
    if |s| > 0 {
      CountMonotone(s[1..], p, q);
    }
  }

  /** Every element either satisfies `p` or does not. */
  lemma {:induction false} CountComplement<T>(s: seq<T>, p: T -> bool, q: T -> bool)
    requires forall x :: q(x) <==> !p(x)
    ensures Count(s, p) + Count(s, q) == |s|
  {
    if |s| > 0 {
      CountComplement(s[1..], p, q);
    }
  }

  /** Removing a value that is not there, after appending it, gives back the list. */
  lemma WithoutAppended<T>(s: seq<T>, x: T)
    requires x !in s
    ensures Without(s + [x], x) == s
  {
    FilterConcat(s, [x], y => y != x);
    WithoutAbsent(s, x);
  }
}
