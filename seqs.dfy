/** Generic facts about sequences: filtering (Ruby's `select`), distinctness and order. */
module Seqs {

  predicate Distinct<T(==)>(s: seq<T>)
  {
    forall i, j :: 0 <= i < j < |s| ==> s[i] != s[j]
  }

  /** `a` is `b` with some elements left out, order kept. */
  predicate IsSubsequence<T(==)>(a: seq<T>, b: seq<T>)
    decreases |b|
  {
    if a == [] then true
    else if b == [] then false
    else if a[0] == b[0] then IsSubsequence(a[1..], b[1..])
    else IsSubsequence(a, b[1..])
  }

  lemma Assoc<T>(a: seq<T>, b: seq<T>, c: seq<T>)
    ensures a + b + c == a + (b + c)
  {
  }

  /** The elements of `s` that satisfy `p`, in the order of `s`. */
  function Filter<T(==)>(s: seq<T>, p: T -> bool): (r: seq<T>)
    ensures |r| <= |s|
    ensures forall x :: x in r ==> x in s && p(x)
    ensures forall x :: x in s && p(x) ==> x in r
    ensures IsSubsequence(r, s)
  {
    if s == [] then []
    else
      var rest := Filter(s[1..], p);
      if p(s[0]) then [s[0]] + rest
      else
        assert rest != [] ==> rest[0] != s[0] by {
          if rest != [] { assert rest[0] in rest; }
        }
        rest
  }

  lemma {:induction false} FilterAppend<T>(a: seq<T>, b: seq<T>, p: T -> bool)
    ensures Filter(a + b, p) == Filter(a, p) + Filter(b, p)
    decreases |a|
  {
    if a == [] {
      assert a + b == b;
    } else {
      assert (a + b)[1..] == a[1..] + b;
      FilterAppend(a[1..], b, p);
    }
  }

  /** Filtering one more element at the end. */
  lemma FilterSnoc<T>(s: seq<T>, x: T, p: T -> bool)
    ensures Filter(s + [x], p) == Filter(s, p) + (if p(x) then [x] else [])
  {
    FilterAppend(s, [x], p);
    assert [x][1..] == [];
  }

  /** Filtering a prefix one element longer. */
  lemma FilterPrefixStep<T>(s: seq<T>, i: nat, p: T -> bool)
    requires i < |s|
    ensures Filter(s[..i + 1], p) == Filter(s[..i], p) + (if p(s[i]) then [s[i]] else [])
  {
    assert s[..i + 1] == s[..i] + [s[i]];
    FilterSnoc(s[..i], s[i], p);
  }

  /** Every element lands on exactly one side of a filter. */
  lemma {:induction false} FilterSplitsLength<T>(s: seq<T>, p: T -> bool, q: T -> bool)
    requires forall x :: q(x) == !p(x)
    ensures |Filter(s, p)| + |Filter(s, q)| == |s|
    decreases |s|
  {
    if s != [] {
      FilterSplitsLength(s[1..], p, q);
    }
  }

  lemma {:induction false} SubsequenceOfDistinct<T>(a: seq<T>, b: seq<T>)
    requires IsSubsequence(a, b) && Distinct(b)
    ensures Distinct(a)
    decreases |b|
  {
    if a != [] && b != [] {
      if a[0] == b[0] {
        SubsequenceOfDistinct(a[1..], b[1..]);
        SubsequenceElements(a[1..], b[1..]);
        forall j | 0 < j < |a| ensures a[0] != a[j] {
          assert a[j] == a[1..][j - 1];
          assert a[j] in b[1..];
        }
      } else {
        SubsequenceOfDistinct(a, b[1..]);
      }
    }
  }

  lemma {:induction false} SubsequenceElements<T>(a: seq<T>, b: seq<T>)
    requires IsSubsequence(a, b)
    ensures forall x :: x in a ==> x in b
    decreases |b|
  {
    if a != [] && b != [] {
      if a[0] == b[0] {
        SubsequenceElements(a[1..], b[1..]);
        assert a == [a[0]] + a[1..];
      } else {
        SubsequenceElements(a, b[1..]);
      }
    }
  }

  /** Putting an element in front of `b` keeps every subsequence of `b`. */
  lemma {:induction false} SubsequenceExtend<T>(a: seq<T>, b: seq<T>, x: T)
    requires IsSubsequence(a, b)
    ensures IsSubsequence(a, [x] + b)
    decreases |b|, 1
  {
    if a != [] && a[0] == x {
      SubsequenceDropHead(a, b);
    }
    assert ([x] + b)[1..] == b;
  }

  /** A subsequence without its first element is still a subsequence. */
  lemma {:induction false} SubsequenceDropHead<T>(a: seq<T>, b: seq<T>)
    requires a != [] && IsSubsequence(a, b)
    ensures IsSubsequence(a[1..], b)
    decreases |b|, 0
  {
    if a[0] == b[0] {
      SubsequenceExtend(a[1..], b[1..], b[0]);
      assert [b[0]] + b[1..] == b;
    } else {
      SubsequenceDropHead(a, b[1..]);
      SubsequenceExtend(a[1..], b[1..], b[0]);
      assert [b[0]] + b[1..] == b;
    }
  }
}
