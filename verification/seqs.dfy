/** Generic sequence operations behind the pandas idioms the pipeline uses:
    boolean-mask row selection, `unique()`, and `sort_values`. */
module Seqs {
  import opened Text

  /** Rows satisfying `p`, in their original order (a boolean mask). */
  function Filter<T>(s: seq<T>, p: T -> bool): (r: seq<T>)
    ensures |r| <= |s|
    ensures forall i :: 0 <= i < |r| ==> p(r[i])
  {
    if s == [] then []
    else Filter(s[..|s| - 1], p) + (if p(s[|s| - 1]) then [s[|s| - 1]] else [])
  }

  /** Rows failing `p`, in their original order (the negated mask). */
  function Reject<T>(s: seq<T>, p: T -> bool): (r: seq<T>)
    ensures |r| <= |s|
    ensures forall i :: 0 <= i < |r| ==> !p(r[i])
  {
    if s == [] then []
    else Reject(s[..|s| - 1], p) + (if p(s[|s| - 1]) then [] else [s[|s| - 1]])
  }

  lemma {:induction false} FilterMembership<T>(s: seq<T>, p: T -> bool, x: T)
    ensures x in Filter(s, p) <==> x in s && p(x)
  {
    if s != [] {
      FilterMembership(s[..|s| - 1], p, x);
      assert s == s[..|s| - 1] + [s[|s| - 1]];
    }
  }

  /** A mask and its negation split the rows between them. */
  lemma {:induction false} FilterRejectPartition<T>(s: seq<T>, p: T -> bool)
    ensures |Filter(s, p)| + |Reject(s, p)| == |s|
  {
    if s != [] {
      FilterRejectPartition(s[..|s| - 1], p);
    }
  }

  /** A mask that rejects nothing keeps every row. */
  lemma {:induction false} RejectNothing<T>(s: seq<T>, p: T -> bool)
    requires Reject(s, p) == []
    ensures forall i :: 0 <= i < |s| ==> p(s[i])
  {
    if s != [] {
      RejectNothing(s[..|s| - 1], p);
    }
  }

  /** Row selection by a boolean mask, one row at a time. */
  method Select<T>(s: seq<T>, p: T -> bool) returns (r: seq<T>)
    ensures r == Filter(s, p)
  {
    r := [];
    var i := 0;
    while i < |s|
      invariant 0 <= i <= |s|
      invariant r == Filter(s[..i], p)
    {
      assert s[..i + 1][..i] == s[..i];
      if p(s[i]) {
        r := r + [s[i]];
      }
      i := i + 1;
    }
    assert s[..|s|] == s;
  }

  /** `a` is `b` with some elements removed and the rest kept in order. */
  predicate IsSubsequence<T(==)>(a: seq<T>, b: seq<T>)
    decreases |b|
  {
    if a == [] then true
    else if b == [] then false
    else if a[|a| - 1] == b[|b| - 1] then IsSubsequence(a[..|a| - 1], b[..|b| - 1])
    else IsSubsequence(a, b[..|b| - 1])
  }

  lemma {:induction false} SubsequenceOfSelf<T>(a: seq<T>)
    ensures IsSubsequence(a, a)
  {
    if a != [] {
      SubsequenceOfSelf(a[..|a| - 1]);
    }
  }

  /** Appending an element to the larger sequence keeps a subsequence. */
  lemma {:induction false} SubsequenceExtend<T>(a: seq<T>, b: seq<T>, x: T)
    requires IsSubsequence(a, b)
    ensures IsSubsequence(a, b + [x])
    decreases |b|, 1
  {
    var b' := b + [x];
    assert b'[..|b'| - 1] == b;
    if a != [] && a[|a| - 1] == x {
      SubsequencePrefix(a, b);
    }
  }

  /** Dropping the last element of the smaller sequence keeps a subsequence. */
  lemma {:induction false} SubsequencePrefix<T>(a: seq<T>, b: seq<T>)
    requires a != [] && IsSubsequence(a, b)
    ensures IsSubsequence(a[..|a| - 1], b)
    decreases |b|, 0
  {
    var a' := a[..|a| - 1];
    if a' != [] && b != [] {
      var b' := b[..|b| - 1];
      if a[|a| - 1] == b[|b| - 1] {
        SubsequenceExtend(a', b', b[|b| - 1]);
        assert b' + [b[|b| - 1]] == b;
      } else {
        SubsequencePrefix(a, b');
        SubsequenceExtend(a', b', b[|b| - 1]);
        assert b' + [b[|b| - 1]] == b;
      }
    }
  }

  lemma {:induction false} SubsequenceTransitive<T>(a: seq<T>, b: seq<T>, c: seq<T>)
    requires IsSubsequence(a, b) && IsSubsequence(b, c)
    ensures IsSubsequence(a, c)
    decreases |c|
  {
    if a != [] && b != [] && c != [] {
      var a', b', c' := a[..|a| - 1], b[..|b| - 1], c[..|c| - 1];
      if b[|b| - 1] == c[|c| - 1] {
        if a[|a| - 1] == b[|b| - 1] {
          SubsequenceTransitive(a', b', c');
        } else {
          SubsequenceTransitive(a, b', c');
        }
      } else {
        SubsequenceTransitive(a, b, c');
        SubsequenceExtend(a, c', c[|c| - 1]);
        assert c' + [c[|c| - 1]] == c;
      }
    }
  }

  lemma {:induction false} FilterIsSubsequence<T>(s: seq<T>, p: T -> bool)
    ensures IsSubsequence(Filter(s, p), s)
  {
    if s != [] {
      var s' := s[..|s| - 1];
      FilterIsSubsequence(s', p);
      if p(s[|s| - 1]) {
        assert Filter(s, p)[..|Filter(s, p)| - 1] == Filter(s', p);
      } else {
        assert Filter(s, p) == Filter(s', p);
        SubsequenceExtend(Filter(s', p), s', s[|s| - 1]);
        assert s' + [s[|s| - 1]] == s;
      }
    }
  }

  predicate NoDuplicates<T(==)>(s: seq<T>)
  {
    forall i, j :: 0 <= i < j < |s| ==> s[i] != s[j]
  }

  function Elements<T>(s: seq<T>): set<T>
  {
    set x | x in s
  }

  lemma {:induction false} NoDuplicatesMultiplicity<T>(s: seq<T>, x: T)
    requires NoDuplicates(s)
    ensures multiset(s)[x] <= 1
  {
    if s != [] {
      var s' := s[..|s| - 1];
      assert s == s' + [s[|s| - 1]];
      NoDuplicatesMultiplicity(s', x);
      if x == s[|s| - 1] {
        assert x !in s';
      }
    }
  }

  /** A value found at two positions occurs at least twice in the multiset. */
  lemma RepeatedValueMultiplicity<T>(s: seq<T>, i: int, j: int)
    requires 0 <= i < j < |s| && s[i] == s[j]
    ensures multiset(s)[s[i]] >= 2
  {
    assert s == s[..i] + [s[i]] + s[i + 1..j] + [s[j]] + s[j + 1..];
  }

  /** Reordering a sequence whose keys are all different keeps them all different. */
  lemma PermutationKeepsDistinctKeys<T>(a: seq<T>, b: seq<T>, key: T -> string)
    requires multiset(a) == multiset(b)
    requires forall i, j :: 0 <= i < j < |a| ==> key(a[i]) != key(a[j])
    ensures forall i, j :: 0 <= i < j < |b| ==> key(b[i]) != key(b[j])
  {
    forall i, j | 0 <= i < j < |b| ensures key(b[i]) != key(b[j]) {
      if key(b[i]) == key(b[j]) {
        assert b[i] in multiset(a) && b[j] in multiset(a);
        var p :| 0 <= p < |a| && a[p] == b[i];
        var q :| 0 <= q < |a| && a[q] == b[j];
        assert p == q;
        RepeatedValueMultiplicity(b, i, j);
        NoDuplicatesMultiplicity(a, a[p]);
        assert false;
      }
    }
  }

  /** A set has more than one element exactly when it holds two different values. */
  lemma TwoDifferentElements<T>(s: set<T>)
    ensures |s| > 1 <==> exists a, b :: a in s && b in s && a != b
  {
    if |s| > 1 {
      var a :| a in s;
      assert |s - {a}| == |s| - 1;
      var b :| b in s - {a};
    }
    if exists a, b :: a in s && b in s && a != b {
      var a, b :| a in s && b in s && a != b;
      assert {a, b} <= s;
      assert |{a, b}| == 2;
      assert |s - {a, b}| + |{a, b}| == |s|;
    }
  }

  /** pandas' `unique()`: each value once, in order of first appearance. */
  function Distinct<T(==)>(s: seq<T>): seq<T>
  {
    if |s| == 0 then []
    else
      var d := Distinct(s[..|s| - 1]);
      if s[|s| - 1] in d then d else d + [s[|s| - 1]]
  }

  /** `unique()` holds only input values, holds every input value, and holds each once. */
  lemma {:induction false} DistinctProperties<T>(s: seq<T>)
    ensures forall i :: 0 <= i < |Distinct(s)| ==> Distinct(s)[i] in s
    ensures forall i :: 0 <= i < |s| ==> s[i] in Distinct(s)
    ensures NoDuplicates(Distinct(s))
  {
    if |s| != 0 {
      var s' := s[..|s| - 1];
      DistinctProperties(s');
      assert s == s' + [s[|s| - 1]];
    }
  }

  /** A sequence without repeats has as many elements as its set of values. */
  lemma {:induction false} NoDuplicatesCardinality<T>(s: seq<T>)
    requires NoDuplicates(s)
    ensures |Elements(s)| == |s|
  {
    if s != [] {
      var s' := s[..|s| - 1];
      NoDuplicatesCardinality(s');
      assert Elements(s) == Elements(s') + {s[|s| - 1]} by {
        assert s == s' + [s[|s| - 1]];
      }
      assert s[|s| - 1] !in Elements(s');
    }
  }

  /** `len(s.unique())` is the number of distinct values. */
  lemma DistinctCardinality<T>(s: seq<T>)
    ensures |Distinct(s)| == |Elements(s)|
  {
    DistinctProperties(s);
    NoDuplicatesCardinality(Distinct(s));
    assert Elements(Distinct(s)) == Elements(s);
  }

  /** Ordered by `key`, ties in any order. */
  predicate SortedBy<T>(s: seq<T>, key: T -> string)
  {
    forall i, j :: 0 <= i < j < |s| ==> StrLe(key(s[i]), key(s[j]))
  }

  function InsertBy<T>(x: T, s: seq<T>, key: T -> string): (r: seq<T>)
    ensures multiset(r) == multiset(s) + multiset{x}
  {
    if s == [] then [x]
    else if StrLe(key(x), key(s[0])) then [x] + s
    else
      assert s == [s[0]] + s[1..];
      [s[0]] + InsertBy(x, s[1..], key)
  }

  /** `sort_values(key)`: a permutation of the input ordered by key. */
  function SortBy<T>(s: seq<T>, key: T -> string): (r: seq<T>)
    ensures multiset(r) == multiset(s)
  {
    if s == [] then []
    else
      assert s == [s[0]] + s[1..];
      InsertBy(s[0], SortBy(s[1..], key), key)
  }

  lemma {:induction false} InsertBySorted<T>(x: T, s: seq<T>, key: T -> string)
    requires SortedBy(s, key)
    ensures SortedBy(InsertBy(x, s, key), key)
  {
    if s != [] {
      var r := InsertBy(x, s, key);
      if StrLe(key(x), key(s[0])) {
        forall j | 1 <= j < |r| ensures StrLe(key(x), key(r[j])) {
          if j > 1 {
            StrLeTransitive(key(x), key(s[0]), key(s[j - 1]));
          }
        }
      } else {
        StrLeTotal(key(x), key(s[0]));
        InsertBySorted(x, s[1..], key);
        var t := InsertBy(x, s[1..], key);
        forall j | 0 <= j < |t| ensures StrLe(key(s[0]), key(t[j])) {
          assert t[j] in multiset(t);
          if t[j] != x {
            assert t[j] in multiset(s[1..]);
            var k :| 0 <= k < |s[1..]| && s[1..][k] == t[j];
            assert s[k + 1] == t[j];
          }
        }
      }
    }
  }

  lemma {:induction false} SortBySorted<T>(s: seq<T>, key: T -> string)
    ensures SortedBy(SortBy(s, key), key)
  {
    if s != [] {
      SortBySorted(s[1..], key);
      InsertBySorted(s[0], SortBy(s[1..], key), key);
    }
  }

  /** Sorting neither adds nor loses values. */
  lemma SortByElements<T>(s: seq<T>, key: T -> string)
    ensures forall x :: x in SortBy(s, key) <==> x in s
  {
    var r := SortBy(s, key);
    forall x ensures x in r <==> x in s {
      assert x in r <==> x in multiset(r);
      assert x in s <==> x in multiset(s);
    }
  }
}
