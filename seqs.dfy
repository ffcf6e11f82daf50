/**
 * Sequence operations shared by the filters and extractors: keeping the elements that pass a
 * test (a list comprehension with an `if`, or a loop that appends), the subsequence relation
 * such filtering produces, and Python's prefix slice `xs[:n]`.
 */
module Seqs {

  /** The elements of `s` that pass `keep`, in their original order. Defined from the back so
      that a loop appending to its output keeps `out == Filter(s[..i], keep)` step by step. */
  function Filter<T>(s: seq<T>, keep: T -> bool): (r: seq<T>)
    ensures |r| <= |s|
    decreases |s|
  {
    if s == [] then []
    else
      var init := Filter(s[..|s| - 1], keep);
      if keep(s[|s| - 1]) then init + [s[|s| - 1]] else init
  }

  /** `sub` can be obtained from `s` by deleting elements, without reordering what is kept. */
  ghost predicate IsSubsequence<T>(sub: seq<T>, s: seq<T>)
    decreases |s|
  {
    if sub == [] then true
    else if s == [] then false
    else
      (sub[|sub| - 1] == s[|s| - 1] && IsSubsequence(sub[..|sub| - 1], s[..|s| - 1]))
      || IsSubsequence(sub, s[..|s| - 1])
  }

  /** A subsequence is never longer than its source and every element of it comes from there. */
  lemma {:induction false} SubsequenceBounds<T>(sub: seq<T>, s: seq<T>)
    requires IsSubsequence(sub, s)
    ensures |sub| <= |s|
    ensures forall x :: x in sub ==> x in s
    decreases |s|
  {
    if sub != [] {
      var s' := s[..|s| - 1];
      if sub[|sub| - 1] == s[|s| - 1] && IsSubsequence(sub[..|sub| - 1], s') {
        SubsequenceBounds(sub[..|sub| - 1], s');
        assert sub == sub[..|sub| - 1] + [s[|s| - 1]];
        assert s == s' + [s[|s| - 1]];
      } else {
        SubsequenceBounds(sub, s');
        assert s == s' + [s[|s| - 1]];
      }
    }
  }

  /** Filtering keeps the original relative order: its result is a subsequence of its input. */
  lemma {:induction false} FilterIsSubsequence<T>(s: seq<T>, keep: T -> bool)
    ensures IsSubsequence(Filter(s, keep), s)
    decreases |s|
  {
    if s != [] {
      var s' := s[..|s| - 1];
      FilterIsSubsequence(s', keep);
      var r := Filter(s, keep);
      if keep(s[|s| - 1]) {
        assert r[..|r| - 1] == Filter(s', keep);
      } else {
        if r != [] {
          assert r == Filter(s', keep);
        }
      }
    }
  }

  /** An element is kept exactly when it is in the input and passes the test. */
  lemma {:induction false} FilterMembership<T>(s: seq<T>, keep: T -> bool)
    ensures forall x :: x in Filter(s, keep) <==> x in s && keep(x)
    decreases |s|
  {
    if s != [] {
      var s' := s[..|s| - 1];
      FilterMembership(s', keep);
      assert s == s' + [s[|s| - 1]];
    }
  }

  /** Filtering a concatenation filters each part. */
  lemma {:induction false} FilterAppend<T>(a: seq<T>, b: seq<T>, keep: T -> bool)
    ensures Filter(a + b, keep) == Filter(a, keep) + Filter(b, keep)
    decreases |b|
  {
    if b == [] {
      assert a + b == a;
    } else {
      var b', x := b[..|b| - 1], b[|b| - 1];
      FilterAppend(a, b', keep);
      assert (a + b)[..|a + b| - 1] == a + b' && (a + b)[|a + b| - 1] == x;
      var tail := if keep(x) then [x] else [];
      assert Filter(a + b, keep) == Filter(a, keep) + Filter(b', keep) + tail;
      assert Filter(b, keep) == Filter(b', keep) + tail;
      AppendAssoc(Filter(a, keep), Filter(b', keep), tail);
    }
  }

  /** Concatenation is associative. */
  lemma AppendAssoc<T>(a: seq<T>, b: seq<T>, c: seq<T>)
    ensures a + b + c == a + (b + c)
  {
  }

  /** Filtering one element more extends the result by that element exactly when it passes. */
  lemma FilterSnoc<T>(s: seq<T>, i: nat, keep: T -> bool)
    requires i < |s|
    ensures Filter(s[..i + 1], keep) == Filter(s[..i], keep) + (if keep(s[i]) then [s[i]] else [])
  {
    assert s[..i + 1][..i] == s[..i];
  }

  /** The elements of `[x] + xs` after the first are those of `xs`, shifted by one. */
  lemma ConsIndex<T>(x: T, xs: seq<T>)
    ensures forall k | 1 <= k < |[x] + xs| :: ([x] + xs)[k] == xs[k - 1]
  {
  }

  /** The elements of a prefix one longer are those of the prefix and the next element. */
  lemma PrefixSnocMembers<T>(s: seq<T>, i: nat)
    requires i < |s|
    ensures forall x :: x in s[..i + 1] <==> x in s[..i] || x == s[i]
  {
    assert s[..i + 1] == s[..i] + [s[i]];
  }

  /** Filtering twice with the same test is filtering once. */
  lemma {:induction false} FilterIdempotent<T>(s: seq<T>, keep: T -> bool)
    ensures Filter(Filter(s, keep), keep) == Filter(s, keep)
    decreases |s|
  {
    if s != [] {
      var s' := s[..|s| - 1];
      FilterIdempotent(s', keep);
      if keep(s[|s| - 1]) {
        FilterAppend(Filter(s', keep), [s[|s| - 1]], keep);
        assert Filter([s[|s| - 1]], keep) == [s[|s| - 1]] by {
          assert [s[|s| - 1]][..0] == [];
        }
      }
    }
  }

  /** Nothing passes when the test rejects every element. */
  lemma {:induction false} FilterNone<T>(s: seq<T>, keep: T -> bool)
    requires forall k :: 0 <= k < |s| ==> !keep(s[k])
    ensures Filter(s, keep) == []
    decreases |s|
  {
    if s != [] {
      FilterNone(s[..|s| - 1], keep);
    }
  }

  /** Two tests that agree on every element of `s` filter it alike. */
  lemma {:induction false} FilterAgree<T>(s: seq<T>, keep: T -> bool, keep': T -> bool)
    requires forall k :: 0 <= k < |s| ==> keep(s[k]) == keep'(s[k])
    ensures Filter(s, keep) == Filter(s, keep')
    decreases |s|
  {
    if s != [] {
      FilterAgree(s[..|s| - 1], keep, keep');
    }
  }

  /** Python's `xs[:n]` for any integer `n`: a negative `n` drops that many elements from the end. */
  function Prefix<T>(xs: seq<T>, n: int): (r: seq<T>)
    ensures |r| <= |xs|
    ensures r == xs[..|r|]
    ensures n >= 0 ==> |r| == if n <= |xs| then n else |xs|
    ensures n < 0 ==> |r| == if |xs| + n >= 0 then |xs| + n else 0
  {
    if n >= 0 then (if n <= |xs| then xs[..n] else xs)
    else if |xs| + n >= 0 then xs[..|xs| + n]
    else []
  }

  /** The concatenation of a sequence of sequences, built from the back like a loop that extends. */
  function Flatten<T>(xss: seq<seq<T>>): (r: seq<T>)
    decreases |xss|
  {
    if xss == [] then [] else Flatten(xss[..|xss| - 1]) + xss[|xss| - 1]
  }

  /** Every element of a flattened sequence comes from one of the pieces. */
  lemma {:induction false} FlattenMembership<T>(xss: seq<seq<T>>, x: T)
    requires x in Flatten(xss)
    ensures exists k :: 0 <= k < |xss| && x in xss[k]
    decreases |xss|
  {
    var init := xss[..|xss| - 1];
    if x in Flatten(init) {
      FlattenMembership(init, x);
      var k :| 0 <= k < |init| && x in init[k];
      assert xss[k] == init[k];
    } else {
      assert x in xss[|xss| - 1];
    }
  }

  /** The length of a flattened sequence is the sum of the lengths of the pieces. */
  function TotalLength<T>(xss: seq<seq<T>>): nat
    decreases |xss|
  {
    if xss == [] then 0 else TotalLength(xss[..|xss| - 1]) + |xss[|xss| - 1]|
  }

  lemma {:induction false} FlattenLength<T>(xss: seq<seq<T>>)
    ensures |Flatten(xss)| == TotalLength(xss)
    decreases |xss|
  {
    if xss != [] {
      FlattenLength(xss[..|xss| - 1]);
    }
  }

  /** One piece more appends that piece to the flattened prefix. */
  lemma FlattenSnoc<T>(xss: seq<seq<T>>, i: nat)
    requires i < |xss|
    ensures Flatten(xss[..i + 1]) == Flatten(xss[..i]) + xss[i]
  {
    assert xss[..i + 1][..i] == xss[..i];
  }
}
