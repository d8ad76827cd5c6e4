/** Order-preserving sequence operations used by the task list: the model of
    JavaScript's `Array.prototype.filter`, and the facts about it that the
    list filter, delete and the dashboard counts rely on. */
module Seqs {

  /** `a` is obtained from `b` by deleting zero or more elements, keeping the
      order of the rest. */
  ghost predicate IsSubsequence<T>(a: seq<T>, b: seq<T>)
    decreases |b|
  {
    if |a| == 0 then true
    else if |b| == 0 then false
    else (a[0] == b[0] && IsSubsequence(a[1..], b[1..])) || IsSubsequence(a, b[1..])
  }

  /** The elements of `s` that satisfy `p`, in their original order. */
  function Filter<T(==,!new)>(s: seq<T>, p: T -> bool): (r: seq<T>)
    ensures |r| <= |s|
    ensures forall i :: 0 <= i < |r| ==> p(r[i])
    ensures forall x :: x in r <==> x in s && p(x)
    ensures IsSubsequence(r, s)
    decreases |s|
  {
    if |s| == 0 then []
    else
      var rest := Filter(s[1..], p);
      if p(s[0]) then
        var r := [s[0]] + rest;
        assert r[1..] == rest;
        r
      else
        rest
  }

  /** Each element passing `p` occurs in the filtered sequence as often as in
      the input; no other element occurs there. */
  lemma {:induction false} FilterMultiset<T(!new)>(s: seq<T>, p: T -> bool)
    ensures forall x :: multiset(Filter(s, p))[x] == if p(x) then multiset(s)[x] else 0
    decreases |s|
  {
    if |s| != 0 {
      FilterMultiset(s[1..], p);
      assert s == [s[0]] + s[1..];
      assert multiset(s) == multiset{s[0]} + multiset(s[1..]);
      if p(s[0]) {
        assert Filter(s, p) == [s[0]] + Filter(s[1..], p);
        assert multiset(Filter(s, p)) == multiset{s[0]} + multiset(Filter(s[1..], p));
      }
    }
  }

  /** Filtering distributes over concatenation. */
  lemma {:induction false} FilterConcat<T(!new)>(a: seq<T>, b: seq<T>, p: T -> bool)
    ensures Filter(a + b, p) == Filter(a, p) + Filter(b, p)
    decreases |a|
  {
    if |a| == 0 {
      assert a + b == b;
    } else {
      assert (a + b)[1..] == a[1..] + b;
      FilterConcat(a[1..], b, p);
    }
  }

  /** A filter that every element passes returns its input unchanged. */
  lemma {:induction false} FilterAllPass<T(!new)>(s: seq<T>, p: T -> bool)
    requires forall i :: 0 <= i < |s| ==> p(s[i])
    ensures Filter(s, p) == s
    decreases |s|
  {
    if |s| != 0 {
      FilterAllPass(s[1..], p);
    }
  }

  /** The number of elements passing a filter depends only on the multiset of
      the input, so it is unchanged by any permutation. */
  lemma FilterLengthPermutation<T(!new)>(s: seq<T>, s': seq<T>, p: T -> bool)
    requires multiset(s) == multiset(s')
    ensures multiset(Filter(s, p)) == multiset(Filter(s', p))
    ensures |Filter(s, p)| == |Filter(s', p)|
  {
    var r, r' := Filter(s, p), Filter(s', p);
    FilterMultiset(s, p);
    FilterMultiset(s', p);
    assert forall x :: multiset(r)[x] == multiset(r')[x];
    assert multiset(r) == multiset(r');
    assert |r| == |multiset(r)| == |multiset(r')| == |r'|;
  }

  /** A weaker filter passes at least as many elements. */
  lemma {:induction false} FilterLengthMonotone<T(!new)>(s: seq<T>, p: T -> bool, q: T -> bool)
    requires forall x :: p(x) ==> q(x)
    ensures |Filter(s, p)| <= |Filter(s, q)|
    decreases |s|
  {
    if |s| != 0 {
      FilterLengthMonotone(s[1..], p, q);
    }
  }

  /** When `p` is the disjoint union of `q` and `q'`, the elements passing `p`
      are counted exactly once by one of `q` and `q'`. */
  lemma {:induction false} FilterLengthSplit<T(!new)>(s: seq<T>, p: T -> bool, q: T -> bool, q': T -> bool)
    requires forall x :: p(x) <==> q(x) || q'(x)
    requires forall x :: !(q(x) && q'(x))
    ensures |Filter(s, p)| == |Filter(s, q)| + |Filter(s, q')|
    decreases |s|
  {
    if |s| != 0 {
      FilterLengthSplit(s[1..], p, q, q');
    }
  }

  /** A filter that rejects exactly one position drops exactly one element. */
  lemma {:induction false} FilterRejectsOne<T(!new)>(s: seq<T>, p: T -> bool, k: nat)
    requires k < |s| && !p(s[k])
    requires forall i :: 0 <= i < |s| && i != k ==> p(s[i])
    ensures |Filter(s, p)| == |s| - 1
    decreases |s|
  {
    if k == 0 {
      FilterAllPass(s[1..], p);
    } else {
      FilterRejectsOne(s[1..], p, k - 1);
    }
  }
}
