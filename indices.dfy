/** Index sequences: fancy indexing (`array[indices]`) and permutations of `0..n-1`. */
module Indices {

  /** `np.arange(n)`. */
  function Range(n: nat): (r: seq<nat>)
    ensures |r| == n && forall k :: 0 <= k < n ==> r[k] == k
  {
    seq(n, k requires 0 <= k < n => k)
  }

  /** Every index of `idx` addresses an element of a sequence of length `n`. */
  predicate InRange(idx: seq<nat>, n: nat)
  {
    forall k :: 0 <= k < |idx| ==> idx[k] < n
  }

  /** `s[idx]`: the elements of `s` picked out by `idx`, in the order of `idx`. */
  function Gather(s: seq<real>, idx: seq<nat>): (r: seq<real>)
    requires InRange(idx, |s|)
    ensures |r| == |idx| && forall k :: 0 <= k < |idx| ==> r[k] == s[idx[k]]
  {
    seq(|idx|, k requires 0 <= k < |idx| => s[idx[k]])
  }

  /** What `np.random.choice(np.arange(n), n, replace=False)` yields: each index of `0..n-1` exactly once. */
  predicate IsPermutation(p: seq<nat>, n: nat)
  {
    multiset(p) == multiset(Range(n))
  }

  /** Each value occurs once in `0..n-1` if it is below `n`, and not at all otherwise. */
  lemma {:induction false} RangeCount(n: nat, x: nat)
    ensures multiset(Range(n))[x] == if x < n then 1 else 0
  {
    if n > 0 {
      assert Range(n) == Range(n - 1) + [n - 1];
      RangeCount(n - 1, x);
    } else {
      assert Range(n) == [];
    }
  }

  /** A permutation of `0..n-1` has length `n`, stays below `n` and repeats no index. */
  lemma PermutationFacts(p: seq<nat>, n: nat)
    requires IsPermutation(p, n)
    ensures |p| == n && InRange(p, n)
    ensures forall i, j :: 0 <= i < j < |p| ==> p[i] != p[j]
  {
    assert |p| == |multiset(p)| == |multiset(Range(n))| == n;
    forall k | 0 <= k < |p|
      ensures p[k] < n
    {
      assert p[k] in multiset(p);
      RangeCount(n, p[k]);
    }
    forall i, j | 0 <= i < j < |p|
      ensures p[i] != p[j]
    {
      if p[i] == p[j] {
        var x := p[i];
        assert p == p[..i] + [x] + p[i + 1..j] + [x] + p[j + 1..];
        assert multiset(p)[x] >= 2;
        RangeCount(n, x);
        assert false;
      }
    }
  }

  /** Fancy indexing distributes over concatenating index sequences. */
  lemma GatherConcat(s: seq<real>, a: seq<nat>, b: seq<nat>)
    requires InRange(a, |s|) && InRange(b, |s|)
    ensures InRange(a + b, |s|) && Gather(s, a + b) == Gather(s, a) + Gather(s, b)
  {
  }

  /** Taking out the element at position `k` takes one copy of it out of the multiset of
      indices, and one copy of the element it picks out of the gathered sample. */
  lemma GatherRemoveAt(s: seq<real>, q: seq<nat>, k: nat)
    requires InRange(q, |s|) && k < |q|
    ensures InRange(q[..k] + q[k + 1..], |s|)
    ensures multiset(q) == multiset(q[..k] + q[k + 1..]) + multiset{q[k]}
    ensures multiset(Gather(s, q)) == multiset(Gather(s, q[..k] + q[k + 1..])) + multiset{s[q[k]]}
  {
    assert q == q[..k] + [q[k]] + q[k + 1..];
    var gf, gb := Gather(s, q[..k]), Gather(s, q[k + 1..]);
    assert Gather(s, q) == gf + [s[q[k]]] + gb;
    assert Gather(s, q[..k] + q[k + 1..]) == gf + gb;
  }

  /** Index sequences with the same multiset pick out samples with the same multiset. */
  lemma {:induction false} GatherMultiset(s: seq<real>, p: seq<nat>, q: seq<nat>)
    requires InRange(p, |s|) && InRange(q, |s|)
    requires multiset(p) == multiset(q)
    ensures multiset(Gather(s, p)) == multiset(Gather(s, q))
    decreases |p|
  {
    if |p| == 0 {
      assert |q| == |multiset(q)| == 0;
    } else {
      assert p[0] in multiset(q);
      var k :| 0 <= k < |q| && q[k] == p[0];
      var j := 0;
      var p', q' := p[..j] + p[j + 1..], q[..k] + q[k + 1..];
      GatherRemoveAt(s, q, k);
      GatherRemoveAt(s, p, j);
      Cancel(multiset(p'), multiset(q'), p[j]);
      GatherMultiset(s, p', q');
    }
  }

  /** Taking the same element out of two equal multisets leaves equal multisets. */
  lemma Cancel<T>(a: multiset<T>, b: multiset<T>, x: T)
    requires a + multiset{x} == b + multiset{x}
    ensures a == b
  {
    forall y
      ensures a[y] == b[y]
    {
      assert (a + multiset{x})[y] == (b + multiset{x})[y];
    }
  }

  /** Reading a sample through a permutation of its indices rearranges it and loses nothing. */
  lemma GatherPermutation(s: seq<real>, p: seq<nat>)
    requires IsPermutation(p, |s|)
    ensures InRange(p, |s|) && multiset(Gather(s, p)) == multiset(s)
  {
    PermutationFacts(p, |s|);
    GatherMultiset(s, p, Range(|s|));
    assert Gather(s, Range(|s|)) == s;
  }

  /** A multiset is contained in its sum with any other. */
  lemma SubMultiset(a: multiset<real>, b: multiset<real>)
    ensures a <= a + b && a <= b + a
  {
  }
}
