/** The array primitives both front-ends lean on: JavaScript's `Array.prototype.filter`,
    what "an order-preserving subsequence" means, and taking a bounded prefix. */
module Seqs {

  /** `s.filter(keep)`: the elements of `s` that satisfy `keep`, in their original order. */
  function Filter<T>(s: seq<T>, keep: T -> bool): (r: seq<T>)
    ensures |r| <= |s|
    ensures forall i :: 0 <= i < |r| ==> keep(r[i])
    ensures forall i :: 0 <= i < |r| ==> r[i] in s
    ensures forall i :: 0 <= i < |s| && keep(s[i]) ==> s[i] in r
  {
    if s == [] then []
    else (if keep(s[0]) then [s[0]] else []) + Filter(s[1..], keep)
  }

  /** `idx` is a strictly increasing list of positions of `s` that spells out `r`. */
  ghost predicate Embeds<T>(r: seq<T>, s: seq<T>, idx: seq<nat>)
  {
    |idx| == |r| &&
    (forall k :: 0 <= k < |idx| ==> idx[k] < |s| && r[k] == s[idx[k]]) &&
    (forall k, l :: 0 <= k < l < |idx| ==> idx[k] < idx[l])
  }

  /** `r` is obtained from `s` by dropping elements, without reordering any. */
  ghost predicate IsSubsequence<T>(r: seq<T>, s: seq<T>)
  {
    exists idx :: Embeds(r, s, idx)
  }

  /** The first `n` elements of `s`, or all of `s` when it is shorter. */
  function Take<T>(s: seq<T>, n: nat): (r: seq<T>)
    ensures |r| == if |s| <= n then |s| else n
    ensures r == s[..|r|]
  {
    if |s| <= n then s else s[..n]
  }

  /** Positions into `s[1..]` shifted by one are positions into `s`; `x` in front of `r`
      is matched by position 0 when `s` starts with `x`. */
  lemma EmbedsInTail<T>(r: seq<T>, s: seq<T>, idx: seq<nat>) returns (shifted: seq<nat>)
    requires s != [] && Embeds(r, s[1..], idx)
    ensures Embeds(r, s, shifted) && Embeds([s[0]] + r, s, [0] + shifted)
  {
    shifted := seq(|idx|, k requires 0 <= k < |idx| => idx[k] + 1);
    forall k | 0 <= k < |shifted| ensures shifted[k] < |s| && r[k] == s[shifted[k]] {
      assert r[k] == s[1..][idx[k]];
    }
    var r', shifted' := [s[0]] + r, [0] + shifted;
    forall k | 0 <= k < |shifted'| ensures shifted'[k] < |s| && r'[k] == s[shifted'[k]] {
      if k > 0 {
        assert r'[k] == r[k - 1] && shifted'[k] == shifted[k - 1];
      }
    }
  }

  /** Whatever `filter` returns is an order-preserving subsequence of its input. */
  lemma {:induction false} FilterIsSubsequence<T>(s: seq<T>, keep: T -> bool)
    ensures IsSubsequence(Filter(s, keep), s)
  {
    if s == [] {
      assert Embeds([], s, []);
    } else {
      var tail := Filter(s[1..], keep);
      FilterIsSubsequence(s[1..], keep);
      var idx :| Embeds(tail, s[1..], idx);
      var shifted := EmbedsInTail(tail, s, idx);
      if keep(s[0]) {
        assert Filter(s, keep) == [s[0]] + tail;
        assert Embeds(Filter(s, keep), s, [0] + shifted);
      } else {
        assert Embeds(Filter(s, keep), s, shifted);
      }
    }
  }

  /** Every sequence is a subsequence of itself. */
  lemma SubsequenceReflexive<T>(s: seq<T>)
    ensures IsSubsequence(s, s)
  {
    assert Embeds(s, s, seq(|s|, k requires 0 <= k < |s| => k));
  }

  /** A prefix is a subsequence, witnessed by a prefix of any witness. */
  lemma TakeEmbeds<T>(r: seq<T>, s: seq<T>, idx: seq<nat>, n: nat)
    requires Embeds(r, s, idx)
    ensures Embeds(Take(r, n), s, idx[..|Take(r, n)|])
  {
  }

  /** `filter` with a predicate every element passes returns the array unchanged. */
  lemma {:induction false} FilterKeepsAll<T>(s: seq<T>, keep: T -> bool)
    ensures (forall i :: 0 <= i < |s| ==> keep(s[i])) ==> Filter(s, keep) == s
  {
    if s != [] && forall i :: 0 <= i < |s| ==> keep(s[i]) {
      FilterKeepsAll(s[1..], keep);
      assert forall i :: 0 <= i < |s[1..]| ==> keep(s[1..][i]) by {
        forall i | 0 <= i < |s[1..]| ensures keep(s[1..][i]) {
          assert s[1..][i] == s[i + 1];
        }
      }
    }
  }

  /** Filtering twice by the same predicate is filtering once. */
  lemma FilterIdempotent<T>(s: seq<T>, keep: T -> bool)
    ensures Filter(Filter(s, keep), keep) == Filter(s, keep)
  {
    FilterKeepsAll(Filter(s, keep), keep);
  }

  /** Filtering by a predicate and by its negation splits the array: the two lengths add up. */
  lemma {:induction false} FilterPartition<T>(s: seq<T>, keep: T -> bool, drop: T -> bool)
    requires forall x :: drop(x) == !keep(x)
    ensures |Filter(s, keep)| + |Filter(s, drop)| == |s|
  {
    if s != [] {
      FilterPartition(s[1..], keep, drop);
    }
  }
}
