/**
  Order-preserving filtering of sequences, the behaviour of JavaScript's
  `Array.prototype.filter`. Both the project filter and the comma-list
  parser keep exactly the elements that pass a test, in their original order.
 */
module Seqs {

  /** The elements of `s` that satisfy `p`, in the order they occur in `s`. */
  function Keep<T>(s: seq<T>, p: T -> bool): (r: seq<T>)
    ensures |r| <= |s|
    ensures forall k :: 0 <= k < |r| ==> p(r[k])
  {
    if |s| == 0 then []
    else if p(s[0]) then [s[0]] + Keep(s[1..], p)
    else Keep(s[1..], p)
  }

  /**
    The positions in `s` of the kept elements, each shifted by `base`.
    `KeepIsSubsequence` shows that with `base == 0` this is a strictly
    increasing enumeration of exactly the positions whose elements pass.
   */
  function KeptIndices<T>(s: seq<T>, p: T -> bool, base: nat): (idx: seq<nat>)
    ensures |idx| == |Keep(s, p)|
  {
    if |s| == 0 then []
    else if p(s[0]) then [base] + KeptIndices(s[1..], p, base + 1)
    else KeptIndices(s[1..], p, base + 1)
  }

  /** The `k`-th kept element is the element of `s` at the `k`-th recorded position. */
  lemma {:induction false} KeptIndexAt<T>(s: seq<T>, p: T -> bool, base: nat, k: nat)
    requires k < |KeptIndices(s, p, base)|
    ensures base <= KeptIndices(s, p, base)[k] < base + |s|
    ensures Keep(s, p)[k] == s[KeptIndices(s, p, base)[k] - base]
  {
    var idx, rest := KeptIndices(s, p, base), KeptIndices(s[1..], p, base + 1);
    if p(s[0]) {
      if k > 0 {
        KeptIndexAt(s[1..], p, base + 1, k - 1);
        assert idx[k] == rest[k - 1];
      }
    } else {
      KeptIndexAt(s[1..], p, base + 1, k);
      assert idx[k] == rest[k];
    }
  }

  /** Recorded positions grow with their rank. */
  lemma {:induction false} KeptIndicesIncrease<T>(s: seq<T>, p: T -> bool, base: nat, j: nat, k: nat)
    requires j < k < |KeptIndices(s, p, base)|
    ensures KeptIndices(s, p, base)[j] < KeptIndices(s, p, base)[k]
  {
    var idx, rest := KeptIndices(s, p, base), KeptIndices(s[1..], p, base + 1);
    if p(s[0]) {
      KeptIndexAt(s[1..], p, base + 1, k - 1);
      if j > 0 {
        KeptIndicesIncrease(s[1..], p, base + 1, j - 1, k - 1);
      }
    } else {
      KeptIndicesIncrease(s[1..], p, base + 1, j, k);
    }
  }

  /** A passing element's position is recorded. */
  lemma {:induction false} KeptIndexOf<T>(s: seq<T>, p: T -> bool, base: nat, i: nat)
    requires i < |s| && p(s[i])
    ensures base + i in KeptIndices(s, p, base)
  {
    if i > 0 {
      assert s[1..][i - 1] == s[i];
      KeptIndexOf(s[1..], p, base + 1, i - 1);
    }
  }

  /** A passing element is kept, at a rank whose recorded position is its own. */
  lemma {:induction false} KeptRank<T>(s: seq<T>, p: T -> bool, base: nat, i: nat) returns (k: nat)
    requires i < |s| && p(s[i])
    ensures k < |KeptIndices(s, p, base)| && KeptIndices(s, p, base)[k] == base + i
    ensures Keep(s, p)[k] == s[i]
  {
    if i == 0 {
      k := 0;
    } else {
      assert s[1..][i - 1] == s[i];
      var k' := KeptRank(s[1..], p, base + 1, i - 1);
      k := if p(s[0]) then k' + 1 else k';
    }
  }

  /**
    `Keep(s, p)` is the order-preserving subsequence of the passing elements:
    `KeptIndices(s, p, 0)` enumerates, in strictly increasing order, exactly
    the positions whose elements pass, and `Keep(s, p)[k]` is the element at
    the `k`-th of them.
   */
  lemma {:induction false} KeepIsSubsequence<T>(s: seq<T>, p: T -> bool)
    ensures forall k :: 0 <= k < |KeptIndices(s, p, 0)| ==>
      KeptIndices(s, p, 0)[k] < |s| && Keep(s, p)[k] == s[KeptIndices(s, p, 0)[k]]
    ensures forall j, k :: 0 <= j < k < |KeptIndices(s, p, 0)| ==>
      KeptIndices(s, p, 0)[j] < KeptIndices(s, p, 0)[k]
    ensures forall i :: 0 <= i < |s| ==> (p(s[i]) <==> i in KeptIndices(s, p, 0))
  {
    var idx := KeptIndices(s, p, 0);
    forall k | 0 <= k < |idx|
      ensures idx[k] < |s| && Keep(s, p)[k] == s[idx[k]]
    {
      KeptIndexAt(s, p, 0, k);
    }
    forall j, k | 0 <= j < k < |idx|
      ensures idx[j] < idx[k]
    {
      KeptIndicesIncrease(s, p, 0, j, k);
    }
    forall i | 0 <= i < |s|
      ensures p(s[i]) <==> i in idx
    {
      if p(s[i]) {
        KeptIndexOf(s, p, 0, i);
      }
      if i in idx {
        var k :| 0 <= k < |idx| && idx[k] == i;
        KeptIndexAt(s, p, 0, k);
        assert Keep(s, p)[k] == s[i];
      }
    }
  }

  /** When every element passes, nothing is dropped. */
  lemma {:induction false} KeepAll<T>(s: seq<T>, p: T -> bool)
    requires forall i :: 0 <= i < |s| ==> p(s[i])
    ensures Keep(s, p) == s
  {
    if |s| > 0 {
      KeepAll(s[1..], p);
      assert s == [s[0]] + s[1..];
    }
  }

  /** When no element passes, the result is empty. */
  lemma {:induction false} KeepNone<T>(s: seq<T>, p: T -> bool)
    requires forall i :: 0 <= i < |s| ==> !p(s[i])
    ensures Keep(s, p) == []
  {
    if |s| > 0 {
      KeepNone(s[1..], p);
    }
  }
}
