/** Generic facts about sequences used by the pipeline: the positions a
    filter keeps, flattening, and the subsequence order. */
module Seqs {

  /** The indices `i < n` with `marks[i]`, in increasing order: the
      positions a filter over a sequence keeps among its first `n` entries. */
  function PositionsBelow(marks: seq<bool>, n: nat): (r: seq<nat>)
    requires n <= |marks|
    ensures forall j :: 0 <= j < |r| ==> r[j] < n && marks[r[j]]
    ensures forall j, k :: 0 <= j < k < |r| ==> r[j] < r[k]
  {
    if n == 0 then []
    else PositionsBelow(marks, n - 1) + (if marks[n - 1] then [n - 1] else [])
  }

  /** No marked index is missed. */
  lemma {:induction false} PositionsComplete(marks: seq<bool>, n: nat, i: nat)
    requires i < n <= |marks| && marks[i]
    ensures i in PositionsBelow(marks, n)
  {
    if i < n - 1 {
      PositionsComplete(marks, n - 1, i);
    }
  }

  /** There are as many positions as there are `true` marks. */
  lemma {:induction false} PositionsCount(marks: seq<bool>, n: nat)
    requires n <= |marks|
    ensures |PositionsBelow(marks, n)| == multiset(marks[..n])[true]
  {
    if n > 0 {
      PositionsCount(marks, n - 1);
      assert marks[..n] == marks[..n - 1] + [marks[n - 1]];
    }
  }

  /** All the sequences of `xss`, one after another. */
  function Concat<T>(xss: seq<seq<T>>): seq<T>
  {
    if xss == [] then [] else Concat(xss[..|xss| - 1]) + xss[|xss| - 1]
  }

  /** `idx` lists, in increasing order, positions of `b` that spell out `a`. */
  ghost predicate Embedding<T>(idx: seq<int>, a: seq<T>, b: seq<T>) {
    && |idx| == |a|
    && (forall k :: 0 <= k < |idx| ==> 0 <= idx[k] < |b| && a[k] == b[idx[k]])
    && (forall j, k :: 0 <= j < k < |idx| ==> idx[j] < idx[k])
  }

  /** `a` can be obtained from `b` by deleting elements. */
  ghost predicate IsSubseq<T>(a: seq<T>, b: seq<T>) {
    exists idx :: Embedding(idx, a, b)
  }

  lemma {:induction false} SubseqEmpty<T>(b: seq<T>)
    ensures IsSubseq([], b)
  {
    assert Embedding([], [], b);
  }

  /** A suffix of `s` starting further in has fewer subsequences. */
  lemma {:induction false} SubseqSuffix<T>(a: seq<T>, s: seq<T>, i: nat, j: nat)
    requires i <= j <= |s|
    requires IsSubseq(a, s[j..])
    ensures IsSubseq(a, s[i..])
  {
    var idx :| Embedding(idx, a, s[j..]);
    var shifted := seq(|idx|, k requires 0 <= k < |idx| => idx[k] + (j - i));
    assert Embedding(shifted, a, s[i..]);
  }

  /** Keeping the first element of a suffix. */
  lemma {:induction false} SubseqCons<T>(s: seq<T>, i: nat, a: seq<T>)
    requires i < |s|
    requires IsSubseq(a, s[i + 1..])
    ensures IsSubseq([s[i]] + a, s[i..])
  {
    var idx :| Embedding(idx, a, s[i + 1..]);
    var e := [0] + seq(|idx|, k requires 0 <= k < |idx| => idx[k] + 1);
    assert Embedding(e, [s[i]] + a, s[i..]);
  }

  /** Keeping a whole slice in front of a subsequence of what follows it. */
  lemma {:induction false} SubseqSliceCons<T>(s: seq<T>, i: nat, j: nat, a: seq<T>)
    requires i <= j <= |s|
    requires IsSubseq(a, s[j..])
    ensures IsSubseq(s[i..j] + a, s[i..])
  {
    var idx :| Embedding(idx, a, s[j..]);
    var e := seq(j - i, k => k) + seq(|idx|, k requires 0 <= k < |idx| => idx[k] + (j - i));
    assert Embedding(e, s[i..j] + a, s[i..]);
  }

  lemma {:induction false} SubseqTrans<T>(a: seq<T>, b: seq<T>, c: seq<T>)
    requires IsSubseq(a, b) && IsSubseq(b, c)
    ensures IsSubseq(a, c)
  {
    var f :| Embedding(f, a, b);
    var g :| Embedding(g, b, c);
    var e := seq(|f|, k requires 0 <= k < |f| => g[f[k]]);
    assert Embedding(e, a, c);
  }

  /** Every contiguous slice is a subsequence. */
  lemma {:induction false} SubseqSlice<T>(s: seq<T>, i: nat, j: nat)
    requires i <= j <= |s|
    ensures IsSubseq(s[i..j], s)
  {
    var e := seq(j - i, k => k + i);
    assert Embedding(e, s[i..j], s);
  }

  /** A subsequence draws its elements from the larger sequence. */
  lemma {:induction false} SubseqElems<T>(a: seq<T>, b: seq<T>)
    requires IsSubseq(a, b)
    ensures forall k :: 0 <= k < |a| ==> a[k] in b
  {
    var idx :| Embedding(idx, a, b);
  }

  /** Cutting a suffix in two. */
  lemma SliceSplit<T>(s: seq<T>, i: nat, j: nat)
    requires i <= j <= |s|
    ensures s[i..] == s[i..j] + s[j..]
  {
  }

  /** A common prefix can be cancelled. */
  lemma {:induction false} AppendCancel<T>(x: seq<T>, y: seq<T>, z: seq<T>)
    ensures x + y == x + z <==> y == z
  {
    if x + y == x + z {
      assert (x + y)[|x|..] == y;
      assert (x + z)[|x|..] == z;
    }
  }

  /** A common suffix can be cancelled. */
  lemma {:induction false} AppendCancelRight<T>(x: seq<T>, y: seq<T>, z: seq<T>)
    requires x + z == y + z
    ensures x == y
  {
    assert x == (x + z)[..|x|];
    assert y == (y + z)[..|y|];
  }

  /** Two adjacent slices, then a tail, make the joined slice and the tail. */
  lemma {:induction false} SliceAppend<T>(s: seq<T>, i: nat, m: nat, j: nat, t: seq<T>)
    requires i <= m <= j <= |s|
    ensures s[i..m] + (s[m..j] + t) == s[i..j] + t
  {
    assert s[i..m] + s[m..j] == s[i..j];
  }

  /** An element, then the slice after it, then a tail. */
  lemma {:induction false} ConsSlice<T>(s: seq<T>, i: nat, j: nat, t: seq<T>)
    requires i < j <= |s|
    ensures [s[i]] + (s[i + 1..j] + t) == s[i..j] + t
  {
    assert [s[i]] + s[i + 1..j] == s[i..j];
  }
}
