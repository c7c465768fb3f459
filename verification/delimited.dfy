/** Python's `str.split(sep)` and `sep.join(parts)` for a non-empty separator:
    the string is scanned left to right and cut at each occurrence of `sep`
    that does not overlap an occurrence already cut. */
module Delimited {
  import opened Wrappers
  import opened Strings

  /** `sep` occurs in `s` starting at index `i`. */
  predicate Occurs(s: String, sep: String, i: int) {
    0 <= i && i + |sep| <= |s| && forall k :: 0 <= k < |sep| ==> s[i + k] == sep[k]
  }

  /** Two occurrences of `sep` in `s` that do not overlap. */
  ghost predicate OccursTwice(s: String, sep: String) {
    exists a, b :: Occurs(s, sep, a) && Occurs(s, sep, b) && a + |sep| <= b
  }

  lemma OccursSlice(s: String, sep: String, i: nat)
    requires Occurs(s, sep, i)
    ensures s[i..i + |sep|] == sep
  {
  }

  /** `s.find(sep, k)`: the first index at or after `k` where `sep` occurs,
      with None for Python's -1. */
  function FindFrom(s: String, sep: String, k: nat): (r: Option<nat>)
    ensures r.Some? ==> k <= r.value && r.value + |sep| <= |s|
    decreases |s| - k
  {
    if |s| < k + |sep| then None
    else if Occurs(s, sep, k) then Some(k)
    else FindFrom(s, sep, k + 1)
  }

  /** FindFrom returns the leftmost occurrence from `k` on, and None only when
      there is none. */
  lemma {:induction false} FindLeftmost(s: String, sep: String, k: nat)
    ensures FindFrom(s, sep, k).None? ==> forall i :: k <= i ==> !Occurs(s, sep, i)
    ensures FindFrom(s, sep, k).Some? ==> Occurs(s, sep, FindFrom(s, sep, k).value)
    ensures FindFrom(s, sep, k).Some? ==>
              forall i :: k <= i < FindFrom(s, sep, k).value ==> !Occurs(s, sep, i)
    decreases |s| - k
  {
    if |s| < k + |sep| {
    } else if Occurs(s, sep, k) {
    } else {
      FindLeftmost(s, sep, k + 1);
    }
  }

  /** The total length of the parts. */
  function TotalLength(parts: seq<String>): nat {
    if |parts| == 0 then 0 else |parts[0]| + TotalLength(parts[1..])
  }

  /** `sep.join(parts)`: every part, with one separator between each two. */
  function Join(parts: seq<String>, sep: String): (r: String)
    ensures |parts| > 0 ==> |r| == TotalLength(parts) + (|parts| - 1) * |sep|
  {
    if |parts| == 0 then []
    else if |parts| == 1 then parts[0]
    else parts[0] + sep + Join(parts[1..], sep)
  }

  lemma JoinCons(p: String, rest: seq<String>, sep: String)
    requires |rest| >= 1
    ensures Join([p] + rest, sep) == p + sep + Join(rest, sep)
  {
    assert ([p] + rest)[1..] == rest;
  }

  /** The pieces of `s[k..]` between the occurrences of `sep`. */
  function SplitFrom(s: String, sep: String, k: nat): (parts: seq<String>)
    requires |sep| > 0 && k <= |s|
    ensures |parts| >= 1
    decreases |s| - k
  {
    match FindFrom(s, sep, k)
    case None => [s[k..]]
    case Some(i) => [s[k..i]] + SplitFrom(s, sep, i + |sep|)
  }

  /** `s.split(sep)`. */
  function Split(s: String, sep: String): (parts: seq<String>)
    requires |sep| > 0
    ensures |parts| >= 1
  {
    SplitFrom(s, sep, 0)
  }

  /** No piece of a split contains the separator. */
  lemma {:induction false} SplitPiecesFree(s: String, sep: String, k: nat)
    requires |sep| > 0 && k <= |s|
    ensures forall m, i :: 0 <= m < |SplitFrom(s, sep, k)| ==> !Occurs(SplitFrom(s, sep, k)[m], sep, i)
    decreases |s| - k
  {
    FindLeftmost(s, sep, k);
    var parts := SplitFrom(s, sep, k);
    match FindFrom(s, sep, k)
    case None =>
      forall i | Occurs(s[k..], sep, i) ensures Occurs(s, sep, k + i) {
        forall q | 0 <= q < |sep| ensures s[k + i + q] == sep[q] {
          assert s[k..][i + q] == sep[q];
        }
      }
    case Some(j) =>
      var rest := SplitFrom(s, sep, j + |sep|);
      SplitPiecesFree(s, sep, j + |sep|);
      forall i | Occurs(s[k..j], sep, i) ensures Occurs(s, sep, k + i) {
        forall q | 0 <= q < |sep| ensures s[k + i + q] == sep[q] {
          assert s[k..j][i + q] == sep[q];
        }
      }
      forall m | 1 <= m < |parts| ensures parts[m] == rest[m - 1] {
      }
  }

  /** Joining the pieces with the separator gives back the string. */
  lemma {:induction false} JoinSplit(s: String, sep: String, k: nat)
    requires |sep| > 0 && k <= |s|
    ensures Join(SplitFrom(s, sep, k), sep) == s[k..]
    decreases |s| - k
  {
    FindLeftmost(s, sep, k);
    match FindFrom(s, sep, k)
    case None =>
    case Some(i) =>
      JoinSplit(s, sep, i + |sep|);
      JoinCons(s[k..i], SplitFrom(s, sep, i + |sep|), sep);
      OccursSlice(s, sep, i);
      assert s[k..] == s[k..i] + s[i..i + |sep|] + s[i + |sep|..];
  }

  /** A split has at least three pieces exactly when `sep` occurs twice
      without overlap. */
  lemma {:induction false} SplitThreePieces(s: String, sep: String)
    requires |sep| > 0
    ensures |Split(s, sep)| >= 3 <==> OccursTwice(s, sep)
  {
    FindLeftmost(s, sep, 0);
    match FindFrom(s, sep, 0)
    case None =>
    case Some(i) =>
      FindLeftmost(s, sep, i + |sep|);
      assert |Split(s, sep)| == 1 + |SplitFrom(s, sep, i + |sep|)|;
      match FindFrom(s, sep, i + |sep|)
      case None =>
        assert |SplitFrom(s, sep, i + |sep|)| == 1;
      case Some(j) =>
        assert |SplitFrom(s, sep, i + |sep|)| >= 2;
        assert Occurs(s, sep, i) && Occurs(s, sep, j);
  }

  /** An occurrence with none before it (from `k` on) is the one found. */
  lemma {:induction false} FindFirst(s: String, sep: String, k: nat, i: int)
    requires k <= i && Occurs(s, sep, i)
    requires forall q :: k <= q < i ==> !Occurs(s, sep, q)
    ensures FindFrom(s, sep, k) == Some(i)
  {
    FindLeftmost(s, sep, k);
  }

  /** The first three pieces of a split in terms of the first two
      occurrences found: the text before the first, the text between the two,
      and (once re-joined) all text after the second. */
  lemma {:induction false} SplitFirstTwo(s: String, sep: String, i: nat, j: nat)
    requires |sep| > 0
    requires FindFrom(s, sep, 0) == Some(i)
    requires FindFrom(s, sep, i + |sep|) == Some(j)
    ensures |Split(s, sep)| >= 3
    ensures Split(s, sep)[0] == s[..i]
    ensures Split(s, sep)[1] == s[i + |sep|..j]
    ensures Join(Split(s, sep)[2..], sep) == s[j + |sep|..]
  {
    SplitPrefix(s, sep, i, j);
    var rest := SplitFrom(s, sep, j + |sep|);
    DropTwo(s[..i], s[i + |sep|..j], rest, Split(s, sep));
    JoinSplit(s, sep, j + |sep|);
    JoinEqual(Split(s, sep)[2..], rest, sep);
  }

  /** Proof-speed helper: states congruence so the solver need not find it. */
  lemma JoinEqual(a: seq<String>, b: seq<String>, sep: String)
    requires a == b
    ensures Join(a, sep) == Join(b, sep)
  {
  }

  lemma {:induction false} SplitPrefix(s: String, sep: String, i: nat, j: nat)
    requires |sep| > 0
    requires FindFrom(s, sep, 0) == Some(i)
    requires FindFrom(s, sep, i + |sep|) == Some(j)
    ensures Split(s, sep) == [s[..i]] + ([s[i + |sep|..j]] + SplitFrom(s, sep, j + |sep|))
  {
    SplitStep(s, sep, 0, i);
    SplitStep(s, sep, i + |sep|, j);
  }

  /** Proof-speed helper: reads the first two elements off a concatenation. */
  lemma DropTwo<T>(a: T, b: T, rest: seq<T>, x: seq<T>)
    requires x == [a] + ([b] + rest)
    ensures |x| >= 2 && x[0] == a && x[1] == b && x[2..] == rest
  {
  }

  /** One cut of a split. */
  lemma SplitStep(s: String, sep: String, k: nat, i: nat)
    requires |sep| > 0 && k <= |s|
    requires FindFrom(s, sep, k) == Some(i)
    ensures SplitFrom(s, sep, k) == [s[k..i]] + SplitFrom(s, sep, i + |sep|)
  {
  }
}
