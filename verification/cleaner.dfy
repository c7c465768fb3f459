/** Cleaning an article body before it is chunked (`clean_article_content`):
    the two regular-expression substitutions and the final strip. */
module Cleaner {
  import opened Strings
  import opened Seqs
  import opened Delimited

  // ---------------------------------------------------------------------
  // Import lines: `re.sub(r"^import .*\n?", "", s, flags=re.MULTILINE)`
  // ---------------------------------------------------------------------

  const ImportPrefix: String := "import "

  /** Index `p` begins a line of `s`: it is the start of the text or follows a
      line feed (what `^` matches in multi-line mode). */
  predicate LineStart(s: String, p: int) {
    0 <= p <= |s| && (p == 0 || s[p - 1] == '\n')
  }

  /** The line starting at `p` is an import statement. */
  predicate ImportLineAt(s: String, p: int) {
    LineStart(s, p) && Occurs(s, ImportPrefix, p)
  }

  /** Some line starting at or after `p` is an import statement. */
  ghost predicate HasImportLineFrom(s: String, p: int) {
    exists q :: p <= q && ImportLineAt(s, q)
  }

  ghost predicate HasImportLine(s: String) {
    HasImportLineFrom(s, 0)
  }

  /** Where the line starting at `p` ends, its line feed included: `.*`
      stops before the first line feed and `\n?` takes it when present. */
  function LineAfter(s: String, p: nat): (next: nat)
    requires p < |s|
    ensures p < next <= |s|
    ensures forall m :: p <= m < next - 1 ==> s[m] != '\n'
    ensures next < |s| ==> s[next - 1] == '\n'
  {
    var e := NextFrom(s, '\n', p);
    if e < |s| then e + 1 else e
  }

  /** The substitution applied to the lines from `p` on, `p` being a line
      start: an import line disappears together with its line feed, every
      other line is kept as it is. */
  function RemoveImportsFrom(s: String, p: nat): (r: String)
    requires p <= |s|
    ensures |r| <= |s| - p
    decreases |s| - p
  {
    if p == |s| then []
    else
      var next := LineAfter(s, p);
      if Occurs(s, ImportPrefix, p) then RemoveImportsFrom(s, next)
      else s[p..next] + RemoveImportsFrom(s, next)
  }

  function RemoveImports(s: String): (r: String)
    ensures |r| <= |s|
  {
    RemoveImportsFrom(s, 0)
  }

  /** A kept line is a subsequence of the original. */
  lemma {:induction false} RemoveImportsSubseq(s: String, p: nat)
    requires p <= |s|
    ensures IsSubseq(RemoveImportsFrom(s, p), s[p..])
    decreases |s| - p
  {
    if p == |s| {
      SubseqEmpty(s[p..]);
    } else {
      var next := LineAfter(s, p);
      var rest := RemoveImportsFrom(s, next);
      RemoveImportsSubseq(s, next);
      if Occurs(s, ImportPrefix, p) {
        SubseqSuffix(rest, s, p, next);
      } else {
        SubseqSliceCons(s, p, next, rest);
      }
    }
  }

  /** Between a line start and the end of its line there is no other line
      start, so lines from `p` on are import lines exactly when `p` is or
      some line from the next one on is. */
  lemma {:induction false} ImportLinesAfter(s: String, p: nat)
    requires p < |s| && LineStart(s, p)
    ensures HasImportLineFrom(s, p) <==>
              ImportLineAt(s, p) || HasImportLineFrom(s, LineAfter(s, p))
  {
    var next := LineAfter(s, p);
    if HasImportLineFrom(s, p) {
      var q :| p <= q && ImportLineAt(s, q);
      assert q == p || next <= q;
    }
  }

  /** The substitution leaves the text alone exactly when it holds no import
      line. */
  lemma {:induction false} RemoveImportsIdentity(s: String, p: nat)
    requires p == |s| || LineStart(s, p)
    ensures RemoveImportsFrom(s, p) == s[p..] <==> !HasImportLineFrom(s, p)
    decreases |s| - p
  {
    if p == |s| {
    } else {
      var next := LineAfter(s, p);
      var rest := RemoveImportsFrom(s, next);
      RemoveImportsIdentity(s, next);
      ImportLinesAfter(s, p);
      if Occurs(s, ImportPrefix, p) {
        assert |rest| < |s[p..]|;
      } else {
        SliceSplit(s, p, next);
        AppendCancel(s[p..next], rest, s[next..]);
      }
    }
  }

  /** An import line of `a + b` that starts inside `b` (after a line feed
      that ends `a`, when it starts right at `b`) is an import line of `b`. */
  lemma {:induction false} ImportLineShift(a: String, b: String, q: int)
    requires |a| <= q && ImportLineAt(a + b, q)
    requires q == |a| && a != [] ==> a[|a| - 1] == '\n'
    ensures ImportLineAt(b, q - |a|)
  {
    var ab := a + b;
    forall k | 0 <= k < |ImportPrefix| ensures b[q - |a| + k] == ImportPrefix[k] {
      assert ab[q + k] == b[q - |a| + k];
    }
    if q > |a| {
      assert ab[q - 1] == b[q - |a| - 1];
    }
  }

  /** A line that is kept cannot combine with what follows it into an import
      line: it does not start with the import prefix, and it ends with its
      line feed unless nothing follows. */
  lemma {:induction false} KeptLineNoImport(line: String, rest: String)
    requires line != [] && !Occurs(line, ImportPrefix, 0)
    requires forall m :: 0 <= m < |line| - 1 ==> line[m] != '\n'
    requires line[|line| - 1] == '\n' || rest == []
    requires !HasImportLine(rest)
    ensures !HasImportLine(line + rest)
  {
    var r := line + rest;
    forall q | 0 <= q ensures !ImportLineAt(r, q) {
      if q == 0 {
        if |line| >= |ImportPrefix| {
          var k :| 0 <= k < |ImportPrefix| && line[k] != ImportPrefix[k];
          assert r[k] == line[k];
        } else if rest != [] {
          assert r[|line| - 1] == '\n' && ImportPrefix[|line| - 1] != '\n';
        }
      } else if q < |line| {
        assert r[q - 1] == line[q - 1];
      } else if ImportLineAt(r, q) {
        ImportLineShift(line, rest, q);
      }
    }
  }

  /** No import line is left after the substitution. */
  lemma {:induction false} RemoveImportsComplete(s: String, p: nat)
    requires p <= |s|
    ensures !HasImportLine(RemoveImportsFrom(s, p))
    decreases |s| - p
  {
    if p < |s| {
      var next := LineAfter(s, p);
      RemoveImportsComplete(s, next);
      if !Occurs(s, ImportPrefix, p) {
        var line := s[p..next];
        if next - p >= |ImportPrefix| {
          var k :| 0 <= k < |ImportPrefix| && s[p + k] != ImportPrefix[k];
          assert line[k] == s[p + k];
        }
        KeptLineNoImport(line, RemoveImportsFrom(s, next));
      }
    }
  }

  /** No line starting in `[p, q)` is an import line. */
  ghost predicate NoImportLineIn(s: String, p: int, q: int) {
    forall m :: p <= m < q ==> !ImportLineAt(s, m)
  }

  /** Everything before the first import line is kept as it is: the pass
      copies the lines from `p` up to the first import line at `q`, drops
      that line, and carries on after it. */
  lemma {:induction false} RemoveImportsKeepsUpTo(s: String, p: nat, q: nat)
    requires LineStart(s, p) && p <= q && ImportLineAt(s, q)
    requires NoImportLineIn(s, p, q)
    ensures RemoveImportsFrom(s, p) == s[p..q] + RemoveImportsFrom(s, LineAfter(s, q))
    decreases q - p
  {
    if p < q {
      var next := LineAfter(s, p);
      KeptLineStep(s, p, q);
      RemoveImportsKeepsUpTo(s, next, q);
      SliceAppend(s, p, next, q, RemoveImportsFrom(s, LineAfter(s, q)));
    } else {
      DroppedLineStep(s, q);
    }
  }

  /** An import line is dropped whole, its line feed included. */
  lemma {:induction false} DroppedLineStep(s: String, q: nat)
    requires ImportLineAt(s, q)
    ensures RemoveImportsFrom(s, q) == s[q..q] + RemoveImportsFrom(s, LineAfter(s, q))
  {
    assert s[q..q] == [];
  }

  /** A line that starts before the first import line is copied, and the
      next line still starts no later than that import line. */
  lemma {:induction false} KeptLineStep(s: String, p: nat, q: nat)
    requires LineStart(s, p) && p < q && ImportLineAt(s, q)
    requires NoImportLineIn(s, p, q)
    ensures LineAfter(s, p) <= q && LineStart(s, LineAfter(s, p))
    ensures NoImportLineIn(s, LineAfter(s, p), q)
    ensures RemoveImportsFrom(s, p) == s[p..LineAfter(s, p)] + RemoveImportsFrom(s, LineAfter(s, p))
  {
    assert !ImportLineAt(s, p);
    assert s[q - 1] == '\n';
  }

  // ---------------------------------------------------------------------
  // Markup tags: `re.sub(r"<[^>]+>", "", s)`
  // ---------------------------------------------------------------------

  /** `s[i..j + 1]` is a match of the tag pattern: `<`, at least one
      character other than `>`, then the first `>`. */
  predicate TagAt(s: String, i: int, j: int) {
    && 0 <= i && i + 2 <= j < |s|
    && s[i] == '<' && s[j] == '>'
    && forall m :: i < m < j ==> s[m] != '>'
  }

  /** Some tag starts at or after `p`. */
  ghost predicate HasTagFrom(s: String, p: int) {
    exists i, j :: p <= i && TagAt(s, i, j)
  }

  ghost predicate HasTag(s: String) {
    HasTagFrom(s, 0)
  }

  /** The substitution applied from `p` on: a tag starting at `p` is dropped
      and the scan resumes after it; any other character is kept. */
  function RemoveTagsFrom(s: String, p: nat): (r: String)
    requires p <= |s|
    ensures |r| <= |s| - p
    decreases |s| - p
  {
    if p == |s| then []
    else
      var k := NextFrom(s, '>', p + 1);
      if s[p] == '<' && p + 2 <= k < |s| then RemoveTagsFrom(s, k + 1)
      else [s[p]] + RemoveTagsFrom(s, p + 1)
  }

  function RemoveTags(s: String): (r: String)
    ensures |r| <= |s|
  {
    RemoveTagsFrom(s, 0)
  }

  /** The scan drops a match at `p` exactly when a tag starts at `p`. */
  lemma {:induction false} TagStartsAt(s: String, p: nat)
    requires p < |s|
    ensures (s[p] == '<' && p + 2 <= NextFrom(s, '>', p + 1) < |s|) <==>
              exists j :: TagAt(s, p, j)
  {
    var k := NextFrom(s, '>', p + 1);
    if s[p] == '<' && p + 2 <= k < |s| {
      assert TagAt(s, p, k);
    }
    if j :| TagAt(s, p, j) {
      assert k == j;
    }
  }

  /** The kept characters form a subsequence of the original. */
  lemma {:induction false} RemoveTagsSubseq(s: String, p: nat)
    requires p <= |s|
    ensures IsSubseq(RemoveTagsFrom(s, p), s[p..])
    decreases |s| - p
  {
    if p == |s| {
      SubseqEmpty(s[p..]);
    } else {
      var k := NextFrom(s, '>', p + 1);
      if s[p] == '<' && p + 2 <= k < |s| {
        RemoveTagsSubseq(s, k + 1);
        SubseqSuffix(RemoveTagsFrom(s, k + 1), s, p, k + 1);
      } else {
        RemoveTagsSubseq(s, p + 1);
        SubseqCons(s, p, RemoveTagsFrom(s, p + 1));
      }
    }
  }

  /** The substitution leaves the text alone exactly when it holds no tag. */
  lemma {:induction false} RemoveTagsIdentity(s: String, p: nat)
    requires p <= |s|
    ensures RemoveTagsFrom(s, p) == s[p..] <==> !HasTagFrom(s, p)
    decreases |s| - p
  {
    if p < |s| {
      TagStartsAt(s, p);
      var k := NextFrom(s, '>', p + 1);
      if s[p] == '<' && p + 2 <= k < |s| {
        assert TagAt(s, p, k);
        assert |RemoveTagsFrom(s, k + 1)| < |s[p..]|;
      } else {
        RemoveTagsIdentity(s, p + 1);
        var rest := RemoveTagsFrom(s, p + 1);
        assert HasTagFrom(s, p) <==> HasTagFrom(s, p + 1) by {
          if HasTagFrom(s, p) {
            var i, j :| p <= i && TagAt(s, i, j);
            assert i != p;
          }
        }
        SliceSplit(s, p, p + 1);
        assert s[p..p + 1] == [s[p]];
        AppendCancel([s[p]], rest, s[p + 1..]);
      }
    }
  }

  /** A tag of `[c] + t` that does not start at the front is a tag of `t`. */
  lemma {:induction false} TagShift(c: char, t: String, i: int, j: int)
    requires 1 <= i && TagAt([c] + t, i, j)
    ensures TagAt(t, i - 1, j - 1)
  {
    var ct := [c] + t;
    forall m | i - 1 < m < j - 1 ensures t[m] != '>' {
      assert ct[m + 1] == t[m];
    }
    assert ct[i] == t[i - 1] && ct[j] == t[j - 1];
  }

  /** No tag is left after the substitution: every `<` that survives is
      followed at once by `>`, or by no `>` at all. */
  lemma {:induction false} RemoveTagsComplete(s: String, p: nat)
    requires p <= |s|
    ensures !HasTag(RemoveTagsFrom(s, p))
    decreases |s| - p
  {
    if p < |s| {
      var k := NextFrom(s, '>', p + 1);
      if s[p] == '<' && p + 2 <= k < |s| {
        RemoveTagsComplete(s, k + 1);
      } else {
        var rest := RemoveTagsFrom(s, p + 1);
        var r := [s[p]] + rest;
        RemoveTagsComplete(s, p + 1);
        forall i, j ensures !TagAt(r, i, j) {
          if i == 0 && 2 <= j < |r| && s[p] == '<' {
            if k < |s| {
              assert rest[0] == '>';
              assert r[1] == '>';
            } else {
              RemoveTagsSubseq(s, p + 1);
              SubseqElems(rest, s[p + 1..]);
              assert r[j] == rest[j - 1];
              assert rest[j - 1] in s[p + 1..];
            }
          } else if 1 <= i && TagAt(r, i, j) {
            TagShift(s[p], rest, i, j);
          }
        }
      }
    }
  }

  /** Everything before the first tag is kept as it is: the pass copies
      the text from `p` up to the first tag `s[i..j + 1]`, drops the tag, and
      carries on after it. */
  lemma {:induction false} RemoveTagsKeepsUpTo(s: String, p: nat, i: nat, j: nat)
    requires p <= i && TagAt(s, i, j)
    requires forall q, j' :: p <= q < i ==> !TagAt(s, q, j')
    ensures RemoveTagsFrom(s, p) == s[p..i] + RemoveTagsFrom(s, j + 1)
    decreases i - p
  {
    if p < i {
      KeptCharStep(s, p);
      RemoveTagsKeepsUpTo(s, p + 1, i, j);
      ConsSlice(s, p, i, RemoveTagsFrom(s, j + 1));
    } else {
      DroppedTagStep(s, p, j);
    }
  }

  /** A character where no tag starts is copied. */
  lemma {:induction false} KeptCharStep(s: String, p: nat)
    requires p < |s| && forall j :: !TagAt(s, p, j)
    ensures RemoveTagsFrom(s, p) == [s[p]] + RemoveTagsFrom(s, p + 1)
  {
    TagStartsAt(s, p);
  }

  /** A tag is dropped whole. */
  lemma {:induction false} DroppedTagStep(s: String, i: nat, j: nat)
    requires TagAt(s, i, j)
    ensures RemoveTagsFrom(s, i) == RemoveTagsFrom(s, j + 1)
  {
    assert NextFrom(s, '>', i + 1) == j;
  }

  /** A slice of text without tags has no tags. */
  lemma {:induction false} NoTagSlice(s: String, a: nat, e: nat)
    requires a <= e <= |s| && !HasTag(s)
    ensures !HasTag(s[a..e])
  {
    forall i, j ensures !TagAt(s[a..e], i, j) {
      TagInSlice(s, a, e, i, j);
    }
  }

  /** A tag in a slice is a tag of the whole text. */
  lemma {:induction false} TagInSlice(s: String, a: nat, e: nat, i: int, j: int)
    requires a <= e <= |s|
    ensures TagAt(s[a..e], i, j) ==> TagAt(s, a + i, a + j)
  {
    var t := s[a..e];
    if TagAt(t, i, j) {
      forall m | a + i < m < a + j ensures s[m] != '>' {
        assert s[m] == t[m - a];
      }
    }
  }

  // ---------------------------------------------------------------------
  // The whole cleaning step
  // ---------------------------------------------------------------------

  /** `clean_article_content`: import lines out, then tags out, then strip.
      The result is drawn from the input in order, carries no tag and no
      surrounding whitespace, and for text with neither import lines nor
      tags it is just the stripped input. */
  function Clean(s: String): (r: String)
    ensures r == [] || (!IsSpace(r[0]) && !IsSpace(r[|r| - 1]))
    ensures IsSubseq(r, s)
    ensures !HasTag(r)
    ensures !HasImportLine(s) && !HasTag(s) ==> r == Strip(s)
  {
    CleanSubseq(s);
    CleanNoTag(s);
    CleanReference(s);
    Strip(RemoveTags(RemoveImports(s)))
  }

  lemma {:induction false} CleanSubseq(s: String)
    ensures IsSubseq(Strip(RemoveTags(RemoveImports(s))), s)
  {
    var noImports := RemoveImports(s);
    var noTags := RemoveTags(noImports);
    RemoveImportsSubseq(s, 0);
    RemoveTagsSubseq(noImports, 0);
    StripKeeps(noTags);
    assert s[0..] == s && noImports[0..] == noImports;
    SubseqTrans(noTags, noImports, s);
    SubseqTrans(Strip(noTags), noTags, s);
  }

  lemma {:induction false} CleanNoTag(s: String)
    ensures !HasTag(Strip(RemoveTags(RemoveImports(s))))
  {
    RemoveTagsComplete(RemoveImports(s), 0);
    StripKeeps(RemoveTags(RemoveImports(s)));
  }

  lemma {:induction false} CleanReference(s: String)
    ensures !HasImportLine(s) && !HasTag(s) ==> Strip(RemoveTags(RemoveImports(s))) == Strip(s)
  {
    RemoveImportsIdentity(s, 0);
    RemoveTagsIdentity(s, 0);
    assert s[0..] == s;
  }

  /** Strip keeps a slice: a subsequence, and tag-free if the text was. */
  lemma {:induction false} StripKeeps(t: String)
    ensures IsSubseq(Strip(t), t)
    ensures !HasTag(t) ==> !HasTag(Strip(t))
  {
    var r := Strip(t);
    var a :| StrippedAt(t, r, a);
    SubseqSlice(t, a, a + |r|);
    if !HasTag(t) {
      NoTagSlice(t, a, a + |r|);
    }
  }
}
