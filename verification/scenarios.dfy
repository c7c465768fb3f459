/** Worked inputs that pin down behaviour the general lemmas leave open:
    cleaning is not idempotent, the last section of an article never becomes
    a chunk, and three line feeds in a row hide the heading after them. */
module Scenarios {
  import opened Wrappers
  import opened Strings
  import opened Delimited
  import opened Cleaner
  import opened Chunker

  /** An article that is a single import statement indented by one space:
      the statement survives the line pass (its line does not start with
      `import `), the final strip takes the space off, and a second cleaning
      removes it. */
  lemma {:induction false} IndentedImportSurvives(t: String)
    requires Occurs(t, ImportPrefix, 0) && '\n' !in t && '<' !in t
    requires !IsSpace(t[|t| - 1])
    ensures Clean([' '] + t) == t
    ensures Clean(t) == []
  {
    var s := [' '] + t;
    assert s[0] != ImportPrefix[0];
    assert '\n' !in s && '<' !in s;
    KeptLine(s);
    TagFree(s);
    StripIndented(t);
    DroppedLine(t);
  }

  /** Text without `<` is left alone by the tag pass. */
  lemma {:induction false} TagFree(s: String)
    requires '<' !in s
    ensures RemoveTags(s) == s
  {
    assert !HasTag(s) by {
      forall i, j ensures !TagAt(s, i, j) {
        if 0 <= i < |s| {
          assert s[i] in s;
        }
      }
    }
    RemoveTagsIdentity(s, 0);
    assert s[0..] == s;
  }

  /** One leading space is stripped off text that starts with the import
      prefix and ends in a non-space. */
  lemma {:induction false} StripIndented(t: String)
    requires Occurs(t, ImportPrefix, 0) && !IsSpace(t[|t| - 1])
    ensures Strip([' '] + t) == t
  {
    var s := [' '] + t;
    assert s[1..] == t;
    assert !IsSpace(s[1]) by {
      assert s[1] == t[0] == ImportPrefix[0];
    }
    StripUnique(s, 1, |s|);
  }

  /** Cleaning is not idempotent: ` import x` cleans to `import x`, which
      cleans to the empty text. */
  lemma {:induction false} CleanNotIdempotent()
    ensures exists s :: Clean(Clean(s)) != Clean(s)
  {
    var t := "import x";
    assert Occurs(t, ImportPrefix, 0);
    IndentedImportSurvives(t);
    assert Clean(Clean([' '] + t)) != Clean([' '] + t);
  }

  /** A single line that is not an import statement passes the line pass. */
  lemma {:induction false} KeptLine(s: String)
    requires 0 < |s| && '\n' !in s && !Occurs(s, ImportPrefix, 0)
    ensures RemoveImports(s) == s
  {
    SingleLine(s);
    assert RemoveImportsFrom(s, |s|) == [];
    assert s[0..|s|] == s;
  }

  /** A single import line is removed whole. */
  lemma {:induction false} DroppedLine(s: String)
    requires '\n' !in s && Occurs(s, ImportPrefix, 0)
    ensures Clean(s) == []
  {
    SingleLine(s);
    assert RemoveImportsFrom(s, |s|) == [];
    assert RemoveImports(s) == [];
  }

  /** Text without a line feed is a single line. */
  lemma {:induction false} SingleLine(s: String)
    requires 0 < |s| && '\n' !in s
    ensures LineAfter(s, 0) == |s|
  {
  }

  /** An article that is one heading and its text gives a single, empty
      chunk: the heading emits what came before it, and its own section is
      never emitted. */
  lemma {:induction false} SingleSectionLost(heading: String, text: String)
    requires IsHeading(heading) && !IsHeading(text)
    ensures Sections([heading, text]) == [[]]
  {
    var ps := [heading, text];
    assert SectionsBelow(ps, 1) == [[]];
  }

  /** A cleaned article that is a single heading paragraph (no blank line in
      it) gives one empty chunk: its whole text is lost. */
  lemma {:induction false} HeadingOnlyArticleLost(body: String)
    requires IsHeading(body)
    requires forall i :: !Occurs(body, ParagraphBreak, i)
    ensures Sections(Split(body, ParagraphBreak)) == [[]]
  {
    FindLeftmost(body, ParagraphBreak, 0);
    assert Split(body, ParagraphBreak) == [body[0..]];
    assert body[0..] == body;
    assert SectionsBelow([body], 1) == [[]];
  }

  /** Three line feeds in a row hide the heading after them: the split cuts
      the first two, so the next paragraph starts with a line feed rather
      than `#`, and no chunk is emitted. */
  lemma {:induction false} TripleBreakHidesHeading(a: String, h: String)
    requires '\n' !in a && '\n' !in h && !IsHeading(a)
    ensures Split(a + "\n\n\n" + h, ParagraphBreak) == [a, "\n" + h]
    ensures Sections(Split(a + "\n\n\n" + h, ParagraphBreak)) == []
  {
    assert a + "\n\n\n" + h == a + (ParagraphBreak + ("\n" + h));
    TripleBreakSplit(a, h);
    var ps := [a, "\n" + h];
    assert !IsHeading(ps[0]) && !IsHeading(ps[1]);
    assert SectionsBelow(ps, 1) == [];
    assert SectionsBelow(ps, 2) == [];
  }

  /** The split of `a`, two line feeds, then a line feed and `h`. */
  lemma {:induction false} TripleBreakSplit(a: String, h: String)
    requires '\n' !in a && '\n' !in h
    ensures Split(a + (ParagraphBreak + ("\n" + h)), ParagraphBreak) == [a, "\n" + h]
  {
    var tail := "\n" + h;
    var s := a + (ParagraphBreak + tail);
    var n := |a|;
    FirstBreak(a, tail);
    NoBreakAfter(a, h);
    assert s[..n] == a && s[n + 2..] == tail;
    SplitStep(s, ParagraphBreak, 0, n);
  }

  /** With no line feed in `a`, the first `\n\n` is the one right after it. */
  lemma {:induction false} FirstBreak(a: String, tail: String)
    requires '\n' !in a
    ensures FindFrom(a + (ParagraphBreak + tail), ParagraphBreak, 0) == Some(|a|)
  {
    var s := a + (ParagraphBreak + tail);
    assert ParagraphBreak[0] == '\n' && ParagraphBreak[1] == '\n';
    forall q | 0 <= q < |a| ensures !Occurs(s, ParagraphBreak, q) {
      assert s[q] == a[q] && a[q] in a;
    }
    assert Occurs(s, ParagraphBreak, |a|);
    FindFirst(s, ParagraphBreak, 0, |a|);
  }

  /** After the first two line feeds, one more and `h` hold no `\n\n`. */
  lemma {:induction false} NoBreakAfter(a: String, h: String)
    requires '\n' !in h
    ensures FindFrom(a + (ParagraphBreak + ("\n" + h)), ParagraphBreak, |a| + 2).None?
  {
    var s := a + (ParagraphBreak + ("\n" + h));
    var n := |a|;
    assert ParagraphBreak[0] == '\n' && ParagraphBreak[1] == '\n';
    FindLeftmost(s, ParagraphBreak, n + 2);
    forall q | n + 2 <= q ensures !Occurs(s, ParagraphBreak, q) {
      if q == n + 2 && q + 1 < |s| {
        assert s[q + 1] == h[0] && h[0] in h;
      } else if n + 2 < q < |s| {
        assert s[q] == h[q - n - 3] && h[q - n - 3] in h;
      }
    }
  }
}
