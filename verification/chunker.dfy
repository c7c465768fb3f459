/** Cutting a cleaned article into chunks at headings (`create_chunks`).
    The text is cut into paragraphs at every `\n\n`, scanned left to right,
    so a third line feed in a row starts the next paragraph. A paragraph that
    starts with `#` closes the chunk being built and opens the next one. The
    chunk still open when the paragraphs run out is never emitted. */
module Chunker {
  import opened Strings
  import opened Seqs
  import opened Delimited

  /** The separator between paragraphs: exactly two line feeds. */
  const ParagraphBreak: String := "\n\n"

  /** `p.startswith("#")`. */
  predicate IsHeading(p: String) {
    |p| > 0 && p[0] == '#'
  }

  function HeadingMarks(ps: seq<String>): (marks: seq<bool>)
    ensures |marks| == |ps|
    ensures forall i :: 0 <= i < |ps| ==> marks[i] == IsHeading(ps[i])
  {
    seq(|ps|, i requires 0 <= i < |ps| => IsHeading(ps[i]))
  }

  /** The indices of the heading paragraphs among the first `n`. */
  function HeadingsBelow(ps: seq<String>, n: nat): seq<nat>
    requires n <= |ps|
  {
    PositionsBelow(HeadingMarks(ps), n)
  }

  /** Paragraphs `a` to `b - 1`, each followed by a line feed. */
  function Accumulated(ps: seq<String>, a: nat, b: nat): String
    requires a <= b <= |ps|
    decreases b - a
  {
    if a == b then [] else Accumulated(ps, a, b - 1) + (ps[b - 1] + "\n")
  }

  /** Where the open chunk begins after `n` paragraphs: at the last heading
      among them, or at the start. */
  function OpenStart(ps: seq<String>, n: nat): (a: nat)
    requires n <= |ps|
    ensures a <= n
  {
    if n == 0 then 0
    else if IsHeading(ps[n - 1]) then n - 1
    else OpenStart(ps, n - 1)
  }

  /** The chunks emitted after the first `n` paragraphs: each heading emits
      the chunk open before it. */
  function SectionsBelow(ps: seq<String>, n: nat): seq<String>
    requires n <= |ps|
  {
    if n == 0 then []
    else if IsHeading(ps[n - 1]) then SectionsBelow(ps, n - 1) + [Accumulated(ps, OpenStart(ps, n - 1), n - 1)]
    else SectionsBelow(ps, n - 1)
  }

  /** The loop over the paragraphs written as a fold: one chunk per heading
      paragraph. `SectionsByHeadings` describes each chunk independently, in
      terms of the heading positions. */
  function Sections(ps: seq<String>): (r: seq<String>)
    ensures |r| == |HeadingsBelow(ps, |ps|)|
  {
    SectionsPerHeading(ps, |ps|);
    SectionsBelow(ps, |ps|)
  }

  /** Where section `k` begins in terms of the heading positions `h`: at the
      start for the first one, else at the heading that ends the one before. */
  function SectionStart(h: seq<nat>, k: nat): nat
    requires k <= |h|
  {
    if k == 0 then 0 else h[k - 1]
  }

  /** `create_chunks`, as written: the loop over the paragraphs with the
      chunk list and the open chunk. The result is the fold `Sections` of
      the paragraphs, which `SectionsByHeadings` describes independently, so
      there is one chunk per heading and every chunk after the first starts
      with its heading. */
  method CreateChunks(content: String) returns (chunks: seq<String>)
    ensures chunks == Sections(Split(content, ParagraphBreak))
    ensures |chunks| == multiset(HeadingMarks(Split(content, ParagraphBreak)))[true]
    ensures forall k :: 1 <= k < |chunks| ==> IsHeading(chunks[k])
  {
    var ps := Split(content, ParagraphBreak);
    chunks := [];
    var current: String := "";
    var i := 0;
    while i < |ps|
      invariant 0 <= i <= |ps|
      invariant chunks == SectionsBelow(ps, i)
      invariant current == Accumulated(ps, OpenStart(ps, i), i)
    {
      if IsHeading(ps[i]) {
        chunks := chunks + [current];
        current := ps[i] + "\n";
      } else {
        current := current + (ps[i] + "\n");
      }
      i := i + 1;
    }
    SectionCount(ps);
    LaterSectionsStartWithHeading(ps);
  }

  /** One chunk per heading so far, and the open chunk starts at the last
      heading. */
  lemma {:induction false} SectionsPerHeading(ps: seq<String>, n: nat)
    requires n <= |ps|
    ensures |SectionsBelow(ps, n)| == |HeadingsBelow(ps, n)|
    ensures OpenStart(ps, n) == SectionStart(HeadingsBelow(ps, n), |HeadingsBelow(ps, n)|)
  {
    if n > 0 {
      SectionsPerHeading(ps, n - 1);
      var h := HeadingsBelow(ps, n - 1);
      assert HeadingsBelow(ps, n) == h + (if IsHeading(ps[n - 1]) then [n - 1] else []);
    }
  }

  /** The chunks in terms of the heading positions: the chunk for heading `k`
      runs from the heading before it (or the start) up to, not including,
      heading `k`. */
  lemma {:induction false} SectionsByHeadings(ps: seq<String>, n: nat, k: nat)
    requires n <= |ps| && k < |HeadingsBelow(ps, n)|
    ensures |SectionsBelow(ps, n)| == |HeadingsBelow(ps, n)|
    ensures SectionsBelow(ps, n)[k]
            == Accumulated(ps, SectionStart(HeadingsBelow(ps, n), k), HeadingsBelow(ps, n)[k])
  {
    assert n > 0;
    SectionsPerHeading(ps, n);
    SectionsPerHeading(ps, n - 1);
    var h := HeadingsBelow(ps, n - 1);
    var h' := HeadingsBelow(ps, n);
    var before := SectionsBelow(ps, n - 1);
    var now := SectionsBelow(ps, n);
    assert h' == h + (if IsHeading(ps[n - 1]) then [n - 1] else []);
    assert now == before + (if IsHeading(ps[n - 1]) then [Accumulated(ps, OpenStart(ps, n - 1), n - 1)] else []);
    if k < |h| {
      SectionsByHeadings(ps, n - 1, k);
      assert SectionStart(h', k) == SectionStart(h, k) && h'[k] == h[k];
      assert now[k] == before[k];
    } else {
      assert h'[k] == n - 1 && SectionStart(h', k) == SectionStart(h, |h|);
    }
  }

  /** There are exactly as many chunks as heading paragraphs. */
  lemma {:induction false} SectionCount(ps: seq<String>)
    ensures |Sections(ps)| == multiset(HeadingMarks(ps))[true]
  {
    SectionsPerHeading(ps, |ps|);
    PositionsCount(HeadingMarks(ps), |ps|);
    assert HeadingMarks(ps)[..|ps|] == HeadingMarks(ps);
  }

  /** A non-empty run of paragraphs starts with its first paragraph and ends
      with a line feed. */
  lemma {:induction false} AccumulatedEnds(ps: seq<String>, a: nat, b: nat)
    requires a < b <= |ps|
    ensures |Accumulated(ps, a, b)| > |ps[a]|
    ensures Accumulated(ps, a, b)[..|ps[a]|] == ps[a]
    ensures Accumulated(ps, a, b)[|Accumulated(ps, a, b)| - 1] == '\n'
    decreases b - a
  {
    if b - 1 > a {
      AccumulatedEnds(ps, a, b - 1);
      var prev := Accumulated(ps, a, b - 1);
      assert Accumulated(ps, a, b)[..|ps[a]|] == prev[..|ps[a]|];
    } else {
      assert Accumulated(ps, a, b) == ps[a] + "\n";
    }
  }

  /** Every chunk after the first begins with the heading paragraph that
      opened it. */
  lemma {:induction false} LaterSectionsStartWithHeading(ps: seq<String>)
    ensures |Sections(ps)| == |HeadingsBelow(ps, |ps|)|
    ensures forall k :: 1 <= k < |Sections(ps)| ==> IsHeading(Sections(ps)[k])
    ensures forall k :: 1 <= k < |Sections(ps)| ==>
              var heading := ps[HeadingsBelow(ps, |ps|)[k - 1]];
              |heading| < |Sections(ps)[k]| && Sections(ps)[k][..|heading|] == heading
  {
    var h := HeadingsBelow(ps, |ps|);
    SectionsPerHeading(ps, |ps|);
    forall k | 1 <= k < |h|
      ensures IsHeading(Sections(ps)[k])
      ensures |ps[h[k - 1]]| < |Sections(ps)[k]| && Sections(ps)[k][..|ps[h[k - 1]]|] == ps[h[k - 1]]
    {
      SectionsByHeadings(ps, |ps|, k);
      AccumulatedEnds(ps, h[k - 1], h[k]);
      assert Sections(ps)[k][0] == ps[h[k - 1]][0];
    }
  }

  /** A chunk is empty only when it is the first one and the article opens
      with a heading; every other chunk ends with a line feed. */
  lemma {:induction false} EmptySection(ps: seq<String>)
    ensures forall k :: 0 <= k < |Sections(ps)| ==>
              (Sections(ps)[k] == [] <==> k == 0 && IsHeading(ps[0]))
    ensures forall k :: 0 <= k < |Sections(ps)| && Sections(ps)[k] != [] ==>
              Sections(ps)[k][|Sections(ps)[k]| - 1] == '\n'
  {
    var h := HeadingsBelow(ps, |ps|);
    SectionsPerHeading(ps, |ps|);
    forall k | 0 <= k < |h|
      ensures Sections(ps)[k] == [] <==> k == 0 && IsHeading(ps[0])
      ensures Sections(ps)[k] != [] ==> Sections(ps)[k][|Sections(ps)[k]| - 1] == '\n'
    {
      SectionsByHeadings(ps, |ps|, k);
      if SectionStart(h, k) < h[k] {
        AccumulatedEnds(ps, SectionStart(h, k), h[k]);
      }
      if k == 0 && IsHeading(ps[0]) {
        PositionsComplete(HeadingMarks(ps), |ps|, 0);
      }
    }
  }

  /** Nothing but the open chunk is lost: the chunks, followed by the
      paragraphs from the last heading on, give back every paragraph in
      order. */
  lemma {:induction false} SectionsThenTail(ps: seq<String>, n: nat)
    requires n <= |ps|
    ensures Concat(SectionsBelow(ps, n)) + Accumulated(ps, OpenStart(ps, n), n) == Accumulated(ps, 0, n)
  {
    if n > 0 {
      var m := n - 1;
      SectionsThenTail(ps, m);
      var before := SectionsBelow(ps, m);
      var open := Accumulated(ps, OpenStart(ps, m), m);
      var last := ps[m] + "\n";
      if IsHeading(ps[m]) {
        assert (before + [open])[..|before|] == before;
        assert Concat(before + [open]) == Concat(before) + open;
        assert Accumulated(ps, m, n) == last;
      } else {
        assert Concat(before) + (open + last) == (Concat(before) + open) + last;
      }
    }
  }

  /** The chunks hold exactly the paragraphs before the last heading; the
      last heading and what follows it are dropped. */
  lemma {:induction false} DroppedTail(ps: seq<String>)
    ensures Concat(Sections(ps)) == Accumulated(ps, 0, OpenStart(ps, |ps|))
  {
    SectionsThenTail(ps, |ps|);
    AccumulatedSplit(ps, 0, OpenStart(ps, |ps|), |ps|);
    AppendCancelRight(Concat(Sections(ps)), Accumulated(ps, 0, OpenStart(ps, |ps|)),
                      Accumulated(ps, OpenStart(ps, |ps|), |ps|));
  }

  lemma {:induction false} AccumulatedSplit(ps: seq<String>, a: nat, m: nat, b: nat)
    requires a <= m <= b <= |ps|
    ensures Accumulated(ps, a, b) == Accumulated(ps, a, m) + Accumulated(ps, m, b)
    decreases b - m
  {
    if m < b {
      AccumulatedSplit(ps, a, m, b - 1);
    }
  }
}
