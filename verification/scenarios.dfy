/**
  Concrete pages pushed through the model, fixing the behaviour on small
  inputs the general lemmas describe only abstractly. The inputs are
  parameters pinned by `requires` rather than literals in the `ensures`, so
  that the verifier does not unfold `Normalize` on literal strings.
 */
module Scenarios {
  import opened Geometry
  import opened Text
  import opened Records
  import opened Walk
  import opened Merger

  /** Normalising text that is already a single-spaced sequence of words changes nothing. */
  lemma NormalizeWords(ws: seq<string>, t: string)
    requires AllWords(ws) && Join(ws) == t
    ensures Normalize(t) == t
  {
    WordsOfJoin(ws);
  }

  /** A line break and an indentation between two words collapse into one space. */
  lemma CollapsesWhitespace(s: string)
    requires s == "Hello\n  world"
    ensures Normalize(s) == "Hello world"
  {
    var h, w, g := "Hello", "world", "\n  ";
    LetterWord(h);
    LetterWord(w);
    assert AllSpace(g);
    var gaps, ws := ["", g, ""], [h, w];
    assert Interleave(gaps, ws) == s by {
      assert Interleave(gaps[2..], ws[2..]) == "";
      assert Interleave(gaps[1..], ws[1..]) == g + w;
    }
    SplitOfRuns(gaps, ws);
    assert Join(ws) == h + " " + w;
  }

  /** A page whose walk is the single span of its two blocks yields that span's paragraph. */
  lemma TwoBlockMerge(bs: seq<Block>, pageWidth: real, pageNum: nat)
    requires |bs| == 2 && Merges(bs, 0, pageWidth)
    ensures MergePage(bs, pageWidth, pageNum) == EmitSpan(bs, Span(0, 2), pageNum)
  {
  }

  predicate IsLetter(c: char) {
    'a' <= c <= 'z' || 'A' <= c <= 'Z'
  }

  /** A non-empty run of ASCII letters is a word. */
  lemma LetterWord(w: string)
    requires |w| > 0 && forall i :: 0 <= i < |w| ==> IsLetter(w[i])
    ensures IsWord(w)
  {
  }

  /** Two words with one space between them are already normalised. */
  lemma NormalizeTwoWords(s: string, w1: string, w2: string)
    requires IsWord(w1) && IsWord(w2) && s == w1 + " " + w2
    ensures Normalize(s) == s
  {
    NormalizeWords([w1, w2], s);
  }

  /**
    The geometry of the next scenario, whatever the texts: the narrow first
    block absorbs the second, and the paragraph spans both boxes.
   */
  lemma ShortLineGeometry(a: Block, b: Block)
    requires a.box == Box(10.0, 10.0, 200.0, 25.0) && b.box == Box(10.0, 28.0, 380.0, 45.0)
    ensures MergePage([a, b], 400.0, 0)
         == [Paragraph(Normalize(a.text) + " " + Normalize(b.text), Box(10.0, 10.0, 380.0, 45.0), 0)]
  {
    var bs := [a, b];
    assert Merges(bs, 0, 400.0) by {
      NormalizedIsSingleLine(a.text);
    }
    TwoBlockMerge(bs, 400.0, 0);
  }

  /**
    A short line (190 points wide on a 400-point page) directly followed,
    3 points below its bottom edge, by a wider line: one paragraph with the
    joined text and the box spanning both blocks.
   */
  lemma ShortLineAbsorbsNext(t1: string, t2: string, a: Block, b: Block)
    requires t1 == "Short line" && t2 == "continues here"
    requires a == Block(Box(10.0, 10.0, 200.0, 25.0), t1)
    requires b == Block(Box(10.0, 28.0, 380.0, 45.0), t2)
    ensures MergePage([a, b], 400.0, 0)
         == [Paragraph(t1 + " " + t2, Box(10.0, 10.0, 380.0, 45.0), 0)]
  {
    var s, l, c, h := "Short", "line", "continues", "here";
    LetterWord(s);
    LetterWord(l);
    LetterWord(c);
    LetterWord(h);
    NormalizeTwoWords(t1, s, l);
    NormalizeTwoWords(t2, c, h);
    ShortLineGeometry(a, b);
  }

  /**
    Two narrow, vertically close blocks whose texts are pure whitespace are
    still merged, and the merged paragraph is the single space between the
    two empty texts.
   */
  lemma BlankBlocksMergeToSpace(a: Block, b: Block)
    requires a == Block(Box(0.0, 0.0, 10.0, 10.0), "  ")
    requires b == Block(Box(0.0, 5.0, 10.0, 15.0), "\n")
    ensures MergePage([a, b], 100.0, 3) == [Paragraph(" ", Box(0.0, 0.0, 10.0, 15.0), 3)]
  {
    var bs := [a, b];
    assert Normalize(a.text) == "" && Normalize(b.text) == "" by {
      NormalizeEmpty(a.text);
      NormalizeEmpty(b.text);
    }
    assert Merges(bs, 0, 100.0) by {
      NormalizedIsSingleLine(a.text);
    }
    TwoBlockMerge(bs, 100.0, 3);
    assert SpanText(bs, Span(0, 2)) == Normalize(a.text) + " " + Normalize(b.text);
    assert "" + " " + "" == " ";
  }

  /**
    Three narrow blocks on consecutive lines: the first absorbs the second,
    and the third, though close to the second, starts a paragraph of its own.
   */
  lemma MergingIsNotTransitive(a: Block, b: Block, c: Block)
    requires a == Block(Box(0.0, 0.0, 50.0, 10.0), "a")
    requires b == Block(Box(0.0, 12.0, 50.0, 22.0), "b")
    requires c == Block(Box(0.0, 24.0, 50.0, 34.0), "c")
    ensures MergePage([a, b, c], 100.0, 0)
         == [Paragraph("a b", Box(0.0, 0.0, 50.0, 22.0), 0), Paragraph("c", Box(0.0, 24.0, 50.0, 34.0), 0)]
  {
    var bs := [a, b, c];
    assert Normalize(a.text) == "a" && Normalize(b.text) == "b" && Normalize(c.text) == "c" by {
      NormalizeWords(["a"], "a");
      NormalizeWords(["b"], "b");
      NormalizeWords(["c"], "c");
    }
    var flags := MergeFlags(bs, 100.0);
    assert flags[0] by {
      NormalizedIsSingleLine(a.text);
    }
    assert Schedule(flags, 0) == [Span(0, 2), Span(2, 1)] by {
      assert Schedule(flags, 3) == [];
      assert Schedule(flags, 2) == [Span(2, 1)];
    }
    var sched := [Span(0, 2), Span(2, 1)];
    assert EmitAll(bs, sched, 0) == EmitSpan(bs, Span(0, 2), 0) + EmitSpan(bs, Span(2, 1), 0) by {
      assert sched[1..] == [Span(2, 1)] && sched[1..][1..] == [];
    }
    assert EmitSpan(bs, Span(0, 2), 0) == [Paragraph("a b", Box(0.0, 0.0, 50.0, 22.0), 0)] by {
      assert SpanText(bs, Span(0, 2)) == "a b";
    }
    assert EmitSpan(bs, Span(2, 1), 0) == [Paragraph("c", Box(0.0, 24.0, 50.0, 34.0), 0)];
  }

  /** A block as wide as 70% of the page is never a merge source, however close its successor. */
  lemma WideBlockStandsAlone(a: Block, b: Block)
    requires a == Block(Box(0.0, 0.0, 70.0, 10.0), "a")
    requires b == Block(Box(0.0, 12.0, 50.0, 22.0), "b")
    ensures MergePage([a, b], 100.0, 0)
         == [Paragraph("a", Box(0.0, 0.0, 70.0, 10.0), 0), Paragraph("b", Box(0.0, 12.0, 50.0, 22.0), 0)]
  {
    var bs := [a, b];
    assert Normalize(a.text) == "a" && Normalize(b.text) == "b" by {
      NormalizeWords(["a"], "a");
      NormalizeWords(["b"], "b");
    }
    var flags := MergeFlags(bs, 100.0);
    assert !flags[0] && !flags[1];
    var sched := [Span(0, 1), Span(1, 1)];
    assert Schedule(flags, 0) == sched by {
      assert Schedule(flags, 2) == [];
      assert Schedule(flags, 1) == [Span(1, 1)];
    }
    assert EmitAll(bs, sched, 0) == EmitSpan(bs, Span(0, 1), 0) + EmitSpan(bs, Span(1, 1), 0) by {
      assert sched[1..] == [Span(1, 1)] && sched[1..][1..] == [];
    }
  }
}
