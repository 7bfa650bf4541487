/**
  The per-page paragraph merger: one walk over the page's blocks in reading
  order. At each step the current block is normalised; if it passes the
  gate (single line, narrower than 70% of the page, not the last block) and
  the next block starts within 15 points of it vertically, the next block is
  absorbed: texts joined by one space, boxes unioned, and the walk skips
  past it. The (possibly merged) text is emitted when non-empty.

  The walk is described in two layers. `Walk.Schedule`, fed with the merge
  decision at every index, lists the spans the loop consumes (one block, or
  two on a merge), and `EmitAll` turns each span into at most one paragraph.
  `MergePageLoop` is the index loop itself, proved to produce the same
  paragraphs.
 */
module Merger {
  import opened Geometry
  import opened Text
  import opened Records
  import opened ReadingOrder
  import opened Walk

  /** Fraction of the page width below which a block may start a merge. */
  const WidthRatio: real := 0.70

  /** Largest vertical distance, in points, still treated as "next line". */
  const VerticalGap: real := 15.0

  function WidthThreshold(pageWidth: real): real {
    pageWidth * WidthRatio
  }

  /** The outer test of the loop body: the block at `i` may absorb its successor. */
  predicate Gate(bs: seq<Block>, i: nat, pageWidth: real)
    requires i < |bs|
  {
    IsSingleLine(Normalize(bs[i].text)) && Width(bs[i].box) < WidthThreshold(pageWidth) && i + 1 < |bs|
  }

  /** Same visual line, or the next block starts just below the current one. */
  predicate VerticallyClose(cur: Box, next: Box) {
    Abs(next.y0 - cur.y0) < VerticalGap || (next.y0 > cur.y1 && next.y0 - cur.y1 < VerticalGap)
  }

  /** The loop, standing at index `i`, absorbs block `i + 1`. */
  predicate Merges(bs: seq<Block>, i: nat, pageWidth: real)
    requires i < |bs|
  {
    Gate(bs, i, pageWidth) && VerticallyClose(bs[i].box, bs[i + 1].box)
  }

  /** The merge decision the loop would take at every index. */
  function MergeFlags(bs: seq<Block>, pageWidth: real): seq<bool> {
    seq(|bs|, i requires 0 <= i < |bs| => Merges(bs, i, pageWidth))
  }

  /** The iterations of the loop over a whole page. */
  function PageSchedule(bs: seq<Block>, pageWidth: real): seq<Span> {
    Schedule(MergeFlags(bs, pageWidth), 0)
  }

  /** The text a span produces: `cleaned_text`, extended by `" " + cleaned_ntext` on a merge. */
  function SpanText(bs: seq<Block>, sp: Span): string
    requires ValidSpan(|bs|, sp)
  {
    if sp.len == 2 then Normalize(bs[sp.start].text) + " " + Normalize(bs[sp.start + 1].text)
    else Normalize(bs[sp.start].text)
  }

  /** The box a span produces: the block's own, or the union on a merge. */
  function SpanBox(bs: seq<Block>, sp: Span): Box
    requires ValidSpan(|bs|, sp)
  {
    if sp.len == 2 then Union(bs[sp.start].box, bs[sp.start + 1].box) else bs[sp.start].box
  }

  /** The paragraph one iteration appends, if its text is non-empty. */
  function EmitSpan(bs: seq<Block>, sp: Span, pageNum: nat): seq<Paragraph>
    requires ValidSpan(|bs|, sp)
  {
    var t := SpanText(bs, sp);
    if t == "" then [] else [Paragraph(t, SpanBox(bs, sp), pageNum)]
  }

  /** The paragraphs a run of iterations appends, in order: at most one each, tagged and never empty. */
  function EmitAll(bs: seq<Block>, sched: seq<Span>, pageNum: nat): (ps: seq<Paragraph>)
    requires AllValid(|bs|, sched)
    ensures |ps| <= |sched|
    ensures forall k :: 0 <= k < |ps| ==> ps[k].pageNum == pageNum && ps[k].originalText != ""
  {
    if sched == [] then []
    else EmitSpan(bs, sched[0], pageNum) + EmitAll(bs, sched[1..], pageNum)
  }

  /**
    The paragraphs of one page, given its blocks in reading order: no more
    paragraphs than blocks, each tagged with the page and never empty.
   */
  function MergePage(bs: seq<Block>, pageWidth: real, pageNum: nat): (ps: seq<Paragraph>)
    ensures |ps| <= |bs|
    ensures forall k :: 0 <= k < |ps| ==> ps[k].pageNum == pageNum && ps[k].originalText != ""
  {
    ScheduleEnds(MergeFlags(bs, pageWidth), 0);
    EmitAll(bs, PageSchedule(bs, pageWidth), pageNum)
  }

  /** The paragraphs from index `i` on: one iteration, then the rest of the walk. */
  lemma EmitFrom(bs: seq<Block>, flags: seq<bool>, pageNum: nat, i: nat)
    requires |flags| == |bs| && i < |bs|
    ensures EmitAll(bs, Schedule(flags, i), pageNum)
         == EmitSpan(bs, SpanAt(flags, i), pageNum) + EmitAll(bs, Schedule(flags, i + SpanAt(flags, i).len), pageNum)
  {
  }

  /**
    One pass of the loop body at index `i`: what it appends to the result
    (nothing, or one paragraph) and the index the loop continues from.
   */
  method LoopBody(blocks: seq<Block>, pageWidth: real, pageNum: nat, i: nat) returns (emitted: seq<Paragraph>, next: nat)
    requires i < |blocks|
    ensures next == i + SpanAt(MergeFlags(blocks, pageWidth), i).len
    ensures emitted == EmitSpan(blocks, SpanAt(MergeFlags(blocks, pageWidth), i), pageNum)
  {
    var widthThreshold := pageWidth * WidthRatio;
    var current := blocks[i];
    var x0, y0, x1, y1 := current.box.x0, current.box.y0, current.box.x1, current.box.y1;
    var blockWidth := x1 - x0;
    var cleanedText := Normalize(current.text);
    var isSingleLine := '\n' !in cleanedText;
    next := i;
    if isSingleLine && blockWidth < widthThreshold && i + 1 < |blocks| {
      var nextBlock := blocks[i + 1];
      var ny0 := nextBlock.box.y0;
      if Abs(ny0 - y0) < VerticalGap || (ny0 > y1 && ny0 - y1 < VerticalGap) {
        cleanedText := cleanedText + " " + Normalize(nextBlock.text);
        x0 := Min(x0, nextBlock.box.x0);
        y0 := Min(y0, ny0);
        x1 := Max(x1, nextBlock.box.x1);
        y1 := Max(y1, nextBlock.box.y1);
        next := next + 1;
      }
    }
    emitted := [];
    if cleanedText != "" {
      emitted := [Paragraph(cleanedText, Box(x0, y0, x1, y1), pageNum)];
    }
    next := next + 1;
  }

  /** The index loop of `extract_paragraphs_from_pdf`: the paragraphs it collects are those of `MergePage`. */
  method MergePageLoop(blocks: seq<Block>, pageWidth: real, pageNum: nat) returns (ps: seq<Paragraph>)
    ensures ps == MergePage(blocks, pageWidth, pageNum)
  {
    ghost var flags := MergeFlags(blocks, pageWidth);
    MergePageIsWalk(blocks, pageWidth, pageNum);
    ps := [];
    var i := 0;
    while i < |blocks|
      invariant 0 <= i <= |blocks|
      invariant ps + WalkFrom(blocks, flags, pageNum, i) == WalkFrom(blocks, flags, pageNum, 0)
      decreases |blocks| - i
    {
      var emitted, next := LoopBody(blocks, pageWidth, pageNum, i);
      WalkStep(blocks, flags, pageNum, i, ps, emitted);
      ps := ps + emitted;
      i := next;
    }
    WalkDone(blocks, flags, pageNum, ps);
  }

  /**
    The paragraphs the loop appends from index `i` on, followed index by
    index: one iteration at `i`, then the loop from where it stopped.
   */
  function WalkFrom(bs: seq<Block>, flags: seq<bool>, pageNum: nat, i: nat): seq<Paragraph>
    requires |flags| == |bs| && i <= |bs|
    decreases |bs| - i
  {
    if i == |bs| then []
    else EmitSpan(bs, SpanAt(flags, i), pageNum) + WalkFrom(bs, flags, pageNum, i + SpanAt(flags, i).len)
  }

  /** Following the loop index by index emits what the walk's iterations emit. */
  lemma {:induction false} WalkFromIsEmitAll(bs: seq<Block>, flags: seq<bool>, pageNum: nat, i: nat)
    requires |flags| == |bs| && i <= |bs|
    ensures WalkFrom(bs, flags, pageNum, i) == EmitAll(bs, Schedule(flags, i), pageNum)
    decreases |bs| - i
  {
    if i < |bs| {
      EmitFrom(bs, flags, pageNum, i);
      WalkFromIsEmitAll(bs, flags, pageNum, i + SpanAt(flags, i).len);
    }
  }

  /** A page's paragraphs are what the loop appends from index 0 on. */
  lemma MergePageIsWalk(bs: seq<Block>, pageWidth: real, pageNum: nat)
    ensures MergePage(bs, pageWidth, pageNum) == WalkFrom(bs, MergeFlags(bs, pageWidth), pageNum, 0)
  {
    WalkFromIsEmitAll(bs, MergeFlags(bs, pageWidth), pageNum, 0);
  }

  /** Once the index has reached the end, the loop has appended everything. */
  lemma WalkDone(bs: seq<Block>, flags: seq<bool>, pageNum: nat, ps: seq<Paragraph>)
    requires |flags| == |bs|
    requires ps + WalkFrom(bs, flags, pageNum, |bs|) == WalkFrom(bs, flags, pageNum, 0)
    ensures ps == WalkFrom(bs, flags, pageNum, 0)
  {
  }

  /** What one iteration appends, followed by the rest of the walk, is the walk from its index. */
  lemma WalkStep(bs: seq<Block>, flags: seq<bool>, pageNum: nat, i: nat, ps: seq<Paragraph>, emitted: seq<Paragraph>)
    requires |flags| == |bs| && i < |bs|
    requires emitted == EmitSpan(bs, SpanAt(flags, i), pageNum)
    ensures ps + WalkFrom(bs, flags, pageNum, i) == (ps + emitted) + WalkFrom(bs, flags, pageNum, i + SpanAt(flags, i).len)
  {
  }

  /**
    The merge decision, with the vacuous single-line test removed: only the
    current block's width, the existence of a next block, and the vertical
    distance between the two decide.
   */
  lemma MergeCondition(bs: seq<Block>, i: nat, pageWidth: real)
    requires i < |bs|
    ensures Merges(bs, i, pageWidth) <==>
      && i + 1 < |bs|
      && bs[i].box.x1 - bs[i].box.x0 < pageWidth * 0.70
      && (|| Abs(bs[i + 1].box.y0 - bs[i].box.y0) < 15.0
          || (bs[i + 1].box.y0 > bs[i].box.y1 && bs[i + 1].box.y0 - bs[i].box.y1 < 15.0))
  {
    NormalizedIsSingleLine(bs[i].text);
  }

  /** The next block's horizontal extent, bottom edge and text play no part in the decision. */
  lemma MergeIgnoresNextShape(bs: seq<Block>, bs': seq<Block>, i: nat, pageWidth: real)
    requires i + 1 < |bs| == |bs'|
    requires bs'[i] == bs[i]
    requires bs'[i + 1].box.y0 == bs[i + 1].box.y0
    ensures Merges(bs, i, pageWidth) <==> Merges(bs', i, pageWidth)
  {
  }

  /** A wide block, or the last block of the page, is never a merge source: it is emitted on its own. */
  lemma NonSourceEmittedAlone(bs: seq<Block>, pageWidth: real, pageNum: nat, k: nat)
    requires k < |PageSchedule(bs, pageWidth)|
    requires var s := PageSchedule(bs, pageWidth)[k].start;
      Width(bs[s].box) >= pageWidth * 0.70 || s == |bs| - 1
    ensures var sp := PageSchedule(bs, pageWidth)[k];
      && sp.len == 1
      && EmitSpan(bs, sp, pageNum)
         == if Normalize(bs[sp.start].text) == "" then []
            else [Paragraph(Normalize(bs[sp.start].text), bs[sp.start].box, pageNum)]
  {
  }

  /**
    A merged iteration always emits exactly one paragraph whose text is the
    current normalised text, one space, and the next normalised text (so it
    may be just " "), and whose box is the union of the two boxes.
   */
  lemma MergedParagraph(bs: seq<Block>, pageWidth: real, pageNum: nat, k: nat)
    requires k < |PageSchedule(bs, pageWidth)|
    requires PageSchedule(bs, pageWidth)[k].len == 2
    ensures var sp := PageSchedule(bs, pageWidth)[k];
      var a := bs[sp.start];
      var b := bs[sp.start + 1];
      && Merges(bs, sp.start, pageWidth)
      && EmitSpan(bs, sp, pageNum) == [Paragraph(Normalize(a.text) + " " + Normalize(b.text), Union(a.box, b.box), pageNum)]
  {
  }

  /** In reading order, a span's paragraph (if any) starts at the top edge of its first block. */
  lemma SpanTop(bs: seq<Block>, sp: Span, pageNum: nat)
    requires Sorted(bs) && ValidSpan(|bs|, sp)
    ensures |EmitSpan(bs, sp, pageNum)| <= 1
    ensures forall k :: 0 <= k < |EmitSpan(bs, sp, pageNum)| ==>
      EmitSpan(bs, sp, pageNum)[k].position.y0 == bs[sp.start].box.y0
  {
  }

  /** Top edges never go up along `ps`. */
  predicate TopsOrdered(ps: seq<Paragraph>) {
    forall a, b :: 0 <= a < b < |ps| ==> ps[a].position.y0 <= ps[b].position.y0
  }

  /** No paragraph of `ps` starts above `top`. */
  predicate TopsBelow(ps: seq<Paragraph>, top: real) {
    forall k :: 0 <= k < |ps| ==> top <= ps[k].position.y0
  }

  /**
    On blocks in reading order, the paragraphs emitted by spans with
    increasing starts start no higher than the first span's block and their
    top edges never go up.
   */
  lemma {:induction false} TopsFrom(bs: seq<Block>, sched: seq<Span>, pageNum: nat)
    requires Sorted(bs) && AllValid(|bs|, sched)
    requires forall a, b :: 0 <= a < b < |sched| ==> sched[a].start < sched[b].start
    ensures TopsOrdered(EmitAll(bs, sched, pageNum))
    ensures |sched| > 0 ==> TopsBelow(EmitAll(bs, sched, pageNum), bs[sched[0].start].box.y0)
  {
    if sched != [] {
      var sp := sched[0];
      var head := EmitSpan(bs, sp, pageNum);
      var rest := EmitAll(bs, sched[1..], pageNum);
      var top := bs[sp.start].box.y0;
      assert |head| <= 1 && forall k :: 0 <= k < |head| ==> head[k].position.y0 == top by {
        SpanTop(bs, sp, pageNum);
      }
      assert TopsOrdered(rest) && TopsBelow(rest, top) by {
        TopsFrom(bs, sched[1..], pageNum);
        if |sched| > 1 {
          assert KeyLe(bs[sp.start], bs[sched[1].start]);
        }
      }
      TopsConcat(head, rest, top);
    }
  }

  /** Top edges stay ordered when at most one paragraph at the lower bound is put in front. */
  lemma TopsConcat(head: seq<Paragraph>, rest: seq<Paragraph>, top: real)
    requires |head| <= 1
    requires forall k :: 0 <= k < |head| ==> head[k].position.y0 == top
    requires TopsBelow(rest, top) && TopsOrdered(rest)
    ensures TopsBelow(head + rest, top) && TopsOrdered(head + rest)
  {
  }

  /** Paragraphs of a page in reading order come out top edge first. */
  lemma TopsNonDecreasing(bs: seq<Block>, pageWidth: real, pageNum: nat)
    requires Sorted(bs)
    ensures TopsOrdered(MergePage(bs, pageWidth, pageNum))
  {
    TopsFrom(bs, PageSchedule(bs, pageWidth), pageNum);
  }

  /** When every block is well formed, so is every paragraph box. */
  lemma {:induction false} BoxesWellFormed(bs: seq<Block>, sched: seq<Span>, pageNum: nat)
    requires AllValid(|bs|, sched)
    requires forall j :: 0 <= j < |bs| ==> WellFormed(bs[j].box)
    ensures forall k :: 0 <= k < |EmitAll(bs, sched, pageNum)| ==> WellFormed(EmitAll(bs, sched, pageNum)[k].position)
  {
    if sched != [] {
      BoxesWellFormed(bs, sched[1..], pageNum);
    }
  }
}
