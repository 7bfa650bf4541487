/**
  The whole extraction: every page in page order, each page's blocks put in
  reading order and merged into paragraphs, and the paragraph list then
  translated. The PDF engine is replaced by its output: a document is the
  list of its pages, each given by its width and its text blocks; a path
  that does not exist or a document that cannot be opened yields nothing.
 */
module Extraction {
  import opened Geometry
  import opened Records
  import opened ReadingOrder
  import opened Merger
  import opened Translation

  /** One page as the PDF engine reports it: its width and its text blocks. */
  datatype Page = Page(width: real, blocks: seq<Block>)

  /** What opening the path produced. */
  datatype Source = NotFound | OpenFailed | Opened(pages: seq<Page>)

  /** The paragraphs of page number `pageNum`: its blocks sorted, then merged. */
  function PageParagraphs(page: Page, pageNum: nat): (ps: seq<Paragraph>)
    ensures |ps| <= |page.blocks|
    ensures forall k :: 0 <= k < |ps| ==> ps[k].pageNum == pageNum && ps[k].originalText != ""
  {
    var sorted := SortBlocks(page.blocks);
    assert |sorted| == |page.blocks| by {
      assert |multiset(sorted)| == |multiset(page.blocks)|;
    }
    MergePage(sorted, page.width, pageNum)
  }

  /** Total number of blocks over all pages. */
  function TotalBlocks(pages: seq<Page>): nat {
    if pages == [] then 0 else TotalBlocks(pages[..|pages| - 1]) + |pages[|pages| - 1].blocks|
  }

  /**
    The paragraph list the page loop collects: never more paragraphs than
    blocks, each tagged with the index of an existing page and never empty,
    and page indices never decreasing along the list.
   */
  function ExtractPages(pages: seq<Page>): (ps: seq<Paragraph>)
    ensures |ps| <= TotalBlocks(pages)
    ensures forall k :: 0 <= k < |ps| ==> ps[k].pageNum < |pages| && ps[k].originalText != ""
    ensures forall a, b :: 0 <= a < b < |ps| ==> ps[a].pageNum <= ps[b].pageNum
  {
    if pages == [] then []
    else
      var front := ExtractPages(pages[..|pages| - 1]);
      var last := PageParagraphs(pages[|pages| - 1], |pages| - 1);
      PagesConcat(front, last, |pages| - 1);
      front + last
  }

  /** Appending one page's paragraphs after those of all earlier pages keeps the page order. */
  lemma PagesConcat(front: seq<Paragraph>, last: seq<Paragraph>, n: nat)
    requires forall k :: 0 <= k < |front| ==> front[k].pageNum < n
    requires forall a, b :: 0 <= a < b < |front| ==> front[a].pageNum <= front[b].pageNum
    requires forall k :: 0 <= k < |last| ==> last[k].pageNum == n
    ensures forall a, b :: 0 <= a < b < |front + last| ==> (front + last)[a].pageNum <= (front + last)[b].pageNum
  {
  }

  /** The paragraphs of `ps` that carry page index `n`, in order. */
  function OnPage(ps: seq<Paragraph>, n: nat): seq<Paragraph> {
    if ps == [] then []
    else OnPage(ps[..|ps| - 1], n) + (if ps[|ps| - 1].pageNum == n then [ps[|ps| - 1]] else [])
  }

  lemma {:induction false} OnPageAppend(a: seq<Paragraph>, b: seq<Paragraph>, n: nat)
    ensures OnPage(a + b, n) == OnPage(a, n) + OnPage(b, n)
    decreases |b|
  {
    if b == [] {
      assert a + b == a;
    } else {
      var b' := b[..|b| - 1];
      assert (a + b)[..|a + b| - 1] == a + b';
      assert (a + b)[|a + b| - 1] == b[|b| - 1];
      OnPageAppend(a, b', n);
    }
  }

  /** Filtering a list whose every entry carries index `m` keeps all or nothing. */
  lemma {:induction false} OnPageUniform(ps: seq<Paragraph>, m: nat, n: nat)
    requires forall k :: 0 <= k < |ps| ==> ps[k].pageNum == m
    ensures OnPage(ps, n) == if m == n then ps else []
  {
    if ps != [] {
      OnPageUniform(ps[..|ps| - 1], m, n);
      assert ps[..|ps| - 1] + [ps[|ps| - 1]] == ps;
    }
  }

  /**
    The paragraphs tagged with page `n` are exactly the paragraphs page `n`
    produces on its own, in the same order: pages do not influence each
    other, and with the page order above this determines the whole list.
   */
  lemma {:induction false} PageSlice(pages: seq<Page>, n: nat)
    requires n < |pages|
    ensures OnPage(ExtractPages(pages), n) == PageParagraphs(pages[n], n)
  {
    var front := ExtractPages(pages[..|pages| - 1]);
    var last := PageParagraphs(pages[|pages| - 1], |pages| - 1);
    assert ExtractPages(pages) == front + last;
    OnPageAppend(front, last, n);
    OnPageUniform(last, |pages| - 1, n);
    if n < |pages| - 1 {
      PageSlice(pages[..|pages| - 1], n);
      assert pages[..|pages| - 1][n] == pages[n];
    } else {
      NoneOnLaterPage(pages[..|pages| - 1], n);
    }
  }

  /** No paragraph of the earlier pages carries an index at or past their count. */
  lemma {:induction false} NoneOnLaterPage(pages: seq<Page>, n: nat)
    requires n >= |pages|
    ensures OnPage(ExtractPages(pages), n) == []
  {
    var ps := ExtractPages(pages);
    OnPageNone(ps, n);
  }

  lemma {:induction false} OnPageNone(ps: seq<Paragraph>, n: nat)
    requires forall k :: 0 <= k < |ps| ==> ps[k].pageNum != n
    ensures OnPage(ps, n) == []
  {
    if ps != [] {
      OnPageNone(ps[..|ps| - 1], n);
    }
  }

  /** By page, and within a page by top edge. */
  predicate InDocumentOrder(ps: seq<Paragraph>) {
    forall a, b :: 0 <= a < b < |ps| ==>
      ps[a].pageNum < ps[b].pageNum || (ps[a].pageNum == ps[b].pageNum && ps[a].position.y0 <= ps[b].position.y0)
  }

  /** Appending a page's top-ordered paragraphs after the earlier pages' keeps document order. */
  lemma DocumentOrderConcat(front: seq<Paragraph>, last: seq<Paragraph>, n: nat)
    requires InDocumentOrder(front) && TopsOrdered(last)
    requires forall k :: 0 <= k < |front| ==> front[k].pageNum < n
    requires forall k :: 0 <= k < |last| ==> last[k].pageNum == n
    ensures InDocumentOrder(front + last)
  {
  }

  /** Reading order over the whole document: by page, and within a page by top edge. */
  lemma {:induction false} DocumentOrder(pages: seq<Page>)
    ensures InDocumentOrder(ExtractPages(pages))
  {
    if pages != [] {
      var n := |pages| - 1;
      var front := ExtractPages(pages[..n]);
      var last := PageParagraphs(pages[n], n);
      assert ExtractPages(pages) == front + last;
      assert InDocumentOrder(front) by {
        DocumentOrder(pages[..n]);
      }
      assert TopsOrdered(last) by {
        TopsNonDecreasing(SortBlocks(pages[n].blocks), pages[n].width, n);
      }
      DocumentOrderConcat(front, last, n);
    }
  }

  /** The page loop as written: each page's merged paragraphs appended in page order. */
  method ExtractLoop(pages: seq<Page>) returns (ps: seq<Paragraph>)
    ensures ps == ExtractPages(pages)
  {
    ps := [];
    var pageNum := 0;
    while pageNum < |pages|
      invariant 0 <= pageNum <= |pages|
      invariant ps == ExtractPages(pages[..pageNum])
    {
      var page := pages[pageNum];
      var blocks := SortBlocks(page.blocks);
      var merged := MergePageLoop(blocks, page.width, pageNum);
      assert pages[..pageNum + 1][..pageNum] == pages[..pageNum];
      ps := ps + merged;
      pageNum := pageNum + 1;
    }
    assert pages[..pageNum] == pages;
  }

  /**
    The result of the whole extraction: empty when the path is missing or
    the document cannot be opened, otherwise one translated record per
    extracted paragraph, in order.
   */
  function ExtractParagraphs(src: Source): (ts: seq<TranslatedParagraph>)
    ensures !src.Opened? ==> ts == []
    ensures src.Opened? ==> |ts| == |ExtractPages(src.pages)|
    ensures src.Opened? ==> forall k :: 0 <= k < |ts| ==>
      && Forget(ts[k]) == ExtractPages(src.pages)[k]
      && ts[k].translatedText == ts[k].originalText + Suffix
      && ts[k].pageNum < |src.pages|
  {
    match src
    case NotFound => []
    case OpenFailed => []
    case Opened(pages) => TranslateAll(ExtractPages(pages))
  }
}
