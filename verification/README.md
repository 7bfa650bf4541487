# Paragraph extraction for PDF block translation, in Dafny

This project models the paragraph reconstruction of `extract_paragraphs.py`
and proves properties of the model. For every page of a PDF document, the
extractor takes the text blocks the PDF engine reports. It sorts them top to
bottom and then left to right, and walks them with an index. A block that is
narrower than 70% of the page may absorb the block after it, when that block
starts within 15 points vertically. The merged paragraph gets the two
normalised texts joined by one space and the union of the two boxes. Every
non-empty text is emitted with its box and page number. A translation step
then appends a fixed marker to each paragraph's text.

The modules follow the steps of the extractor:

- `Text` (`text.dfy`): whitespace normalisation, `' '.join(text.strip().split())`. It covers words, joining, the normalised shape and the single-line test.
- `Geometry` (`geometry.dfy`): boxes, containment and the box union used on a merge.
- `Records` (`records.dfy`): blocks, paragraphs and translated paragraphs.
- `ReadingOrder` (`reading_order.dfy`): the `(y0, x0)` sort. It is a stable insertion sort, proved sorted, a permutation, and stable.
- `Walk` (`walk.dfy`): the shape of the index walk. The walk is a list of iterations, each consuming one block, or two on a merge.
- `Merger` (`merger.dfy`):
  - the merge gate and the paragraphs of one page;
  - the index loop itself, proved to compute the same paragraphs;
  - the properties of the merge.
- `Translation` (`translation.dfy`): the simulated translation and its loop.
- `Extraction` (`extraction.dfy`): the page loop, the early returns, and the whole result.
- `Scenarios` (`scenarios.dfy`): small concrete pages pushed through the model.

Coordinates are exact reals. The page width and the block list of each page
are inputs. A document is given by the list of its pages. A missing path and
a document that fails to open are the two non-`Opened` cases of
`Extraction.Source`.

Points where the program's own comments promise more than its code does.
The model follows the code:

- The docstring (`extract_paragraphs.py:6-7`) speaks of merging
  single-line paragraphs. The code applies the single-line test to the
  already normalised text (`extract_paragraphs.py:50-54`), which can never
  contain a newline, so the test always passes (`Text.NormalizedIsSingleLine`).
  A block whose raw text spans several lines can therefore start a merge
  (`Merger.MergeCondition`).
- The emptiness test comes after merging (`extract_paragraphs.py:81`). A
  merge of two blocks whose texts are pure whitespace yields the paragraph
  `" "` (`Scenarios.BlankBlocksMergeToSpace`).
- A caller's comment (`extract_paragraphs.py:164`) says the document is
  closed inside `extract_paragraphs_from_pdf`. No close call exists in that
  function (`extract_paragraphs.py:19-112`). The model has no document
  handles, so this has no counterpart in it.
- Nothing forces `x0 <= x1` or `y0 <= y1`. The union keeps that shape
  when both inputs have it (`Geometry.Union`, `Merger.BoxesWellFormed`).

## Model

| member | source | states |
|---|---|---|
| Text.IsSpace | extract_paragraphs.py:50 | the characters `strip()` and `split()` treat as whitespace: Python's `str.isspace()` set |
| Text.Words | extract_paragraphs.py:50 | `split()` yields only non-empty, whitespace-free words; which words they are is fixed by `Text.WordsAreRuns` and `Text.SplitOfRuns` |
| Text.Join | extract_paragraphs.py:50 | `' '.join`: the words with one space between consecutive ones; its properties are `Text.JoinNormalized` and the two round trips below |
| Text.Normalize | extract_paragraphs.py:50 | the cleaned text, `' '.join(text.strip().split())`; what it yields is stated by `Text.NormalizeIsNormalized`, `Text.NormalizeKeepsWords` and `Text.NormalizeEmpty` |
| Text.WordsAreRuns | extract_paragraphs.py:49-50 | every text is its `split()` words with whitespace around them, non-empty whitespace between two words: the words are the maximal non-whitespace runs, in order |
| Text.SplitOfRuns | extract_paragraphs.py:49-50 | conversely, a text built from words with any whitespace around them, some between each two, splits into exactly those words |
| Text.JoinNormalized | extract_paragraphs.py:50 | joining words with single spaces gives the normalised shape, and gives the empty text exactly when there are no words |
| Text.NormalizeIsNormalized | extract_paragraphs.py:50 | normalised text has no leading or trailing whitespace; every whitespace character in it is a plain space with no whitespace beside it |
| Text.WordsOfJoin | extract_paragraphs.py:50 | round trip: splitting a single-space join of words gives back the same words |
| Text.JoinOfWords | extract_paragraphs.py:50 | round trip the other way: a text of normalised shape is the join of its own words |
| Text.NormalizeFixedPoint | extract_paragraphs.py:50 | normalisation leaves a text unchanged exactly when the text already has the normalised shape |
| Text.NormalizeIdempotent | extract_paragraphs.py:50 | normalising twice equals normalising once |
| Text.NormalizeKeepsWords | extract_paragraphs.py:50 | normalisation keeps the words, and its result is the only normalised text with those words |
| Text.WordsEmpty | extract_paragraphs.py:50 | a text has no words exactly when it is all whitespace |
| Text.NormalizeEmpty | extract_paragraphs.py:50 | a normalised text is empty exactly when the raw text is all whitespace |
| Text.IsSingleLine | extract_paragraphs.py:54 | `cleaned_text.count('\n') == 0`: the text holds no newline |
| Text.NormalizedIsSingleLine | extract_paragraphs.py:50-54 | the newline count of normalised text is always zero, so the single-line test never fails |
| Geometry.Width | extract_paragraphs.py:47 | `block_width = x1 - x0`, the width compared against the threshold |
| Geometry.Union | extract_paragraphs.py:73-76 | the merged box contains both boxes, and is well formed when both are |
| Geometry.UnionIsLeast | extract_paragraphs.py:73-76 | every box that contains both boxes contains their union |
| Geometry.UnionCommutes | extract_paragraphs.py:73-76 | the union does not depend on which block is current |
| ReadingOrder.Key | extract_paragraphs.py:41 | the sort key `lambda b: (b[1], b[0])`: the top edge, then the left edge |
| ReadingOrder.KeyLe | extract_paragraphs.py:41 | Python's tuple comparison of the sort keys `(y0, x0)`: top edge first, left edge on a tie |
| ReadingOrder.Insert | extract_paragraphs.py:41 | one insertion step of the model's sort: the result holds exactly the old blocks plus the new one |
| ReadingOrder.SortBlocks | extract_paragraphs.py:41 | the sorted blocks are in `(y0, x0)` order and are a permutation of the input |
| ReadingOrder.SortIsStable | extract_paragraphs.py:41 | for every key, the blocks with that key keep their input order, as in Python's stable sort |
| ReadingOrder.SortSortedIsIdentity | extract_paragraphs.py:41 | sorting blocks already in reading order changes nothing |
| Walk.SpanAt | extract_paragraphs.py:78-87 | the iteration at index `i`: two blocks when the merge decision there holds and a next block exists (the extra `i += 1` of :78), otherwise one; it always starts at `i` and stays within the blocks |
| Walk.Schedule | extract_paragraphs.py:43-87 | iterations start at the current index, each is the one its start index dictates, and they follow each other without overlap; there are none exactly at the end |
| Walk.NextStart | extract_paragraphs.py:78-87 | each iteration starts where the previous one stopped |
| Walk.ScheduleConsumesAll | extract_paragraphs.py:78-87 | the iterations together consume exactly the remaining blocks |
| Walk.ScheduleEnds | extract_paragraphs.py:44-87 | there are no more iterations than blocks, and the last one ends at the last block, so the loop terminates |
| Walk.EveryBlockConsumed | extract_paragraphs.py:43-87 | every block is consumed by some iteration |
| Walk.ConsumedOnce | extract_paragraphs.py:78-87 | no block is consumed by two iterations |
| Walk.AbsorbedNeverExamined | extract_paragraphs.py:78 | an absorbed block never starts an iteration, so merging is not transitive |
| Walk.TwoBlocksIffFlag | extract_paragraphs.py:57-79 | an iteration consumes two blocks exactly when its merge decision holds and a next block exists |
| Merger.WidthThreshold | extract_paragraphs.py:36 | `page_content_width * 0.70`, the width a merge source must stay below |
| Merger.Gate | extract_paragraphs.py:57 | the outer test of the loop body: single line, narrower than the threshold, and a next block exists |
| Merger.VerticallyClose | extract_paragraphs.py:64-66 | the inner test: the next top edge is within 15 of the current top edge, or lies below the current bottom edge by less than 15 |
| Merger.Merges | extract_paragraphs.py:57-66 | both tests pass, so the loop at `i` absorbs block `i + 1`; `Merger.MergeCondition` gives the same decision without the vacuous single-line test |
| Merger.MergeFlags | extract_paragraphs.py:57-66 | the merge decision the loop would take at every index, one flag per block; `Walk.TwoBlocksIffFlag` states what a set flag does to the walk |
| Merger.PageSchedule | extract_paragraphs.py:43-87 | the iterations the loop makes over one page, from index 0 with the page's merge decisions; `Merger.NonSourceEmittedAlone` and `Merger.MergedParagraph` are stated over it |
| Merger.SpanText | extract_paragraphs.py:69-70 | an iteration's text: the cleaned text, extended by one space and the next cleaned text on a merge |
| Merger.SpanBox | extract_paragraphs.py:73-76 | an iteration's box: the block's own, or the union with the next block's on a merge |
| Merger.EmitSpan | extract_paragraphs.py:81-86 | an iteration appends its paragraph only when the text is non-empty; `Merger.NonSourceEmittedAlone` and `Merger.MergedParagraph` state the two cases |
| Merger.EmitAll | extract_paragraphs.py:81-86 | each iteration emits at most one paragraph, tagged with the page and never empty |
| Merger.MergePage | extract_paragraphs.py:36-87 | a page yields at most as many paragraphs as blocks, each tagged with the page and with non-empty text |
| Merger.LoopBody | extract_paragraphs.py:45-87 | one pass of the loop body appends exactly the paragraph of the iteration at `i` and advances past the blocks it consumed |
| Merger.MergePageLoop | extract_paragraphs.py:43-87 | the index loop collects exactly the paragraphs of `MergePage` |
| Merger.WalkFrom | extract_paragraphs.py:43-87 | the loop followed index by index from `i`: the iteration at `i`, then the loop from where it stopped; `Merger.MergePageLoop`'s invariant is stated with it |
| Merger.WalkFromIsEmitAll | extract_paragraphs.py:43-87 | following the loop index by index emits what the walk's iterations emit |
| Merger.MergeCondition | extract_paragraphs.py:54-66 | a merge happens exactly when a next block exists, the current block is narrower than 0.70 of the page, and the next top edge is within 15 of the current top, or lies below the current bottom by less than 15 |
| Merger.MergeIgnoresNextShape | extract_paragraphs.py:57-66 | the next block's left and right edges, bottom edge and text play no part in the decision |
| Merger.NonSourceEmittedAlone | extract_paragraphs.py:57-86 | a block at least 0.70 of the page wide, or the last block, is never a merge source: an iteration that starts at it consumes it alone and emits it only when its normalised text is non-empty (such a block can still be absorbed by a narrow predecessor) |
| Merger.MergedParagraph | extract_paragraphs.py:69-86 | a merged iteration emits exactly one paragraph: the current normalised text, one space, the next normalised text, with the union box |
| Merger.SpanTop | extract_paragraphs.py:74 | on sorted blocks, a paragraph's top edge is the top edge of its first block |
| Merger.TopsFrom | extract_paragraphs.py:41-87 | on sorted blocks, paragraphs come out with non-decreasing top edges, none above the first block's |
| Merger.TopsNonDecreasing | extract_paragraphs.py:41-87 | the paragraphs of a sorted page come out top edge first |
| Merger.BoxesWellFormed | extract_paragraphs.py:73-84 | when every block box is well formed, so is every paragraph box |
| Translation.SimulateTranslation | extract_paragraphs.py:103 | the translation is the original text followed by the marker `_[zh-CN translated]` |
| Translation.Untranslate | extract_paragraphs.py:103 | stripping the marker recovers a text exactly when the input is some text's translation |
| Translation.UntranslateTranslation | extract_paragraphs.py:103 | stripping the marker from a translation gives back the original text |
| Translation.TranslationInjective | extract_paragraphs.py:103 | distinct texts get distinct translations |
| Translation.Translate | extract_paragraphs.py:105-110 | one record copies the original text, position and page number, and its translation strips back to the original |
| Translation.TranslateAll | extract_paragraphs.py:91-110 | the translation map keeps length and order; each record copies its paragraph and carries text plus marker |
| Translation.TranslateAllAppend | extract_paragraphs.py:91-110 | translating a concatenation translates each part, so the order of the list is kept |
| Translation.TranslateLoop | extract_paragraphs.py:91-110 | the translation loop computes `TranslateAll` |
| Extraction.PageParagraphs | extract_paragraphs.py:35-87 | a page's paragraphs, from its sorted blocks, are no more than its blocks, tagged with its index and non-empty |
| Extraction.ExtractPages | extract_paragraphs.py:30-87 | the collected paragraphs are no more than all blocks, carry existing page indices in non-decreasing order, and are non-empty |
| Extraction.PageSlice | extract_paragraphs.py:30-86 | the paragraphs tagged with page `n` are exactly those page `n` yields on its own, in the same order |
| Extraction.DocumentOrder | extract_paragraphs.py:30-87 | paragraphs are ordered by page, and within a page by top edge |
| Extraction.ExtractLoop | extract_paragraphs.py:30-87 | the page loop computes `ExtractPages` |
| Extraction.ExtractParagraphs | extract_paragraphs.py:19-112 | a missing file or a failed open yields nothing; otherwise one translated record per extracted paragraph, in order |
| Scenarios.CollapsesWhitespace | extract_paragraphs.py:49-50 | `"Hello\n  world"` normalises to `"Hello world"` |
| Scenarios.ShortLineGeometry | extract_paragraphs.py:57-86 | whatever their texts, a block 190 wide on a 400-wide page absorbs a block starting 3 below it, and the paragraph has the spanning box (10, 10, 380, 45) |
| Scenarios.ShortLineAbsorbsNext | extract_paragraphs.py:57-86 | with the texts `"Short line"` and `"continues here"`, that page yields exactly one paragraph, `"Short line continues here"`, with the spanning box |
| Scenarios.BlankBlocksMergeToSpace | extract_paragraphs.py:69-86 | two close, narrow whitespace-only blocks merge into the paragraph `" "` |
| Scenarios.MergingIsNotTransitive | extract_paragraphs.py:78-87 | of three close narrow lines, the first absorbs the second and the third stands alone |
| Scenarios.WideBlockStandsAlone | extract_paragraphs.py:57 | a block exactly 0.70 of the page wide does not absorb a close successor |

## Left out

- The PDF engine: opening the document, loading pages, reading the page width and listing text blocks (`extract_paragraphs.py:25-38`). The page width and blocks are inputs, and a document is the list of its pages.
- The error messages printed before the two early returns (`extract_paragraphs.py:20,27`). Console output is not modelled; only the empty result is.
- The annotation step `add_annotations_to_pdf_in_memory` and the command-line driver. Both are PDF writing, printing and saving. `verify_pymupdf.py` is not part of this model either: it only checks that the PDF library imports.
- The block number and block type of each block tuple. The code unpacks them but never reads them.
- Floating-point arithmetic. Coordinates are exact reals and the ratio is exactly 7/10. A block whose width lies within rounding distance of `0.70 * page_width` may compare differently in the program. Python's float comparisons with NaN are not modelled.
- Python's sorting algorithm. The model uses an insertion sort, proved to be a stable sort by the same key. Any two stable sorts by the same key produce the same list.
- Python's `str.split()` is modelled on the whitespace set of Python's `str.isspace()`. Surrogates, encodings and normalisation forms play no part.
- ReadingOrder.SortBlocks: uniqueness of the stable sort is stated in words above, not proved as a lemma.
- Merger.TopsNonDecreasing: orders paragraphs by top edge only, not by the full `(y0, x0)` key of their boxes. The emission order itself is the walk order, by construction of `Merger.EmitAll` over `Walk.Schedule`.
