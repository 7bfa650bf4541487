/**
  The records that flow through the pipeline: the text blocks the PDF engine
  reports for a page, the paragraphs the merger builds from them, and the
  paragraphs after the translation step.
 */
module Records {
  import opened Geometry

  /**
    One entry of the page's block list `(x0, y0, x1, y1, text, block_no,
    block_type)`; the two trailing metadata fields are never read.
   */
  datatype Block = Block(box: Box, text: string)

  /** A paragraph dictionary: `original_text`, `position`, `page_num`. */
  datatype Paragraph = Paragraph(originalText: string, position: Box, pageNum: nat)

  /** A paragraph dictionary once `translated_text` has been added. */
  datatype TranslatedParagraph =
    TranslatedParagraph(originalText: string, translatedText: string, position: Box, pageNum: nat)
}
