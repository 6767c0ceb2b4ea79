/** The values the outline engine works on. */
module Blocks {

  /**
    One rendered line of a document page, as the page-text extractor delivers it:
    its text, 1-based page number, average font size, bold flag, top y coordinate
    and the raw font flags of its spans (only ever compared for equality).
  */
  datatype TextBlock = TextBlock(
    text: string,
    page: nat,
    fontSize: real,
    isBold: bool,
    yPosition: real,
    flags: seq<int>)

  datatype Level = H1 | H2 | H3

  /** The label a level is written and sorted as. */
  function Label(l: Level): string {
    match l
    case H1 => "H1"
    case H2 => "H2"
    case H3 => "H3"
  }

  /** The verdict of the heading classifier: a heading level, or the label "text". */
  datatype Class = Heading(level: Level) | Body

  datatype FontStats = FontStats(median: real, large: real, veryLarge: real)

  /** One entry of the outline: `{"level", "text", "page"}`. */
  datatype HeadingEntry = HeadingEntry(level: Level, text: string, page: nat)

  /** The result of one document: `{"title", "outline"}`. */
  datatype Outline = Outline(title: string, headings: seq<HeadingEntry>)
}
