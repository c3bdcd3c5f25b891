/** The slide record that the viewer shows and the exporter writes out. */
module Slides {

  import opened Optional

  /** The four visual types of a slide. */
  datatype SlideType = Standard | Hero | Data | Dark

  /** The four layouts of a slide. */
  datatype Layout = Center | Grid2 | Grid3 | Stack

  /**
   * One slide.  The optional fields of the record are `Option`s; `id` is an
   * integer (the deck only ever stores whole numbers there).
   */
  datatype Slide = Slide(
    id: int,
    chapter: string,
    headline: string,
    body: Option<seq<string>>,
    notes: Option<string>,
    slideType: SlideType,
    layout: Layout,
    accent: bool,
    image: Option<string>,
    imageAlt: Option<string>)
}
