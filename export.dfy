/**
 * The Markdown exporter: every slide becomes a block of lines (heading, blank
 * line, the fixed metadata lines, then the optional body, image and notes
 * lines), the lines of a block are joined by newlines, and the blocks are
 * joined by a blank-line-padded `---` rule.
 */
module Export {

  import opened Optional
  import opened Strings
  import opened Slides

  /** What goes between two exported slides. */
  const BlockSeparator: string := "\n\n---\n\n"

  /** The spelling of a slide type in the record (and so in a template literal). */
  function TypeName(t: SlideType): string {
    match t
    case Standard => "standard"
    case Hero => "hero"
    case Data => "data"
    case Dark => "dark"
  }

  /** Reads a type name back; the partner of `TypeName`. */
  function TypeFromName(name: string): (r: Option<SlideType>)
    ensures r.Some? ==> TypeName(r.value) == name
  {
    if name == "standard" then Some(Standard)
    else if name == "hero" then Some(Hero)
    else if name == "data" then Some(Data)
    else if name == "dark" then Some(Dark)
    else None
  }

  /** The spelling of a layout in the record. */
  function LayoutName(l: Layout): string {
    match l
    case Center => "center"
    case Grid2 => "grid-2"
    case Grid3 => "grid-3"
    case Stack => "stack"
  }

  /** Reads a layout name back; the partner of `LayoutName`. */
  function LayoutFromName(name: string): (r: Option<Layout>)
    ensures r.Some? ==> LayoutName(r.value) == name
  {
    if name == "center" then Some(Center)
    else if name == "grid-2" then Some(Grid2)
    else if name == "grid-3" then Some(Grid3)
    else if name == "stack" then Some(Stack)
    else None
  }

  /** How a template literal writes a boolean. */
  function BoolName(b: bool): string {
    if b then "true" else "false"
  }

  /** Every type, layout and flag written by the exporter is read back as itself. */
  lemma NamesRoundTrip(t: SlideType, l: Layout, b: bool)
    ensures TypeFromName(TypeName(t)) == Some(t)
    ensures LayoutFromName(LayoutName(l)) == Some(l)
    ensures (BoolName(b) == "true") == b && (BoolName(b) == "true" || BoolName(b) == "false")
  {
  }

  /** The body is written only when it is present and has at least one item. */
  predicate HasBody(s: Slide) {
    s.body.Some? && |s.body.value| > 0
  }

  /** One `- item` line per body item, in order. */
  function BulletLines(items: seq<string>): (r: seq<string>)
    ensures |r| == |items|
  {
    if items == [] then [] else ["- " + items[0]] + BulletLines(items[1..])
  }

  /** The heading, the blank line and the four metadata lines every block starts with. */
  function Header(s: Slide): seq<string> {
    ["# " + s.headline, "",
     "Chapter: " + s.chapter,
     "Type: " + TypeName(s.slideType),
     "Layout: " + LayoutName(s.layout),
     "Accent: " + BoolName(s.accent)]
  }

  function BodyPart(s: Slide): seq<string> {
    if HasBody(s) then ["Body:"] + BulletLines(s.body.value) else []
  }

  /** The alternative text is written only under an image line. */
  function ImagePart(s: Slide): seq<string> {
    if Truthy(s.image) then
      ["Image: " + s.image.value] + (if Truthy(s.imageAlt) then ["ImageAlt: " + s.imageAlt.value] else [])
    else []
  }

  function NotesPart(s: Slide): seq<string> {
    if Truthy(s.notes) then ["Notes: " + s.notes.value] else []
  }

  /** The lines of one exported slide, in the order the exporter pushes them. */
  function Parts(s: Slide): seq<string> {
    Header(s) + BodyPart(s) + ImagePart(s) + NotesPart(s)
  }

  /** One exported slide. */
  function Block(s: Slide): string {
    JoinWith(Parts(s), "\n")
  }

  function Blocks(slides: seq<Slide>): (r: seq<string>)
    ensures |r| == |slides|
  {
    if slides == [] then [] else [Block(slides[0])] + Blocks(slides[1..])
  }

  /** The whole export of a deck. */
  function GenerateMarkdown(slides: seq<Slide>): string {
    JoinWith(Blocks(slides), BlockSeparator)
  }

  lemma {:induction false} BulletLinesAt(items: seq<string>)
    ensures forall i :: 0 <= i < |items| ==> BulletLines(items)[i] == "- " + items[i]
    decreases |items|
  {
    if items != [] {
      BulletLinesAt(items[1..]);
    }
  }

  lemma {:induction false} BulletLinesSnoc(items: seq<string>, item: string)
    ensures BulletLines(items + [item]) == BulletLines(items) + ["- " + item]
    decreases |items|
  {
    if items == [] {
      assert items + [item] == [item];
    } else {
      assert (items + [item])[1..] == items[1..] + [item];
      BulletLinesSnoc(items[1..], item);
    }
  }

  /** Pushes one `- item` line per item, in order. */
  method PushBullets(parts: seq<string>, items: seq<string>) returns (parts': seq<string>)
    ensures parts' == parts + BulletLines(items)
  {
    parts' := parts;
    var i := 0;
    while i < |items|
      invariant 0 <= i <= |items|
      invariant parts' == parts + BulletLines(items[..i])
    {
      BulletLinesSnoc(items[..i], items[i]);
      assert items[..i + 1] == items[..i] + [items[i]];
      parts' := parts' + ["- " + items[i]];
      i := i + 1;
    }
    assert items[..i] == items;
  }

  /** Builds the lines of one slide the way the exporter does, pushing one line at a time. */
  method BuildParts(s: Slide) returns (parts: seq<string>)
    ensures parts == Parts(s)
  {
    parts := ["# " + s.headline, ""];
    parts := parts + ["Chapter: " + s.chapter];
    parts := parts + ["Type: " + TypeName(s.slideType)];
    parts := parts + ["Layout: " + LayoutName(s.layout)];
    parts := parts + ["Accent: " + BoolName(s.accent)];
    assert parts == Header(s);
    if s.body.Some? && |s.body.value| > 0 {
      parts := parts + ["Body:"];
      parts := PushBullets(parts, s.body.value);
    }
    assert parts == Header(s) + BodyPart(s);
    if s.image.Some? && s.image.value != [] {
      parts := parts + ["Image: " + s.image.value];
      if s.imageAlt.Some? && s.imageAlt.value != [] {
        parts := parts + ["ImageAlt: " + s.imageAlt.value];
      }
    }
    assert parts == Header(s) + BodyPart(s) + ImagePart(s);
    if s.notes.Some? && s.notes.value != [] {
      parts := parts + ["Notes: " + s.notes.value];
    }
  }

  /**
   * The fixed shape of an exported slide: heading, blank line, chapter, type,
   * layout and accent lines always come first and in that order, then the
   * body header and one line per item, then the image and its alternative
   * text, and the notes last.
   */
  lemma PartsLayout(s: Slide)
    ensures var p := Parts(s);
      var b := if HasBody(s) then 1 + |s.body.value| else 0;
      var m := if Truthy(s.image) then (if Truthy(s.imageAlt) then 2 else 1) else 0;
      var n := if Truthy(s.notes) then 1 else 0;
      |p| == 6 + b + m + n
      && p[0] == "# " + s.headline && p[1] == ""
      && p[2] == "Chapter: " + s.chapter
      && p[3] == "Type: " + TypeName(s.slideType)
      && p[4] == "Layout: " + LayoutName(s.layout)
      && p[5] == "Accent: " + BoolName(s.accent)
      && (HasBody(s) ==>
            p[6] == "Body:" && (forall i :: 0 <= i < |s.body.value| ==> p[7 + i] == "- " + s.body.value[i]))
      && (Truthy(s.image) ==> p[6 + b] == "Image: " + s.image.value)
      && (Truthy(s.image) && Truthy(s.imageAlt) ==> p[7 + b] == "ImageAlt: " + s.imageAlt.value)
      && (Truthy(s.notes) ==> p[|p| - 1] == "Notes: " + s.notes.value)
  {
    if HasBody(s) {
      BulletLinesAt(s.body.value);
    }
  }

  /** Some line of `lines` starts with `prefix`. */
  predicate HasLine(lines: seq<string>, prefix: string) {
    exists i :: 0 <= i < |lines| && StartsWith(lines[i], prefix)
  }

  lemma DiffersAt(line: string, prefix: string, j: nat)
    requires j < |line| && j < |prefix| && line[j] != prefix[j]
    ensures !StartsWith(line, prefix)
  {
    if |prefix| <= |line| {
      assert line[..|prefix|][j] == line[j];
    }
  }

  /** No header or bullet line starts with a body, image or notes label. */
  lemma FixedLinesAvoid(s: Slide, prefix: string)
    requires |prefix| > 0 && (prefix[0] == 'B' || prefix[0] == 'I' || prefix[0] == 'N')
    ensures forall i :: 0 <= i < 6 ==> !StartsWith(Parts(s)[i], prefix)
    ensures HasBody(s) ==>
      forall i :: 7 <= i < 7 + |s.body.value| ==> !StartsWith(Parts(s)[i], prefix)
  {
    var p := Parts(s);
    PartsLayout(s);
    forall i | 0 <= i < 6
      ensures !StartsWith(p[i], prefix)
    {
      if i != 1 {
        DiffersAt(p[i], prefix, 0);
      }
    }
    if HasBody(s) {
      forall i | 7 <= i < 7 + |s.body.value|
        ensures !StartsWith(p[i], prefix)
      {
        assert p[i] == "- " + s.body.value[i - 7];
        DiffersAt(p[i], prefix, 0);
      }
    }
  }

  /** A `Body:` line is written exactly when the body has items. */
  lemma BodyWrittenIff(s: Slide)
    ensures HasLine(Parts(s), "Body:") <==> HasBody(s)
  {
    var p := Parts(s);
    PartsLayout(s);
    FixedLinesAvoid(s, "Body:");
    if HasBody(s) {
      assert StartsWith(p[6], "Body:");
    } else {
      forall i | 6 <= i < |p|
        ensures !StartsWith(p[i], "Body:")
      {
        DiffersAt(p[i], "Body:", 0);
      }
    }
  }

  /** An `Image:` line is written exactly when the slide has a non-empty image. */
  lemma ImageWrittenIff(s: Slide)
    ensures HasLine(Parts(s), "Image: ") <==> Truthy(s.image)
  {
    var p := Parts(s);
    var b := if HasBody(s) then 1 + |s.body.value| else 0;
    PartsLayout(s);
    FixedLinesAvoid(s, "Image: ");
    if Truthy(s.image) {
      assert StartsWith(p[6 + b], "Image: ");
    } else {
      forall i | 6 <= i < |p|
        ensures !StartsWith(p[i], "Image: ")
      {
        if i >= 6 + b || i == 6 {
          DiffersAt(p[i], "Image: ", 0);
        }
      }
    }
  }

  /**
   * An `ImageAlt:` line is written exactly when the slide has both a
   * non-empty image and a non-empty alternative text: a text without an
   * image is dropped.
   */
  lemma ImageAltWrittenIff(s: Slide)
    ensures HasLine(Parts(s), "ImageAlt: ") <==> Truthy(s.image) && Truthy(s.imageAlt)
  {
    var p := Parts(s);
    var b := if HasBody(s) then 1 + |s.body.value| else 0;
    PartsLayout(s);
    FixedLinesAvoid(s, "ImageAlt: ");
    if Truthy(s.image) && Truthy(s.imageAlt) {
      assert StartsWith(p[7 + b], "ImageAlt: ");
    } else {
      forall i | 6 <= i < |p|
        ensures !StartsWith(p[i], "ImageAlt: ")
      {
        if i == 6 + b && Truthy(s.image) {
          DiffersAt(p[i], "ImageAlt: ", 5);
        } else if i >= 6 + b || i == 6 {
          DiffersAt(p[i], "ImageAlt: ", 0);
        }
      }
    }
  }

  /** A `Notes:` line is written exactly when the notes are non-empty, and then it is the last line. */
  lemma NotesWrittenIff(s: Slide)
    ensures HasLine(Parts(s), "Notes: ") <==> Truthy(s.notes)
    ensures Truthy(s.notes) ==> StartsWith(Parts(s)[|Parts(s)| - 1], "Notes: ")
  {
    var p := Parts(s);
    var b := if HasBody(s) then 1 + |s.body.value| else 0;
    PartsLayout(s);
    FixedLinesAvoid(s, "Notes: ");
    if Truthy(s.notes) {
      assert StartsWith(p[|p| - 1], "Notes: ");
    } else {
      forall i | 6 <= i < |p|
        ensures !StartsWith(p[i], "Notes: ")
      {
        if i >= 6 + b || i == 6 {
          DiffersAt(p[i], "Notes: ", 0);
        }
      }
    }
  }

  /** No text field of the slide holds a line break. */
  predicate FieldsSingleLine(s: Slide) {
    '\n' !in s.headline && '\n' !in s.chapter
    && (s.body.Some? ==> forall item :: item in s.body.value ==> '\n' !in item)
    && (s.notes.Some? ==> '\n' !in s.notes.value)
    && (s.image.Some? ==> '\n' !in s.image.value)
    && (s.imageAlt.Some? ==> '\n' !in s.imageAlt.value)
  }

  lemma {:induction false} BulletLinesSingleLine(items: seq<string>)
    requires forall item :: item in items ==> '\n' !in item
    ensures forall line :: line in BulletLines(items) ==> '\n' !in line
    decreases |items|
  {
    if items != [] {
      assert items[0] in items;
      BulletLinesSingleLine(items[1..]);
    }
  }

  lemma LabelledSingleLine(tag: string, value: string)
    requires '\n' !in tag && '\n' !in value
    ensures '\n' !in tag + value
  {
  }

  lemma HeaderSingleLine(s: Slide)
    requires '\n' !in s.headline && '\n' !in s.chapter
    ensures forall line :: line in Header(s) ==> '\n' !in line
  {
    LabelledSingleLine("# ", s.headline);
    LabelledSingleLine("Chapter: ", s.chapter);
    LabelledSingleLine("Type: ", TypeName(s.slideType));
    LabelledSingleLine("Layout: ", LayoutName(s.layout));
    LabelledSingleLine("Accent: ", BoolName(s.accent));
  }

  lemma PartsSingleLine(s: Slide)
    requires FieldsSingleLine(s)
    ensures forall line :: line in Parts(s) ==> '\n' !in line
  {
    HeaderSingleLine(s);
    if HasBody(s) {
      BulletLinesSingleLine(s.body.value);
    }
    assert forall line :: line in BodyPart(s) ==> '\n' !in line;
    if Truthy(s.image) {
      LabelledSingleLine("Image: ", s.image.value);
      if Truthy(s.imageAlt) {
        LabelledSingleLine("ImageAlt: ", s.imageAlt.value);
      }
    }
    assert forall line :: line in ImagePart(s) ==> '\n' !in line;
    if Truthy(s.notes) {
      LabelledSingleLine("Notes: ", s.notes.value);
    }
    assert forall line :: line in NotesPart(s) ==> '\n' !in line;
  }

  /**
   * Splitting an exported slide at its line breaks gives back exactly the
   * lines the exporter wrote, as long as no field holds a line break.
   */
  lemma BlockLines(s: Slide)
    requires FieldsSingleLine(s)
    ensures Split(Block(s), "\n") == Parts(s)
  {
    PartsSingleLine(s);
    SplitJoinOnChar(Parts(s), '\n');
  }

  /** The lines of an export: the slides' lines with a blank, `---`, blank triple between slides. */
  function DeckLines(slides: seq<Slide>): seq<string>
    decreases |slides|
  {
    if |slides| == 0 then []
    else if |slides| == 1 then Parts(slides[0])
    else Parts(slides[0]) + ["", "---", ""] + DeckLines(slides[1..])
  }

  lemma {:induction false} DeckLinesJoin(slides: seq<Slide>)
    ensures JoinWith(DeckLines(slides), "\n") == GenerateMarkdown(slides)
    decreases |slides|
  {
    if |slides| >= 2 {
      var p0 := Parts(slides[0]);
      var rest := DeckLines(slides[1..]);
      DeckLinesJoin(slides[1..]);
      assert |p0| > 0 && |rest| > 0;
      JoinAcrossRule(p0, rest);
      assert Blocks(slides)[1..] == Blocks(slides[1..]);
    }
  }

  /** Lines joined across a blank, `---`, blank triple read as two blocks joined by the separator. */
  lemma JoinAcrossRule(a: seq<string>, b: seq<string>)
    requires |a| > 0 && |b| > 0
    ensures JoinWith(a + ["", "---", ""] + b, "\n") == JoinWith(a, "\n") + BlockSeparator + JoinWith(b, "\n")
  {
    var rule := ["", "---", ""];
    var x, y := JoinWith(a, "\n"), JoinWith(b, "\n");
    var nl: string, r: string := "\n", "\n---\n";
    assert a + rule + b == a + (rule + b);
    JoinWithAppend(a, rule + b, nl);
    JoinWithAppend(rule, b, nl);
    assert JoinWith(rule, nl) == r;
    assert nl + (r + nl) == BlockSeparator;
    calc {
      JoinWith(a + rule + b, nl);
      x + nl + (r + nl + y);
      { SeqAssoc(x, nl, r + nl + y); }
      x + (nl + (r + nl + y));
      { SeqAssoc(nl, r + nl, y); }
      x + (nl + (r + nl) + y);
      x + (BlockSeparator + y);
      { SeqAssoc(x, BlockSeparator, y); }
      x + BlockSeparator + y;
    }
  }

  lemma {:induction false} DeckLinesSingleLine(slides: seq<Slide>)
    requires forall s :: s in slides ==> FieldsSingleLine(s)
    ensures forall line :: line in DeckLines(slides) ==> '\n' !in line
    decreases |slides|
  {
    if |slides| > 0 {
      assert slides[0] in slides;
      PartsSingleLine(slides[0]);
      if |slides| > 1 {
        DeckLinesSingleLine(slides[1..]);
      }
    }
  }

  /**
   * The lines of a whole export, read back: each slide's own lines, in deck
   * order, with the rule `---` between blank lines separating two slides.
   */
  lemma ExportLines(slides: seq<Slide>)
    requires |slides| > 0
    requires forall s :: s in slides ==> FieldsSingleLine(s)
    ensures Split(GenerateMarkdown(slides), "\n") == DeckLines(slides)
  {
    DeckLinesJoin(slides);
    DeckLinesSingleLine(slides);
    assert |DeckLines(slides)| > 0;
    SplitJoinOnChar(DeckLines(slides), '\n');
  }

  lemma {:induction false} BlocksSnoc(slides: seq<Slide>, s: Slide)
    ensures Blocks(slides + [s]) == Blocks(slides) + [Block(s)]
    decreases |slides|
  {
    if slides == [] {
      assert slides + [s] == [s];
    } else {
      assert (slides + [s])[1..] == slides[1..] + [s];
      BlocksSnoc(slides[1..], s);
    }
  }

  /**
   * An empty deck exports to the empty string, and adding a slide at the end
   * adds its block after a separator (or alone, for the first slide).
   */
  lemma GenerateSnoc(slides: seq<Slide>, s: Slide)
    ensures GenerateMarkdown([]) == []
    ensures GenerateMarkdown(slides + [s])
      == if slides == [] then Block(s) else GenerateMarkdown(slides) + BlockSeparator + Block(s)
  {
    BlocksSnoc(slides, s);
    if slides == [] {
      assert Blocks([s]) == [Block(s)];
    } else {
      JoinWithAppend(Blocks(slides), [Block(s)], BlockSeparator);
    }
  }
}
