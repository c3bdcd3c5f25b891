# Slide-deck viewer: parser, exporter and viewer state in Dafny

This project models the core of a React slide-deck viewer. The model has three parts:

- **The deck parser** (`parseSlides`). It turns a text document into slide records. The document is cut into sections on the exact text `"\n---\n"`, and sections that are blank once trimmed are dropped. Each remaining section is read line by line.
  - The first `# ` heading becomes the title.
  - Each correctly cased `Chapter:`, `Kind:`, `Subtitle:`, `Notes:`, `Image:` or `ImageAlt:` line sets its field, and a later line for the same key overrides an earlier one.
  - A `bullets:` line, in any case, switches bullet mode on. In bullet mode every other non-blank line becomes an item: the text after a `-`/`*` marker and whitespace, or the whole line.
  - A key written in another case (say `notes:`) ends bullet mode. The line is then read again and ignored.
  - A section without a title or a chapter yields no slide. Ids are the 1-based positions of the non-blank sections.
- **The Markdown exporter** (`generateMarkdown`). Each slide becomes a heading, a blank line, and the `Chapter:`, `Type:`, `Layout:` and `Accent:` lines. These are followed by an optional `Body:` list, optional `Image:`/`ImageAlt:` lines and an optional `Notes:` line. Blocks are joined by a `---` rule padded with blank lines.
- **The viewer state** of `App`. It holds the deck, the index of the slide on screen, the zoom flag and whether the slide picker is open. It has these handlers:
  - next and previous, clamped to the deck;
  - jump from the picker, which closes it;
  - an image update by slide id;
  - keyboard: right arrow and space go forward, left arrow goes back, `z`/`Z` toggles zoom;
  - opening and closing the picker.

  The model also covers what the page shows: "no slides" when the index is outside the deck; otherwise the slide, its chapter, the progress, the counter and the page's class list.

Modules:

- `optional.dfy`: `Option`, the model of an optional field or `undefined`.
- `strings.dfy`: the JavaScript string primitives the code relies on. These are `trim` and the whitespace set it shares with `\s`, `startsWith`, ASCII case folding, `split` with a string separator, and `join`.
- `parser.dfy`: the parser.
  - As functions: `LineStep` for one line, `ScanLines` for the fold over a section, `SectionSlide`, and `ParseDeck` for the whole parse.
  - As methods shaped like the source: `ScanSection`, whose loop index steps back to reread a line; `ParseLines`; `ParseSection`; `CollectSlides`; and `ParseSlides`. Each method is proved equal to its function.
- `parser_facts.dfy`: what the parse guarantees, stated over a section's lines and over the document.
- `slides.dfy`: the `Slide` record of the viewer and exporter.
- `export.dfy`: the exporter, with `BuildParts` mirroring the push-one-line-at-a-time code.
- `viewer.dfy`: the pure transitions, the rendered screen, event runs, and the class `App`. Each handler of `App` is proved to perform its transition.

The model follows what the code does, including where that differs from what a reader of the file format might expect:

- Sections are cut wherever the exact text `"\n---\n"` occurs. Blank lines around the rule do no harm: the cut still happens, and the extra line breaks become blank lines that the line loop skips. What defeats the cut is `\r\n` line endings, anything else on the rule line (spaces included), or a rule at the very start or end of the document with no line break on that side.
- Besides `Chapter`, `Notes`, `Image` and `ImageAlt`, the parser's keys are `Kind`, `Subtitle` and `bullets:`. It reads no `Type:`, `Layout:`, `Accent:` or `Body:` line.
- Ids are section positions, so a dropped section leaves a gap in the ids (`ParserFacts.ParseDeckSpec` proves strictly increasing ids, not contiguous ones).
- The parser's record is not the viewer's `Slide`: it has `title`, `kind`, `subtitle` and `bullets` where `Slide` has `headline`, `type`, `layout`, `accent` and `body`. The source only casts it (`src/parseSlides.ts:96`). The model therefore keeps two record types, `Parser.ParsedSlide` and `Slides.Slide`.
  - It follows that the exporter's output is not read back by the parser.
  - The round trip the model does prove is at the level of lines. When no field holds a line break, splitting an export at its line breaks gives back exactly the lines the exporter wrote, slide by slide (`Export.ExportLines`).

## Model

| member | source | states |
|---|---|---|
| Strings.IsWhitespace | src/parseSlides.ts:18 | JavaScript's WhiteSpace and LineTerminator characters, the set `trim` removes and `\s` matches; `Strings.TrimSpec` and `Parser.WhitespaceRunSpec` state how it is used |
| Strings.TrimStartSpec | src/parseSlides.ts:18 | the leading part of `trim` keeps a suffix of the line, removes only whitespace and stops at the first other character |
| Strings.TrimEndSpec | src/parseSlides.ts:18 | the trailing part of `trim` keeps a prefix, removes only whitespace and stops at the last other character |
| Strings.TrimSpec | src/parseSlides.ts:18 | a trimmed line is the slice between an all-whitespace head and an all-whitespace tail, and has whitespace at neither end |
| Strings.TrimEmpty | src/parseSlides.ts:21 | a line trims to the empty string exactly when it is all whitespace (the blank-line skip, and the blank-section filter at line 5) |
| Strings.TrimOfTrimmed | src/parseSlides.ts:79 | trimming an already trimmed line changes nothing, so the second `trim` test at line 79 never rejects a non-blank line |
| Strings.Trim | src/parseSlides.ts:18 | `trim` never lengthens a line; what it removes is stated by `Strings.TrimSpec` and `Strings.TrimEmpty` |
| Strings.StartsWith | src/parseSlides.ts:24 | the exact-case prefix test; `Parser.ExactKey` and `Parser.KeyPrefixesExclusive` state what it selects among the keys |
| Strings.LowerAscii | src/parseSlides.ts:62 | case folding maps each ASCII capital to the small form of the same letter and keeps every other character |
| Strings.LowerAsciiSame | src/parseSlides.ts:62-69 | two characters fold alike exactly when they are equal or are the same ASCII letter in the two cases |
| Strings.ToLower | src/parseSlides.ts:62 | folding keeps the length; `Strings.ToLowerEqual` states what a comparison of folded strings accepts |
| Strings.ToLowerAt | src/parseSlides.ts:62 | folding a string folds each of its characters in place |
| Strings.ToLowerEqual | src/parseSlides.ts:62-69 | two strings fold to the same string exactly when they have the same length and agree at every position up to ASCII case |
| Strings.StartsWithIgnoringCaseSpec | src/parseSlides.ts:69 | a case-blind prefix test accepts exactly the strings whose first characters match the prefix up to ASCII case |
| Strings.FindFrom | src/parseSlides.ts:5 | the result is the leftmost occurrence of the separator at or after the start position, and there is none when it returns nothing |
| Strings.Split | src/parseSlides.ts:5 | a split yields at least one piece; `Strings.SplitCutsLeftmost` and `Strings.JoinSplit` state that it cuts at the leftmost occurrence and continues after it |
| Strings.SplitCutsLeftmost | src/parseSlides.ts:5 | every piece but the last, followed by the separator, holds the separator only at its end, and the last piece holds none: each cut is at the leftmost occurrence, even for a separator that overlaps itself |
| Strings.JoinWith | src/utils/markdownExport.ts:31-33 | `join` puts the separator between consecutive pieces; `Strings.JoinWithAppend` and `Strings.JoinSplit` state it |
| Strings.JoinSplit | src/parseSlides.ts:5 | joining the pieces of a split with the separator gives back the document |
| Strings.SplitPiecesAvoidSeparator | src/parseSlides.ts:5 | no piece of a split contains the separator |
| Strings.JoinWithAppend | src/utils/markdownExport.ts:33 | joining two non-empty lists is joining each and putting the separator between them |
| Strings.SplitJoinOnChar | src/parseSlides.ts:13 | splitting on a character gives back exactly the pieces that were joined with it, when no piece contains it |
| Parser.KeyPrefixesExclusive | src/parseSlides.ts:30-59 | a line starts with at most one correctly cased key, so the order of the key tests does not matter |
| Parser.ExactKey | src/parseSlides.ts:30-59 | each of the six key prefixes selects its own key; no key is selected exactly when the line starts with none of them |
| Parser.MatchesKeyIgnoringCase | src/parseSlides.ts:69 | the case-blind key pattern; `ParserFacts.KeyMatchAccepts` states which lines it accepts |
| Parser.KindOf | src/parseSlides.ts:37 | the kind is `lossAversion` for that exact value and `default` for any other; `ParserFacts.DraftStepKind` and `ParserFacts.FoldKind` use it |
| Parser.Store | src/parseSlides.ts:30-59 | storing a value keeps the id and the title; `ParserFacts.DraftStepText` states that exactly the key's field changes |
| Parser.ValueAfter | src/parseSlides.ts:31-57 | the trimmed rest of a key line after its key; `Parser.ReadMetaLine` proves the literal offsets give it |
| Parser.BulletMatch | src/parseSlides.ts:76 | the bullet pattern and its capture; `ParserFacts.BulletMatchSound` and `ParserFacts.BulletMatchComplete` state what it accepts |
| Parser.ItemOf | src/parseSlides.ts:76-82 | the item a line gives in bullet mode; `ParserFacts.ItemOfTrimmed` states it is non-empty and trimmed |
| Parser.InitialState | src/parseSlides.ts:8-15 | a section starts with its id, the default kind, no other field, bullet mode off and no items; `ParserFacts.SectionSlideFields` builds on it |
| Parser.WhitespaceRunSpec | src/parseSlides.ts:76 | the greedy `\s+` run is all whitespace and ends at the end of the line or at a non-whitespace character |
| Parser.LineStep | src/parseSlides.ts:17-83 | one line keeps the slide's id and either leaves the bullet list unchanged or appends exactly the item that line gives |
| Parser.ScanLines | src/parseSlides.ts:17-84 | scanning the lines of a section keeps the id the section was given |
| Parser.Finish | src/parseSlides.ts:86-96 | a slide is produced exactly when title and chapter are non-empty; it keeps the id; bullets are attached exactly when some were collected, and then they are the collected list |
| Parser.Lines | src/parseSlides.ts:13 | a section's lines; `Strings.SplitJoinOnChar` states that they are the pieces between its line breaks |
| Parser.SectionSlide | src/parseSlides.ts:7-96 | the slide of a section carries the id it was given and a non-empty title and chapter |
| Parser.NonBlank | src/parseSlides.ts:5 | the kept sections are exactly the pieces that are not blank once trimmed, and there are no more of them than pieces |
| Parser.NonBlankAppend | src/parseSlides.ts:5 | filtering a concatenation filters each part, so the kept sections keep their order and their repetitions |
| Parser.Sections | src/parseSlides.ts:5 | the sections the parser reads; `ParserFacts.SectionsSpec` states them |
| Parser.SectionResults | src/parseSlides.ts:7-9 | there is one result per section |
| Parser.SectionResultAt | src/parseSlides.ts:9 | the result of section `j` (from 0) is the section read under id `j + 1` |
| Parser.SectionResultsValid | src/parseSlides.ts:91 | every result carries its section's position as id and has a non-empty title and chapter |
| Parser.Kept | src/parseSlides.ts:91-96 | the valid results pushed in order, with no more slides than results; `Parser.KeptStep`, `Parser.KeptFromSections` and `Parser.KeptComplete` state the drop-or-push |
| Parser.KeptStep | src/parseSlides.ts:91-96 | reading one more section adds its slide to the deck, or nothing when validation fails |
| Parser.KeptFromSections | src/parseSlides.ts:96 | every slide in the deck is the result of the section its id names |
| Parser.KeptIdsIncrease | src/parseSlides.ts:96 | ids strictly increase along the deck |
| Parser.KeptComplete | src/parseSlides.ts:96 | every section that yields a slide has it in the deck |
| Parser.StepBlank | src/parseSlides.ts:21 | a blank line changes nothing |
| Parser.StepTitle | src/parseSlides.ts:24-27 | a heading line sets the title when there is none yet |
| Parser.StepKey | src/parseSlides.ts:30-59 | a correctly cased key line stores its trimmed value whatever the bullet mode, and changes nothing else |
| Parser.StepBulletsHeader | src/parseSlides.ts:62-65 | a `bullets:` line in any case switches bullet mode on |
| Parser.StepIgnored | src/parseSlides.ts:67 | outside bullet mode any other line is ignored |
| Parser.StepReprocess | src/parseSlides.ts:69-73 | in bullet mode a key line in another case ends bullet mode and the line is read again |
| Parser.StepItem | src/parseSlides.ts:76-82 | in bullet mode any other line appends its item |
| Parser.ReadMetaLine | src/parseSlides.ts:30-59 | the key tests with their literal offsets store the same value in the same field as `Store` |
| Parser.ReadLine | src/parseSlides.ts:18-83 | one pass of the loop body is `LineStep`, or it requests a reread that gives the same `LineStep` |
| Parser.ScanAdvance | src/parseSlides.ts:71 | stepping the index back for a reread or forward after a line keeps the rest of the scan unchanged |
| Parser.ScanSection | src/parseSlides.ts:14-84 | the loop over a section's lines, whose index is stepped back to reread a line, ends (each line is read at most twice) in the state of the fold `ScanLines` |
| Parser.ParseLines | src/parseSlides.ts:14-95 | the loop followed by validation gives `Finish` of the fold |
| Parser.ParseSection | src/parseSlides.ts:13-95 | reading one section gives `SectionSlide` |
| Parser.CollectSlides | src/parseSlides.ts:7-97 | the loop over sections pushes exactly the valid slides, in order, with their positions as ids |
| Parser.ParseDeck | src/parseSlides.ts:3-100 | the whole parse as a function; `ParserFacts.ParseDeckSpec` states what it yields |
| Parser.ParseSlides | src/parseSlides.ts:3-100 | the whole parse equals `ParseDeck` |
| ParserFacts.LineStepDraft | src/parseSlides.ts:17-83 | the effect of a line on the slide's fields does not depend on bullet mode or on a reread |
| ParserFacts.ScanDraft | src/parseSlides.ts:17-84 | the fields after a section are the fold of the field effects of its lines |
| ParserFacts.HeadingTextNonEmpty | src/parseSlides.ts:24-25 | a heading line always yields a non-empty title, because a trimmed line cannot end in the space after `#` |
| ParserFacts.FirstHeadingNonEmpty | src/parseSlides.ts:24-25 | the first heading of a section is never empty |
| ParserFacts.FoldTitle | src/parseSlides.ts:24-27 | the title is the first heading: a title already set is kept, otherwise the first heading line sets it |
| ParserFacts.KeyLineIsNotHeading | src/parseSlides.ts:24-31 | a key line never starts with `# `, so the title branch cannot take it |
| ParserFacts.DraftStepText | src/parseSlides.ts:30-59 | a line sets a text field exactly when it is a line for that key |
| ParserFacts.DraftStepKind | src/parseSlides.ts:35-38 | a `Kind:` line sets the kind to the normalised value |
| ParserFacts.FoldText | src/parseSlides.ts:30-59 | chapter, subtitle, notes, image and alt text hold the last value given for their key |
| ParserFacts.FoldKind | src/parseSlides.ts:35-38 | the kind is normalised from the last `Kind:` value |
| ParserFacts.SectionSlideFields | src/parseSlides.ts:7-96 | a section yields a slide exactly when it has a heading and a non-empty last chapter; the title is the first heading, each field the last value for its key, and the kind is `lossAversion` exactly when the last `Kind:` value is |
| ParserFacts.LaterHeading | src/parseSlides.ts:24-82 | a heading line after the title is ignored outside bullet mode and becomes an item word for word inside it |
| ParserFacts.LineStepBlankItem | src/parseSlides.ts:21 | blank lines add no item, and every line that adds one is non-blank |
| ParserFacts.ScanBulletsFromLines | src/parseSlides.ts:67-83 | items already collected are kept, and new items are a subsequence of the items of the section's non-blank lines, in line order |
| ParserFacts.WhitespaceRunOver | src/parseSlides.ts:76 | a whitespace run followed by another character is measured exactly |
| ParserFacts.BulletMatchSound | src/parseSlides.ts:76 | a bullet match starts with `-` or `*` followed by whitespace, and captures the non-empty end of the line, which has no line terminator |
| ParserFacts.BulletMatchComplete | src/parseSlides.ts:76 | a marker, whitespace and a text starting with another character is a match that captures that text |
| ParserFacts.ItemOfTrimmed | src/parseSlides.ts:76-82 | the item of a non-blank trimmed line is non-empty and trimmed |
| ParserFacts.LineItemsTrimmed | src/parseSlides.ts:76-82 | every item a section can yield is non-empty and trimmed |
| ParserFacts.NoHeaderNoBullets | src/parseSlides.ts:62-67 | without a `bullets:` line, bullet mode is never entered and no item is collected |
| ParserFacts.BulletsHeaderAccepts | src/parseSlides.ts:62 | the `bullets:` test accepts exactly the eight-character lines that spell `bullets:` up to ASCII case |
| ParserFacts.KeyMatchAccepts | src/parseSlides.ts:69 | the case-blind key test accepts exactly the lines beginning with one of the six keys up to ASCII case, and every correctly cased key line among them |
| ParserFacts.BulletModeAtKeyLines | src/parseSlides.ts:30-73 | in bullet mode a correctly cased key line leaves bullet mode on; a key line in another case ends it and its value is stored nowhere |
| ParserFacts.SectionSlideBullets | src/parseSlides.ts:62-88 | a slide's bullets are present only when non-empty; they are non-empty trimmed items taken from the section's lines in order; a section without `bullets:` has none |
| ParserFacts.SectionsSpec | src/parseSlides.ts:5 | the sections are the non-blank pieces between separators, none contains the separator, none is missed, and the pieces join back to the document |
| ParserFacts.ParseDeckSpec | src/parseSlides.ts:3-100 | at most one slide per section; ids strictly increase; each slide is what its section yields, with a non-empty title and chapter; no valid section is missed |
| Export.TypeName | src/utils/markdownExport.ts:9 | the spelling of a slide type; `Export.TypeFromName` and `Export.NamesRoundTrip` state that it is read back as that type |
| Export.LayoutName | src/utils/markdownExport.ts:10 | the spelling of a layout; `Export.LayoutFromName` and `Export.NamesRoundTrip` state that it is read back as that layout |
| Export.BoolName | src/utils/markdownExport.ts:11 | the spelling of the accent flag; `Export.NamesRoundTrip` states it is `true` exactly when the flag is set |
| Export.TypeFromName | src/utils/markdownExport.ts:9 | a name read back as a slide type is the name of that type |
| Export.LayoutFromName | src/utils/markdownExport.ts:10 | a name read back as a layout is the name of that layout |
| Export.NamesRoundTrip | src/utils/markdownExport.ts:9-11 | every type and layout the exporter writes is read back as itself, and the accent is written as `true` exactly when it is set |
| Export.BulletLines | src/utils/markdownExport.ts:15-17 | one line per item; `Export.BulletLinesAt` states that line `i` is `- ` followed by item `i` |
| Export.BulletLinesAt | src/utils/markdownExport.ts:15-17 | body line `i` is `- ` followed by item `i` |
| Export.PushBullets | src/utils/markdownExport.ts:15-17 | pushing the items one by one appends exactly one `- item` line per item, in order |
| Export.BuildParts | src/utils/markdownExport.ts:6-29 | the line-by-line pushes build exactly the lines of `Parts` |
| Export.Header | src/utils/markdownExport.ts:6-11 | the six lines every slide starts with; `Export.PartsLayout` states them one by one |
| Export.BodyPart | src/utils/markdownExport.ts:13-18 | the optional body lines; `Export.BodyWrittenIff` states when they are written |
| Export.ImagePart | src/utils/markdownExport.ts:20-25 | the optional image and alt text lines; `Export.ImageWrittenIff` and `Export.ImageAltWrittenIff` state when they are written |
| Export.NotesPart | src/utils/markdownExport.ts:27-29 | the optional notes line; `Export.NotesWrittenIff` states when it is written |
| Export.Parts | src/utils/markdownExport.ts:6-29 | a slide's lines in order; `Export.PartsLayout` states the order and the count |
| Export.PartsLayout | src/utils/markdownExport.ts:6-29 | heading, blank, chapter, type, layout and accent come first in that order, then `Body:` and the items, then image, then alt text, then notes; the line count is 6 plus each optional group's size |
| Export.BodyWrittenIff | src/utils/markdownExport.ts:13-18 | a `Body:` line is written exactly when the body is present and non-empty |
| Export.ImageWrittenIff | src/utils/markdownExport.ts:20-21 | an `Image:` line is written exactly when the image is a non-empty string |
| Export.ImageAltWrittenIff | src/utils/markdownExport.ts:20-25 | an `ImageAlt:` line is written exactly when both image and alt text are non-empty; alt text without an image is dropped |
| Export.NotesWrittenIff | src/utils/markdownExport.ts:27-29 | a `Notes:` line is written exactly when the notes are non-empty, and it is then the last line |
| Export.Block | src/utils/markdownExport.ts:31 | a slide's lines joined by line breaks; `Export.BlockLines` states that the lines can be recovered |
| Export.BlockLines | src/utils/markdownExport.ts:31 | splitting a slide's block at line breaks gives back its lines, when no field holds a line break |
| Export.Blocks | src/utils/markdownExport.ts:4-32 | one block per slide, in deck order; `Export.DeckLinesJoin` and `Export.GenerateSnoc` use it |
| Export.DeckLinesJoin | src/utils/markdownExport.ts:31-33 | the export is the deck's lines joined by line breaks, with a blank, `---`, blank triple between slides |
| Export.ExportLines | src/utils/markdownExport.ts:3-34 | splitting a non-empty export at line breaks gives back each slide's lines in deck order, separated by blank, `---`, blank |
| Export.GenerateMarkdown | src/utils/markdownExport.ts:3-34 | the whole export; `Export.ExportLines` and `Export.GenerateSnoc` state what it is |
| Export.GenerateSnoc | src/utils/markdownExport.ts:4-33 | an empty deck exports to the empty string; adding a slide appends the separator and its block, or its block alone for the first slide |
| Viewer.CurrentSlide | src/App.tsx:14 | there is a current slide exactly when the index is inside the deck, and it is the slide at the index |
| Viewer.Render | src/App.tsx:52-99 | the page shows a slide exactly when the index is inside the deck, and "no slides" otherwise |
| Viewer.Initial | src/App.tsx:9-12 | the starting state; `Viewer.InitialShowsFirst` states what it shows |
| Viewer.ToggleZoom | src/App.tsx:44 | flips the zoom flag; `Viewer.KeyDownEffects` and `Viewer.ZoomTwice` state its effect |
| Viewer.OpenPicker | src/App.tsx:97 | opens the picker; `Viewer.App.OpenSlidePicker` states that nothing else changes |
| Viewer.ClosePicker | src/App.tsx:106 | closes the picker; `Viewer.App.CloseSlidePicker` states that nothing else changes |
| Viewer.Next | src/App.tsx:16-18 | forward, clamped to the last slide; `Viewer.NextStep` and `Viewer.NextOnEmptyDeck` state its effect |
| Viewer.Prev | src/App.tsx:20-22 | back, clamped to the first slide; `Viewer.PrevStep` states its effect |
| Viewer.Jump | src/App.tsx:24-27 | a jump from the picker; `Viewer.JumpShows` states its effect |
| Viewer.KeyDown | src/App.tsx:36-46 | the key handler; `Viewer.KeyDownEffects` states its effect for every key |
| Viewer.NextStep | src/App.tsx:16-18 | inside the deck, next stays inside, moves forward by one, stops at the last slide, and changes nothing else |
| Viewer.PrevStep | src/App.tsx:20-22 | inside the deck, previous stays inside, moves back by one, stops at the first slide, and changes nothing else |
| Viewer.NextPrevUndo | src/App.tsx:16-22 | away from the ends, previous undoes next and next undoes previous |
| Viewer.NextOnEmptyDeck | src/App.tsx:17 | on an empty deck next moves the index to -1 and the page still shows no slide |
| Viewer.KeyDownEffects | src/App.tsx:36-46 | right arrow and space are next, left arrow is previous, `z`/`Z` flip only the zoom flag, every other key changes nothing, and no key changes the deck or the picker |
| Viewer.ZoomTwice | src/App.tsx:43-44 | two zoom keys in a row restore the state |
| Viewer.JumpShows | src/App.tsx:24-27 | a jump sets the index to the chosen one and closes the picker; a slide is shown exactly when the index is inside the deck, and it is the chosen slide |
| Viewer.WithImage | src/App.tsx:29-33 | the image update keeps the deck's length; `Viewer.WithImageSpec` states the rest |
| Viewer.UpdateImage | src/App.tsx:29-33 | the image update applied to the viewer's deck; `Viewer.WithImageSpec` states its effect |
| Viewer.WithImageSpec | src/App.tsx:29-33 | an image update keeps the deck's length and order, sets the image of exactly the slides with that id, and keeps every other field |
| Viewer.WithImageKeepsIds | src/App.tsx:31 | an image update keeps the ids in order |
| Viewer.IsDarkMode | src/App.tsx:61 | dark mode is on for hero and dark slides; `Viewer.AppClassesSpelled` states the class it adds |
| Viewer.Progress | src/App.tsx:60 | the progress as an exact fraction; `Viewer.ProgressBounds` and `Viewer.ProgressOfNext` state its bounds and steps |
| Viewer.Counter | src/App.tsx:98 | the footer counter; `Viewer.ProgressBounds` states its range |
| Viewer.AppClasses | src/App.tsx:63-67 | the page's class list; `Viewer.AppClassesSpelled` spells it out |
| Viewer.ProgressBounds | src/App.tsx:60-98 | while a slide is shown, the progress is above 0 and at most 100 percent and is 100 exactly on the last slide, and the counter reads a position from 1 to the deck size |
| Viewer.ProgressOfNext | src/App.tsx:60 | each step forward adds 100/n percent |
| Viewer.AppClassesSpelled | src/App.tsx:63-67 | the class list is `app`, followed by ` dark-mode` for hero and dark slides and ` zoom-mode` when zoomed |
| Viewer.Step | src/App.tsx:35-107 | each event the page and the keyboard listener wire up performs its handler; `Viewer.StepStaysInDeck` and `Viewer.RunStaysInDeck` state what events keep |
| Viewer.StepStaysInDeck | src/App.tsx:16-45 | any single event keeps a shown slide on screen and keeps the ids |
| Viewer.RunStaysInDeck | src/App.tsx:16-107 | any sequence of events keeps a slide on screen and keeps the deck's ids, as long as the picker offers only slides of the deck |
| Viewer.InitialShowsFirst | src/App.tsx:9-14 | a non-empty deck starts on its first slide; an empty one shows nothing |
| Viewer.App.constructor | src/App.tsx:9-12 | the viewer starts on index 0 with zoom on and the picker closed |
| Viewer.App.HandleNext | src/App.tsx:16-18 | the handler performs `Next` on the state |
| Viewer.App.HandlePrev | src/App.tsx:20-22 | the handler performs `Prev` on the state |
| Viewer.App.JumpToSlide | src/App.tsx:24-27 | the handler performs `Jump` on the state |
| Viewer.App.HandleImageUpdate | src/App.tsx:29-33 | the handler replaces the deck by `WithImage` of it |
| Viewer.App.HandleKeyDown | src/App.tsx:36-46 | the handler performs `KeyDown` on the state |
| Viewer.App.OpenSlidePicker | src/App.tsx:97 | a click on the counter opens the picker and changes nothing else |
| Viewer.App.CloseSlidePicker | src/App.tsx:106 | closing the picker changes nothing else |

## Left out

- The warning printed for a dropped section (`src/parseSlides.ts:92`) is console output and is not modelled. Only the drop itself is modelled.
- Registering and removing the keyboard listener, and `preventDefault`, are browser wiring (`src/App.tsx:35-50`). The model takes the key as a parameter. Because the listener is re-registered whenever the deck size changes, it always sees the current size, and the model uses it.
- Progress is kept as an exact fraction `(index + 1) * 100 / n`. The floating-point percentage and the CSS width string built from it are not modelled.
- The visual tree is not modelled: the slide renderer, the picker's markup, the image manager, the deep-dive modal, the smart tiles with their tile layouts, the image database and the styles are not part of this model. Of the picker, only the open/close flag and the index it selects are modelled. The model assumes `RunStaysInDeck` gets only indices of the deck, which is what the picker offers.
- Slide ids are JavaScript numbers. They are modelled as integers, since the parser only produces positions.
- The cast of the parser's record to `Slide` (`src/parseSlides.ts:96`, `src/slides.ts:17`) is not modelled. The two records have different fields, and the cast checks nothing.
- Viewer.IsDarkMode: the deck `App` loads (`src/slides.ts:17`, `src/App.tsx:3,9`) is the parser's output, and the parser never sets `type`. In the program as shipped, `currentSlide.type` at `src/App.tsx:61` is therefore always `undefined`, and dark mode never comes on. The model types the viewer's deck as the declared `Slide`, whose `type` is mandatory, so it also covers hero and dark slides, which the shipped program never shows.
- JavaScript strings are sequences of UTF-16 code units; the model's strings are sequences of Unicode scalar values. In this code the two agree: every offset taken follows an ASCII prefix, and every whitespace character tested lies in the Basic Multilingual Plane.
- Strings.ToLower: folds ASCII letters only. JavaScript's `toLowerCase` at `src/parseSlides.ts:62` folds all of Unicode, but no other character lower-cases to one of the letters of `bullets:`, so the comparison there comes out the same. The `/i` flag without `u` at line 69 folds only ASCII letters, as modelled.
- Strings.Trim: its own contract bounds only the length. What `trim` computes is stated by `Strings.TrimSpec` and `Strings.TrimEmpty`, to keep the function cheap to use in every proof.
- Parser.ScanLines: its own contract states only that the id is kept. What the scan computes is stated by `ParserFacts.ScanDraft`, `ParserFacts.ScanBulletsFromLines` and `ParserFacts.SectionSlideFields`.
