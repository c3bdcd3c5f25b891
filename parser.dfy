/**
 * The deck parser of src/parseSlides.ts: a text document becomes a list of
 * slide records.  The document is cut into sections on the exact text
 * "\n---\n", blank sections are dropped, and each remaining section is read
 * line by line with a bullet-mode flag; a section without a title or a
 * chapter yields no slide.
 *
 * `LineStep` is the effect of one line on the parser's state, `ScanLines`
 * folds it over a section, and `ParseDeck` is the whole parse as a function.
 * The methods `ParseSection` and `ParseSlides` do the same work the way the
 * source does it (a loop whose index is stepped back to reprocess a line)
 * and are proved equal to those functions.
 */
module Parser {

  import opened Optional
  import opened Strings

  /** The two slide kinds the parser produces. */
  datatype Kind = Default | LossAversion

  /** The metadata keys, in the order the parser tests them. */
  datatype MetaKey = ChapterKey | KindKey | SubtitleKey | NotesKey | ImageKey | ImageAltKey

  /** A slide record as the parser returns it. */
  datatype ParsedSlide = ParsedSlide(
    id: nat,
    title: string,
    chapter: string,
    kind: Kind,
    subtitle: Option<string>,
    notes: Option<string>,
    image: Option<string>,
    imageAlt: Option<string>,
    bullets: Option<seq<string>>)

  /** The partially built slide: every field but `id` and `kind` may still be missing. */
  datatype Draft = Draft(
    id: nat,
    title: Option<string>,
    chapter: Option<string>,
    kind: Kind,
    subtitle: Option<string>,
    notes: Option<string>,
    image: Option<string>,
    imageAlt: Option<string>)

  /** Everything the per-line loop carries from one line to the next. */
  datatype ScanState = ScanState(draft: Draft, inBullets: bool, bullets: seq<string>)

  const SectionSeparator: string := "\n---\n"

  function KeyPrefix(k: MetaKey): string {
    match k
    case ChapterKey => "Chapter:"
    case KindKey => "Kind:"
    case SubtitleKey => "Subtitle:"
    case NotesKey => "Notes:"
    case ImageKey => "Image:"
    case ImageAltKey => "ImageAlt:"
  }

  /** A line starts with at most one correctly cased key. */
  lemma KeyPrefixesExclusive(line: string, k1: MetaKey, k2: MetaKey)
    requires StartsWith(line, KeyPrefix(k1)) && StartsWith(line, KeyPrefix(k2))
    ensures k1 == k2
  {
    var p1, p2 := KeyPrefix(k1), KeyPrefix(k2);
    assert line[0] == line[..|p1|][0] == p1[0];
    assert line[0] == line[..|p2|][0] == p2[0];
    if p1[0] == 'I' && p2[0] == 'I' {
      assert line[5] == line[..|p1|][5] == p1[5];
      assert line[5] == line[..|p2|][5] == p2[5];
    }
  }

  /** The correctly cased key a trimmed line starts with, if any. */
  function ExactKey(line: string): (r: Option<MetaKey>)
    ensures r.Some? ==> StartsWith(line, KeyPrefix(r.value))
    ensures StartsWith(line, "Chapter:") ==> r == Some(ChapterKey)
    ensures StartsWith(line, "Kind:") ==> r == Some(KindKey)
    ensures StartsWith(line, "Subtitle:") ==> r == Some(SubtitleKey)
    ensures StartsWith(line, "Notes:") ==> r == Some(NotesKey)
    ensures StartsWith(line, "Image:") ==> r == Some(ImageKey)
    ensures StartsWith(line, "ImageAlt:") ==> r == Some(ImageAltKey)
    ensures r.None? <==>
              !StartsWith(line, "Chapter:") && !StartsWith(line, "Kind:")
              && !StartsWith(line, "Subtitle:") && !StartsWith(line, "Notes:")
              && !StartsWith(line, "Image:") && !StartsWith(line, "ImageAlt:")
  {
    var r :=
      if StartsWith(line, "Chapter:") then Some(ChapterKey)
      else if StartsWith(line, "Kind:") then Some(KindKey)
      else if StartsWith(line, "Subtitle:") then Some(SubtitleKey)
      else if StartsWith(line, "Notes:") then Some(NotesKey)
      else if StartsWith(line, "Image:") then Some(ImageKey)
      else if StartsWith(line, "ImageAlt:") then Some(ImageAltKey)
      else None;
    assert forall k :: StartsWith(line, KeyPrefix(k)) ==> r == Some(k) by {
      forall k | StartsWith(line, KeyPrefix(k)) ensures r == Some(k) {
        KeyPrefixesExclusive(line, k, r.value);
      }
    }
    r
  }

  /**
   * The regular expression `/^(Chapter|Kind|Subtitle|Notes|Image|ImageAlt):/i`.
   * Without the `u` flag, `i` folds only ASCII letters.
   */
  predicate MatchesKeyIgnoringCase(line: string) {
    StartsWithIgnoringCase(line, KeyPrefix(ChapterKey))
    || StartsWithIgnoringCase(line, KeyPrefix(KindKey))
    || StartsWithIgnoringCase(line, KeyPrefix(SubtitleKey))
    || StartsWithIgnoringCase(line, KeyPrefix(NotesKey))
    || StartsWithIgnoringCase(line, KeyPrefix(ImageKey))
    || StartsWithIgnoringCase(line, KeyPrefix(ImageAltKey))
  }

  /** The length of the run of whitespace in `s` that starts at `from` (a greedy `\s+`). */
  function WhitespaceRun(s: string, from: nat): (n: nat)
    requires from <= |s|
    ensures from + n <= |s|
    decreases |s| - from
  {
    if from < |s| && IsWhitespace(s[from]) then 1 + WhitespaceRun(s, from + 1) else 0
  }

  /** The run is all whitespace and is followed by the end of `s` or by another character. */
  lemma {:induction false} WhitespaceRunSpec(s: string, from: nat)
    requires from <= |s|
    ensures var n := WhitespaceRun(s, from);
      AllWhitespace(s[from..from + n]) && (from + n == |s| || !IsWhitespace(s[from + n]))
    decreases |s| - from
  {
    if from < |s| && IsWhitespace(s[from]) {
      WhitespaceRunSpec(s, from + 1);
      var n := WhitespaceRun(s, from + 1);
      assert s[from..from + 1 + n] == [s[from]] + s[from + 1..from + 1 + n];
    }
  }

  /** No character of `s` is a line terminator, so `.+` can match all of it. */
  predicate NoLineTerminator(s: string)
    decreases |s|
  {
    s == [] || (!IsLineTerminator(s[0]) && NoLineTerminator(s[1..]))
  }

  /**
   * The regular expression `/^[-*]\s+(.+)$/` and its capture group.  `\s+` is
   * greedy; when nothing is left after it, it gives back one character to
   * `(.+)`.  `.` matches no line terminator and `$` is the end of the input.
   */
  function BulletMatch(line: string): Option<string> {
    if line == [] || !(line[0] == '-' || line[0] == '*') then None
    else
      var n := WhitespaceRun(line, 1);
      if n == 0 then None
      else if 1 + n < |line| then
        var rest := line[1 + n..];
        if NoLineTerminator(rest) then Some(rest) else None
      else if n >= 2 && !IsLineTerminator(line[|line| - 1]) then Some([line[|line| - 1]])
      else None
  }

  /** The bullet item a line contributes in bullet mode: the capture, or the whole line. */
  function ItemOf(line: string): string {
    match BulletMatch(line)
    case Some(item) => item
    case None => line
  }

  function KindOf(value: string): Kind {
    if value == "lossAversion" then LossAversion else Default
  }

  /** Stores a metadata value in its field; a kind value is normalised first. */
  function Store(d: Draft, k: MetaKey, value: string): (r: Draft)
    ensures r.id == d.id && r.title == d.title
  {
    match k
    case ChapterKey => d.(chapter := Some(value))
    case KindKey => d.(kind := KindOf(value))
    case SubtitleKey => d.(subtitle := Some(value))
    case NotesKey => d.(notes := Some(value))
    case ImageKey => d.(image := Some(value))
    case ImageAltKey => d.(imageAlt := Some(value))
  }

  /** The value a metadata line carries: the rest of the line after its key, trimmed. */
  function ValueAfter(line: string, k: MetaKey): string
    requires StartsWith(line, KeyPrefix(k))
  {
    Trim(line[|KeyPrefix(k)|..])
  }

  /**
   * The effect of one raw line of a section.  A line that matches a key only
   * when case is ignored, met in bullet mode, switches bullet mode off and is
   * then looked at once more; that second look cannot reach this case again.
   */
  function LineStep(st: ScanState, raw: string): (r: ScanState)
    ensures r.draft.id == st.draft.id
    ensures r.bullets == st.bullets || r.bullets == st.bullets + [ItemOf(Trim(raw))]
    decreases if st.inBullets then 1 else 0
  {
    var line := Trim(raw);
    if line == [] then st
    else if StartsWith(line, "# ") && !Truthy(st.draft.title) then
      st.(draft := st.draft.(title := Some(Trim(line[2..]))))
    else if ExactKey(line).Some? then
      var k := ExactKey(line).value;
      st.(draft := Store(st.draft, k, ValueAfter(line, k)))
    else if ToLower(line) == "bullets:" then st.(inBullets := true)
    else if !st.inBullets then st
    else if MatchesKeyIgnoringCase(line) then LineStep(st.(inBullets := false), raw)
    else
      match BulletMatch(line)
      case Some(item) => st.(bullets := st.bullets + [item])
      case None => if Trim(line) != [] then st.(bullets := st.bullets + [line]) else st
  }

  /** The per-line loop over a whole section, as a fold. */
  function ScanLines(lines: seq<string>, st: ScanState): (r: ScanState)
    ensures r.draft.id == st.draft.id
    decreases |lines|
  {
    if lines == [] then st else ScanLines(lines[1..], LineStep(st, lines[0]))
  }

  function InitialState(id: nat): ScanState {
    ScanState(Draft(id, None, None, Default, None, None, None, None), false, [])
  }

  /**
   * The end of a section: bullets are attached only when some were collected,
   * and the slide is kept only when it has a non-empty title and chapter.
   */
  function Finish(st: ScanState): (r: Option<ParsedSlide>)
    ensures r.Some? <==> Truthy(st.draft.title) && Truthy(st.draft.chapter)
    ensures r.Some? ==> r.value.title != [] && r.value.chapter != [] && r.value.id == st.draft.id
    ensures r.Some? ==> (r.value.bullets.Some? <==> st.bullets != [])
    ensures r.Some? && r.value.bullets.Some? ==> r.value.bullets.value == st.bullets
  {
    var d := st.draft;
    if !Truthy(d.title) || !Truthy(d.chapter) then None
    else
      Some(ParsedSlide(d.id, d.title.value, d.chapter.value, d.kind, d.subtitle, d.notes,
                       d.image, d.imageAlt, if |st.bullets| > 0 then Some(st.bullets) else None))
  }

  function Lines(section: string): seq<string> {
    Split(section, "\n")
  }

  /** The slide one section yields, if any, under the given id. */
  function SectionSlide(section: string, id: nat): (r: Option<ParsedSlide>)
    ensures r.Some? ==> r.value.id == id && r.value.title != [] && r.value.chapter != []
  {
    Finish(ScanLines(Lines(section), InitialState(id)))
  }

  /** The pieces whose trimmed text is not empty, in order. */
  function NonBlank(pieces: seq<string>): (r: seq<string>)
    ensures |r| <= |pieces|
    ensures forall s :: s in r ==> s in pieces && Trim(s) != []
    ensures forall p :: p in pieces && Trim(p) != [] ==> p in r
  {
    if pieces == [] then []
    else (if Trim(pieces[0]) != [] then [pieces[0]] else []) + NonBlank(pieces[1..])
  }

  /** Filtering a concatenation filters each part: the kept pieces stay in their order. */
  lemma {:induction false} NonBlankAppend(a: seq<string>, b: seq<string>)
    ensures NonBlank(a + b) == NonBlank(a) + NonBlank(b)
    decreases |a|
  {
    if a == [] {
      assert a + b == b;
    } else {
      assert (a + b)[0] == a[0];
      assert (a + b)[1..] == a[1..] + b;
      NonBlankAppend(a[1..], b);
    }
  }

  /** The sections of a document that the parser reads. */
  function Sections(markdown: string): seq<string> {
    NonBlank(Split(markdown, SectionSeparator))
  }

  /** What every section yields, in order: section `j` (from 0) is read under id `j + 1`. */
  function SectionResults(sections: seq<string>): (r: seq<Option<ParsedSlide>>)
    ensures |r| == |sections|
    decreases |sections|
  {
    if sections == [] then []
    else
      var n := |sections| - 1;
      SectionResults(sections[..n]) + [SectionSlide(sections[n], n + 1)]
  }

  lemma {:induction false} SectionResultAt(sections: seq<string>, j: nat)
    requires j < |sections|
    ensures SectionResults(sections)[j] == SectionSlide(sections[j], j + 1)
    decreases |sections|
  {
    var n := |sections| - 1;
    if j < n {
      SectionResultAt(sections[..n], j);
      assert sections[..n][j] == sections[j];
    }
  }

  /** Every result carries its section's position as id, and every slide has a title and a chapter. */
  lemma SectionResultsValid(sections: seq<string>)
    ensures IdsArePositions(SectionResults(sections))
    ensures forall j :: 0 <= j < |sections| && SectionResults(sections)[j].Some? ==>
              SectionResults(sections)[j].value.title != [] && SectionResults(sections)[j].value.chapter != []
  {
    forall j | 0 <= j < |sections| {
      SectionResultAt(sections, j);
    }
  }

  /** The slides among the first `n` results, in order. */
  function Kept(results: seq<Option<ParsedSlide>>, n: nat): (r: seq<ParsedSlide>)
    requires n <= |results|
    ensures |r| <= n
  {
    if n == 0 then []
    else
      var prev := Kept(results, n - 1);
      match results[n - 1]
      case None => prev
      case Some(s) => prev + [s]
  }

  lemma KeptStep(results: seq<Option<ParsedSlide>>, n: nat, r: Option<ParsedSlide>)
    requires n < |results| && results[n] == r
    ensures r.None? ==> Kept(results, n + 1) == Kept(results, n)
    ensures r.Some? ==> Kept(results, n + 1) == Kept(results, n) + [r.value]
  {
  }

  /** Every result that section `j` (from 0) yields carries id `j + 1`. */
  predicate IdsArePositions(results: seq<Option<ParsedSlide>>) {
    forall j :: 0 <= j < |results| && results[j].Some? ==> results[j].value.id == j + 1
  }

  /** Each kept slide is the result of the section its id names. */
  predicate FromSections(results: seq<Option<ParsedSlide>>, n: nat, r: seq<ParsedSlide>)
    requires n <= |results|
  {
    forall k :: 0 <= k < |r| ==> 1 <= r[k].id <= n && results[r[k].id - 1] == Some(r[k])
  }

  predicate StrictlyIncreasingIds(r: seq<ParsedSlide>) {
    forall k, m :: 0 <= k < m < |r| ==> r[k].id < r[m].id
  }

  lemma {:induction false} KeptFromSections(results: seq<Option<ParsedSlide>>, n: nat)
    requires n <= |results| && IdsArePositions(results)
    ensures FromSections(results, n, Kept(results, n))
  {
    if n > 0 {
      KeptFromSections(results, n - 1);
      var prev := Kept(results, n - 1);
      assert FromSections(results, n - 1, prev);
      if results[n - 1].Some? {
        var r := prev + [results[n - 1].value];
        assert Kept(results, n) == r;
        forall k | 0 <= k < |r|
          ensures 1 <= r[k].id <= n && results[r[k].id - 1] == Some(r[k])
        {
          if k < |prev| { assert r[k] == prev[k]; }
        }
      } else {
        assert Kept(results, n) == prev;
      }
    }
  }

  lemma {:induction false} KeptIdsIncrease(results: seq<Option<ParsedSlide>>, n: nat)
    requires n <= |results| && IdsArePositions(results)
    ensures StrictlyIncreasingIds(Kept(results, n))
  {
    if n > 0 {
      KeptFromSections(results, n - 1);
      KeptIdsIncrease(results, n - 1);
      var prev := Kept(results, n - 1);
      assert FromSections(results, n - 1, prev) && StrictlyIncreasingIds(prev);
      if results[n - 1].Some? {
        var r := prev + [results[n - 1].value];
        assert Kept(results, n) == r;
        forall k, m | 0 <= k < m < |r|
          ensures r[k].id < r[m].id
        {
          assert r[k] == prev[k];
          if m < |prev| { assert r[m] == prev[m]; }
        }
      } else {
        assert Kept(results, n) == prev;
      }
    }
  }

  /** No slide is lost: every section that yields a slide has it among the kept ones. */
  lemma {:induction false} KeptComplete(results: seq<Option<ParsedSlide>>, n: nat, j: nat)
    requires n <= |results| && j < n && results[j].Some?
    ensures results[j].value in Kept(results, n)
  {
    var prev := Kept(results, n - 1);
    if j == n - 1 {
      assert Kept(results, n) == prev + [results[j].value];
    } else {
      KeptComplete(results, n - 1, j);
      if results[n - 1].Some? {
        assert Kept(results, n) == prev + [results[n - 1].value];
      }
    }
  }

  /** The whole parse as a function. */
  function ParseDeck(markdown: string): seq<ParsedSlide> {
    var results := SectionResults(Sections(markdown));
    Kept(results, |results|)
  }

  // The rules of `LineStep`, one per kind of line.

  /** A line that is blank once trimmed changes nothing. */
  lemma StepBlank(st: ScanState, raw: string)
    requires Trim(raw) == []
    ensures LineStep(st, raw) == st
  {
  }

  /** The first heading line of a section sets the title. */
  lemma StepTitle(st: ScanState, raw: string)
    requires Trim(raw) != [] && StartsWith(Trim(raw), "# ") && !Truthy(st.draft.title)
    ensures LineStep(st, raw) == st.(draft := st.draft.(title := Some(Trim(Trim(raw)[2..]))))
  {
  }

  /** A correctly cased key line stores its value, whatever the bullet mode. */
  lemma StepKey(st: ScanState, raw: string, k: MetaKey)
    requires Trim(raw) != [] && !(StartsWith(Trim(raw), "# ") && !Truthy(st.draft.title))
    requires ExactKey(Trim(raw)) == Some(k)
    ensures LineStep(st, raw) == st.(draft := Store(st.draft, k, ValueAfter(Trim(raw), k)))
  {
  }

  /** Any other line that reads `bullets:` in any case switches bullet mode on. */
  lemma StepBulletsHeader(st: ScanState, raw: string)
    requires Trim(raw) != [] && !(StartsWith(Trim(raw), "# ") && !Truthy(st.draft.title))
    requires ExactKey(Trim(raw)).None? && ToLower(Trim(raw)) == "bullets:"
    ensures LineStep(st, raw) == st.(inBullets := true)
  {
  }

  /** Outside bullet mode, every other line is ignored. */
  lemma StepIgnored(st: ScanState, raw: string)
    requires Trim(raw) != [] && !(StartsWith(Trim(raw), "# ") && !Truthy(st.draft.title))
    requires ExactKey(Trim(raw)).None? && ToLower(Trim(raw)) != "bullets:" && !st.inBullets
    ensures LineStep(st, raw) == st
  {
  }

  /** In bullet mode, a line that is a key only when case is ignored ends bullet mode and is read again. */
  lemma StepReprocess(st: ScanState, raw: string)
    requires Trim(raw) != [] && !(StartsWith(Trim(raw), "# ") && !Truthy(st.draft.title))
    requires ExactKey(Trim(raw)).None? && ToLower(Trim(raw)) != "bullets:" && st.inBullets
    requires MatchesKeyIgnoringCase(Trim(raw))
    ensures LineStep(st, raw) == LineStep(st.(inBullets := false), raw)
  {
  }

  /** In bullet mode, every other line becomes an item. */
  lemma StepItem(st: ScanState, raw: string)
    requires Trim(raw) != [] && !(StartsWith(Trim(raw), "# ") && !Truthy(st.draft.title))
    requires ExactKey(Trim(raw)).None? && ToLower(Trim(raw)) != "bullets:" && st.inBullets
    requires !MatchesKeyIgnoringCase(Trim(raw))
    ensures LineStep(st, raw) == st.(bullets := st.bullets + [ItemOf(Trim(raw))])
  {
    TrimSpec(raw);
    TrimOfTrimmed(Trim(raw));
  }

  /**
   * The metadata branches of the source's per-line loop: the key prefixes are
   * tested in order and the trimmed rest of the line goes to that key's field.
   */
  method ReadMetaLine(line: string, slide: Draft) returns (slide': Draft)
    requires ExactKey(line).Some?
    ensures slide' == Store(slide, ExactKey(line).value, ValueAfter(line, ExactKey(line).value))
  {
    if StartsWith(line, "Chapter:") {
      slide' := slide.(chapter := Some(Trim(line[8..])));
    } else if StartsWith(line, "Kind:") {
      var kindValue := Trim(line[5..]);
      slide' := slide.(kind := if kindValue == "lossAversion" then LossAversion else Default);
    } else if StartsWith(line, "Subtitle:") {
      slide' := slide.(subtitle := Some(Trim(line[9..])));
    } else if StartsWith(line, "Notes:") {
      slide' := slide.(notes := Some(Trim(line[6..])));
    } else if StartsWith(line, "Image:") {
      slide' := slide.(image := Some(Trim(line[6..])));
    } else {
      slide' := slide.(imageAlt := Some(Trim(line[9..])));
    }
  }

  /**
   * The body of the source's per-line loop for one raw line.  `reprocess`
   * is the source's step back of the loop index: it is set only when a
   * case-variant key line ends bullet mode, and then the line must be read
   * again from the new state.
   */
  method ReadLine(raw: string, slide: Draft, inBullets: bool, bullets: seq<string>)
    returns (slide': Draft, inBullets': bool, bullets': seq<string>, reprocess: bool)
    ensures reprocess ==> inBullets && !inBullets' && slide' == slide && bullets' == bullets
    ensures reprocess ==> LineStep(ScanState(slide', inBullets', bullets'), raw)
                          == LineStep(ScanState(slide, inBullets, bullets), raw)
    ensures !reprocess ==> ScanState(slide', inBullets', bullets')
                           == LineStep(ScanState(slide, inBullets, bullets), raw)
  {
    ghost var st := ScanState(slide, inBullets, bullets);
    slide', inBullets', bullets', reprocess := slide, inBullets, bullets, false;
    var line := Trim(raw);
    if line == [] {
      // blank lines are skipped
      StepBlank(st, raw);
    } else if StartsWith(line, "# ") && !Truthy(slide.title) {
      slide' := slide.(title := Some(Trim(line[2..])));
      StepTitle(st, raw);
    } else if ExactKey(line).Some? {
      slide' := ReadMetaLine(line, slide);
      StepKey(st, raw, ExactKey(line).value);
    } else if ToLower(line) == "bullets:" {
      inBullets' := true;
      StepBulletsHeader(st, raw);
    } else if inBullets {
      if MatchesKeyIgnoringCase(line) {
        inBullets' := false;
        reprocess := true;
        StepReprocess(st, raw);
      } else {
        StepItem(st, raw);
        var bulletMatch := BulletMatch(line);
        if bulletMatch.Some? {
          bullets' := bullets + [bulletMatch.value];
        } else if Trim(line) != [] {
          bullets' := bullets + [line];
        }
      }
    } else {
      StepIgnored(st, raw);
    }
  }

  lemma ScanFrom(lines: seq<string>, i: nat, st: ScanState)
    requires i < |lines|
    ensures ScanLines(lines[i..], st) == ScanLines(lines[i + 1..], LineStep(st, lines[i]))
  {
    assert lines[i..][1..] == lines[i + 1..];
  }

  /** What one pass of the per-line loop keeps: the rest of the fold is unchanged. */
  lemma ScanAdvance(lines: seq<string>, i: nat, before: ScanState, after: ScanState, reprocess: bool)
    requires i < |lines|
    requires reprocess ==> LineStep(after, lines[i]) == LineStep(before, lines[i])
    requires !reprocess ==> after == LineStep(before, lines[i])
    ensures reprocess ==> ScanLines(lines[i..], after) == ScanLines(lines[i..], before)
    ensures !reprocess ==> ScanLines(lines[i + 1..], after) == ScanLines(lines[i..], before)
  {
    ScanFrom(lines, i, before);
    ScanFrom(lines, i, after);
  }

  /**
   * The per-line loop of one section, the way the source runs it: the index
   * is stepped back (`i := i - 1`) so that a line that ended bullet mode is
   * read once more.
   */
  method ScanSection(lines: seq<string>, id: nat) returns (slide: Draft, inBullets: bool, bullets: seq<string>)
    ensures ScanState(slide, inBullets, bullets) == ScanLines(lines, InitialState(id))
  {
    slide := Draft(id, None, None, Default, None, None, None, None);
    inBullets := false;
    bullets := [];
    var i: int := 0;
    while i < |lines|
      invariant 0 <= i <= |lines|
      invariant ScanLines(lines[i..], ScanState(slide, inBullets, bullets))
             == ScanLines(lines, InitialState(id))
      decreases |lines| - i, if inBullets then 1 else 0
    {
      ghost var before := ScanState(slide, inBullets, bullets);
      var reprocess;
      slide, inBullets, bullets, reprocess := ReadLine(lines[i], slide, inBullets, bullets);
      ScanAdvance(lines, i, before, ScanState(slide, inBullets, bullets), reprocess);
      if reprocess {
        i := i - 1;  // read this line again
      }
      i := i + 1;
    }
    assert lines[i..] == [];
  }

  /**
   * One section's lines: the loop, then bullets are attached only when some
   * were collected and the slide is kept only with a title and a chapter.
   */
  method ParseLines(lines: seq<string>, id: nat) returns (r: Option<ParsedSlide>)
    ensures r == Finish(ScanLines(lines, InitialState(id)))
  {
    var slide, inBullets, bullets := ScanSection(lines, id);
    var collected := if |bullets| > 0 then Some(bullets) else None;
    if !Truthy(slide.title) || !Truthy(slide.chapter) {
      r := None;
    } else {
      r := Some(ParsedSlide(slide.id, slide.title.value, slide.chapter.value, slide.kind,
                            slide.subtitle, slide.notes, slide.image, slide.imageAlt, collected));
    }
  }

  /** One section: its lines are the pieces between newline characters. */
  method ParseSection(section: string, id: nat) returns (r: Option<ParsedSlide>)
    ensures r == SectionSlide(section, id)
  {
    var lines := Split(section, "\n");
    r := ParseLines(lines, id);
  }

  /** Reading one more section adds its slide, if any, to the kept ones. */
  lemma CollectStep(sections: seq<string>, n: nat, slide: Option<ParsedSlide>)
    requires n < |sections| && slide == SectionSlide(sections[n], n + 1)
    ensures slide.None? ==> Kept(SectionResults(sections), n + 1) == Kept(SectionResults(sections), n)
    ensures slide.Some? ==>
              Kept(SectionResults(sections), n + 1) == Kept(SectionResults(sections), n) + [slide.value]
  {
    SectionResultAt(sections, n);
    KeptStep(SectionResults(sections), n, slide);
  }

  /**
   * The per-section loop of `parseSlides`: the sections are read in order and
   * the slides that pass validation are pushed, each with its section's
   * 1-based position as id.
   */
  method CollectSlides(sections: seq<string>) returns (slides: seq<ParsedSlide>)
    ensures slides == Kept(SectionResults(sections), |sections|)
  {
    slides := [];
    var index := 0;
    while index < |sections|
      invariant 0 <= index <= |sections|
      invariant slides == Kept(SectionResults(sections), index)
    {
      var slide := ParseSection(sections[index], index + 1);
      CollectStep(sections, index, slide);
      if slide.Some? {
        slides := slides + [slide.value];
      }
      index := index + 1;
    }
  }

  /**
   * `parseSlides`: the document is cut on the section separator, blank
   * sections are dropped, and the rest are read in order.
   */
  method ParseSlides(markdown: string) returns (slides: seq<ParsedSlide>)
    ensures slides == ParseDeck(markdown)
  {
    var sections := NonBlank(Split(markdown, SectionSeparator));
    slides := CollectSlides(sections);
  }
}
