/**
 * What the deck parser guarantees, stated about the functions of `Parser`:
 * the title is the first heading and every other field is the last value
 * given for its key, whatever the bullet mode; bullet items are non-empty
 * trimmed texts taken from the section's lines in order; and the deck keeps
 * exactly the valid sections, numbered by position.
 */
module ParserFacts {

  import opened Optional
  import opened Strings
  import opened Parser

  // ---------------------------------------------------------------------
  // Metadata does not depend on bullet mode
  // ---------------------------------------------------------------------

  /** The effect of one trimmed line on the slide's fields. */
  function DraftStep(d: Draft, line: string): Draft {
    if line == [] then d
    else if StartsWith(line, "# ") && !Truthy(d.title) then d.(title := Some(Trim(line[2..])))
    else if ExactKey(line).Some? then Store(d, ExactKey(line).value, ValueAfter(line, ExactKey(line).value))
    else d
  }

  /** The slide's fields after a sequence of raw lines. */
  function FoldDraft(lines: seq<string>, d: Draft): Draft
    decreases |lines|
  {
    if lines == [] then d else FoldDraft(lines[1..], DraftStep(d, Trim(lines[0])))
  }

  /** A line's effect on the fields is the same in and out of bullet mode, and on reprocess. */
  lemma LineStepDraft(st: ScanState, raw: string)
    ensures LineStep(st, raw).draft == DraftStep(st.draft, Trim(raw))
    decreases if st.inBullets then 1 else 0
  {
    if st.inBullets {
      LineStepDraft(st.(inBullets := false), raw);
    }
  }

  /** Scanning a section fills the fields exactly as `FoldDraft` does. */
  lemma {:induction false} ScanDraft(lines: seq<string>, st: ScanState)
    ensures ScanLines(lines, st).draft == FoldDraft(lines, st.draft)
    decreases |lines|
  {
    if lines != [] {
      LineStepDraft(st, lines[0]);
      ScanDraft(lines[1..], LineStep(st, lines[0]));
    }
  }

  // ---------------------------------------------------------------------
  // Title: the first heading wins
  // ---------------------------------------------------------------------

  /** The text of the first line that, trimmed, starts with "# ". */
  function FirstHeading(lines: seq<string>): Option<string>
    decreases |lines|
  {
    if lines == [] then None
    else
      var line := Trim(lines[0]);
      if StartsWith(line, "# ") then Some(Trim(line[2..])) else FirstHeading(lines[1..])
  }

  /** A heading line always carries a non-empty title, since a trimmed line cannot end in the space. */
  lemma HeadingTextNonEmpty(raw: string)
    requires StartsWith(Trim(raw), "# ")
    ensures Trim(Trim(raw)[2..]) != []
  {
    var line := Trim(raw);
    TrimSpec(raw);
    assert line[1] == line[..2][1] == ' ';
    assert |line| > 2;
    var rest := line[2..];
    assert rest[|rest| - 1] == line[|line| - 1];
    TrimEmpty(rest);
  }

  lemma {:induction false} FirstHeadingNonEmpty(lines: seq<string>)
    ensures FirstHeading(lines).Some? ==> FirstHeading(lines).value != []
    decreases |lines|
  {
    if lines != [] {
      if StartsWith(Trim(lines[0]), "# ") {
        HeadingTextNonEmpty(lines[0]);
      } else {
        FirstHeadingNonEmpty(lines[1..]);
      }
    }
  }

  /**
   * Only the first heading line sets the title: a slide that has a title
   * keeps it, and one without takes the first heading, if any.
   */
  lemma {:induction false} FoldTitle(lines: seq<string>, d: Draft)
    ensures FoldDraft(lines, d).title ==
              if Truthy(d.title) then d.title
              else if FirstHeading(lines).Some? then FirstHeading(lines)
              else d.title
    decreases |lines|
  {
    if lines != [] {
      var line := Trim(lines[0]);
      var d1 := DraftStep(d, line);
      FoldTitle(lines[1..], d1);
      if StartsWith(line, "# ") && !Truthy(d.title) {
        HeadingTextNonEmpty(lines[0]);
      }
    }
  }

  // ---------------------------------------------------------------------
  // Other metadata: the last occurrence wins
  // ---------------------------------------------------------------------

  /** The value a single trimmed line gives to key `k`, if it is a line for that key. */
  function LineValue(line: string, k: MetaKey): Option<string> {
    if ExactKey(line) == Some(k) then Some(ValueAfter(line, k)) else None
  }

  /** The value of the last line for key `k`: a later line for the key overrides every earlier one. */
  function LastValue(lines: seq<string>, k: MetaKey): Option<string>
    decreases |lines|
  {
    if lines == [] then None
    else
      match LastValue(lines[1..], k)
      case Some(v) => Some(v)
      case None => LineValue(Trim(lines[0]), k)
  }

  /** The text-valued field that key `k` fills. */
  function TextField(d: Draft, k: MetaKey): Option<string>
    requires k != KindKey
  {
    match k
    case ChapterKey => d.chapter
    case SubtitleKey => d.subtitle
    case NotesKey => d.notes
    case ImageKey => d.image
    case ImageAltKey => d.imageAlt
  }

  /** A key line never looks like a heading, so the title branch cannot take it. */
  lemma KeyLineIsNotHeading(line: string, k: MetaKey)
    requires StartsWith(line, KeyPrefix(k))
    ensures !StartsWith(line, "# ")
  {
    var p := KeyPrefix(k);
    assert line[0] == line[..|p|][0] == p[0];
  }

  lemma DraftStepText(d: Draft, line: string, k: MetaKey)
    requires k != KindKey
    ensures TextField(DraftStep(d, line), k) ==
              if LineValue(line, k).Some? then LineValue(line, k) else TextField(d, k)
  {
    if ExactKey(line).Some? {
      KeyLineIsNotHeading(line, ExactKey(line).value);
    }
  }

  lemma DraftStepKind(d: Draft, line: string)
    ensures DraftStep(d, line).kind ==
              if LineValue(line, KindKey).Some? then KindOf(LineValue(line, KindKey).value) else d.kind
  {
    if ExactKey(line).Some? {
      KeyLineIsNotHeading(line, ExactKey(line).value);
    }
  }

  /** Chapter, Subtitle, Notes, Image and ImageAlt hold the last value given for them. */
  lemma {:induction false} FoldText(lines: seq<string>, d: Draft, k: MetaKey)
    requires k != KindKey
    ensures TextField(FoldDraft(lines, d), k) ==
              if LastValue(lines, k).Some? then LastValue(lines, k) else TextField(d, k)
    decreases |lines|
  {
    if lines != [] {
      var d1 := DraftStep(d, Trim(lines[0]));
      FoldText(lines[1..], d1, k);
      DraftStepText(d, Trim(lines[0]), k);
    }
  }

  /** The kind is normalised from the last `Kind:` value. */
  lemma {:induction false} FoldKind(lines: seq<string>, d: Draft)
    ensures FoldDraft(lines, d).kind ==
              if LastValue(lines, KindKey).Some? then KindOf(LastValue(lines, KindKey).value) else d.kind
    decreases |lines|
  {
    if lines != [] {
      var d1 := DraftStep(d, Trim(lines[0]));
      FoldKind(lines[1..], d1);
      DraftStepKind(d, Trim(lines[0]));
    }
  }

  /**
   * One section in terms of its lines: it yields a slide exactly when it has
   * a heading and a last `Chapter:` value that is not empty; the slide's
   * title is the first heading, each other field the last value for its key,
   * and the kind is `lossAversion` exactly when the last `Kind:` value is.
   */
  lemma SectionSlideFields(section: string, id: nat)
    ensures var lines, r := Lines(section), SectionSlide(section, id);
      (r.Some? <==> FirstHeading(lines).Some? && Truthy(LastValue(lines, ChapterKey)))
      && (r.Some? ==>
            r.value.id == id
            && Some(r.value.title) == FirstHeading(lines)
            && Some(r.value.chapter) == LastValue(lines, ChapterKey)
            && r.value.subtitle == LastValue(lines, SubtitleKey)
            && r.value.notes == LastValue(lines, NotesKey)
            && r.value.image == LastValue(lines, ImageKey)
            && r.value.imageAlt == LastValue(lines, ImageAltKey)
            && (r.value.kind == LossAversion <==> LastValue(lines, KindKey) == Some("lossAversion")))
  {
    var lines := Lines(section);
    var st := InitialState(id);
    ScanDraft(lines, st);
    FoldTitle(lines, st.draft);
    FirstHeadingNonEmpty(lines);
    FoldText(lines, st.draft, ChapterKey);
    FoldText(lines, st.draft, SubtitleKey);
    FoldText(lines, st.draft, NotesKey);
    FoldText(lines, st.draft, ImageKey);
    FoldText(lines, st.draft, ImageAltKey);
    FoldKind(lines, st.draft);
  }

  // ---------------------------------------------------------------------
  // Bullets
  // ---------------------------------------------------------------------

  /** Whether `a` can be obtained from `b` by deleting elements. */
  predicate IsSubsequence(a: seq<string>, b: seq<string>)
    decreases |b|
  {
    if a == [] then true
    else if b == [] then false
    else (a[0] == b[0] && IsSubsequence(a[1..], b[1..])) || IsSubsequence(a, b[1..])
  }

  /** The item every non-blank line would give in bullet mode, in order. */
  function LineItems(lines: seq<string>): seq<string>
    decreases |lines|
  {
    if lines == [] then []
    else if Trim(lines[0]) == [] then LineItems(lines[1..])
    else [ItemOf(Trim(lines[0]))] + LineItems(lines[1..])
  }

  lemma {:induction false} SubsequenceOfLonger(a: seq<string>, b: seq<string>, x: string)
    requires IsSubsequence(a, b)
    ensures IsSubsequence(a, [x] + b)
  {
    assert ([x] + b)[1..] == b;
  }

  /**
   * The `bullets:` test accepts exactly the eight-character lines that spell
   * `bullets:` up to the case of ASCII letters.
   */
  lemma BulletsHeaderAccepts(line: string)
    ensures ToLower(line) == "bullets:"
      <==> |line| == 8 && forall i :: 0 <= i < 8 ==> SameIgnoringAsciiCase(line[i], "bullets:"[i])
  {
    BulletsHeaderFolded();
    ToLowerEqual(line, "bullets:");
  }

  lemma BulletsHeaderFolded()
    ensures ToLower("bullets:") == "bullets:"
  {
    var h := "bullets:";
    forall i | 0 <= i < |h|
      ensures !IsUpperAscii(h[i])
    {
    }
    ToLowerNoCapitals(h);
  }

  /**
   * The case-blind key test accepts exactly the lines that begin with one of
   * the six key prefixes up to the case of ASCII letters; every correctly
   * cased key line is among them.
   */
  lemma KeyMatchAccepts(line: string)
    ensures MatchesKeyIgnoringCase(line) <==> exists k: MetaKey :: BeginsUpToCase(line, KeyPrefix(k))
    ensures ExactKey(line).Some? ==> MatchesKeyIgnoringCase(line)
  {
    KeyMatchSomeKey(line);
    forall k: MetaKey
      ensures StartsWithIgnoringCase(line, KeyPrefix(k)) <==> BeginsUpToCase(line, KeyPrefix(k))
    {
      StartsWithIgnoringCaseSpec(line, KeyPrefix(k));
    }
    if ExactKey(line).Some? {
      ExactKeyFolds(line, ExactKey(line).value);
    }
  }

  /** The case-blind key test is a test for some key. */
  lemma KeyMatchSomeKey(line: string)
    ensures MatchesKeyIgnoringCase(line) <==> exists k: MetaKey :: StartsWithIgnoringCase(line, KeyPrefix(k))
  {
    if MatchesKeyIgnoringCase(line) {
      var k :| k in [ChapterKey, KindKey, SubtitleKey, NotesKey, ImageKey, ImageAltKey]
        && StartsWithIgnoringCase(line, KeyPrefix(k));
    }
  }

  /** A line that starts with a key exactly also starts with it up to case. */
  lemma ExactKeyFolds(line: string, k: MetaKey)
    requires StartsWith(line, KeyPrefix(k))
    ensures StartsWithIgnoringCase(line, KeyPrefix(k))
  {
    assert line[..|KeyPrefix(k)|] == KeyPrefix(k);
  }

  /**
   * How bullet mode ends.  A correctly cased key line is stored before bullet
   * mode is looked at, so it leaves bullet mode on; a key line in another
   * case ends bullet mode, and on its second reading it matches no branch, so
   * its value is not stored anywhere.
   */
  lemma BulletModeAtKeyLines(st: ScanState, raw: string)
    requires st.inBullets && Trim(raw) != [] && !StartsWith(Trim(raw), "# ")
    ensures ExactKey(Trim(raw)).Some? ==> LineStep(st, raw).inBullets
    ensures (ExactKey(Trim(raw)).None? && ToLower(Trim(raw)) != "bullets:" && MatchesKeyIgnoringCase(Trim(raw)))
      ==> LineStep(st, raw) == st.(inBullets := false)
  {
    if ExactKey(Trim(raw)).None? && ToLower(Trim(raw)) != "bullets:" && MatchesKeyIgnoringCase(Trim(raw)) {
      StepReprocess(st, raw);
      StepIgnored(st.(inBullets := false), raw);
    }
  }

  /**
   * A heading line after the title is not a title: outside bullet mode it is
   * ignored, and in bullet mode it becomes an item word for word.
   */
  lemma LaterHeading(st: ScanState, raw: string)
    requires Truthy(st.draft.title) && StartsWith(Trim(raw), "# ")
    ensures !st.inBullets ==> LineStep(st, raw) == st
    ensures st.inBullets ==> LineStep(st, raw) == st.(bullets := st.bullets + [Trim(raw)])
  {
    var line := Trim(raw);
    assert line[0] == line[..2][0] == '#';
    forall k: MetaKey
      ensures !StartsWith(line, KeyPrefix(k)) && !StartsWithIgnoringCase(line, KeyPrefix(k))
    {
      var p := KeyPrefix(k);
      if |p| <= |line| {
        assert line[..|p|][0] == '#';
        assert ToLower(line[..|p|])[0] == '#';
        assert ToLower(p)[0] != '#';
      }
    }
    assert ToLower(line)[0] == '#';
    if st.inBullets {
      StepItem(st, raw);
    }
  }

  /** Blank lines add no item and do not change bullet mode. */
  lemma LineStepBlankItem(st: ScanState, raw: string)
    ensures Trim(raw) == [] ==> LineStep(st, raw) == st
    ensures LineStep(st, raw).bullets != st.bullets ==> Trim(raw) != []
  {
  }

  /** One step of the scan keeps the invariant of `ScanBulletsFromLines`. */
  lemma {:induction false} BulletsStep(b0: seq<string>, b1: seq<string>, r: seq<string>,
                                       item: string, blank: bool, rest: seq<string>, items: seq<string>)
    requires b1 == b0 || (b1 == b0 + [item] && !blank)
    requires items == if blank then rest else [item] + rest
    requires |b1| <= |r| && r[..|b1|] == b1 && IsSubsequence(r[|b1|..], rest)
    ensures |b0| <= |r| && r[..|b0|] == b0 && IsSubsequence(r[|b0|..], items)
  {
    var e1 := r[|b1|..];
    if b1 == b0 {
      if !blank {
        SubsequenceOfLonger(e1, rest, item);
      }
    } else {
      assert r[|b0|..] == [item] + e1;
      assert r[..|b0|] == b1[..|b0|];
    }
  }

  /**
   * Every item the scan collects is the item of one of the section's
   * non-blank lines, in the order of the lines: earlier items are kept and
   * the new ones form a subsequence of `LineItems(lines)`.
   */
  lemma {:induction false} ScanBulletsFromLines(lines: seq<string>, st: ScanState)
    ensures var r := ScanLines(lines, st).bullets;
      |st.bullets| <= |r| && r[..|st.bullets|] == st.bullets
      && IsSubsequence(r[|st.bullets|..], LineItems(lines))
    decreases |lines|
  {
    if lines == [] {
      assert ScanLines(lines, st).bullets[..|st.bullets|] == st.bullets;
    } else {
      var st1 := LineStep(st, lines[0]);
      ScanBulletsFromLines(lines[1..], st1);
      LineStepBlankItem(st, lines[0]);
      BulletsStep(st.bullets, st1.bullets, ScanLines(lines, st).bullets, ItemOf(Trim(lines[0])),
                  Trim(lines[0]) == [], LineItems(lines[1..]), LineItems(lines));
    }
  }

  /** A whitespace run followed by a non-whitespace character is measured exactly. */
  lemma {:induction false} WhitespaceRunOver(s: string, from: nat, len: nat)
    requires from + len < |s|
    requires AllWhitespace(s[from..from + len]) && !IsWhitespace(s[from + len])
    ensures WhitespaceRun(s, from) == len
    decreases len
  {
    if len > 0 {
      assert s[from] == s[from..from + len][0];
      assert s[from + 1..from + len] == s[from..from + len][1..];
      WhitespaceRunOver(s, from + 1, len - 1);
    }
  }

  /**
   * What `/^[-*]\s+(.+)$/` accepts: a marker, a non-empty run of whitespace,
   * then the captured text, which is the end of the line and holds no line
   * terminator.
   */
  lemma BulletMatchSound(line: string, item: string)
    requires BulletMatch(line) == Some(item)
    ensures line[0] == '-' || line[0] == '*'
    ensures |item| >= 1 && |item| + 2 <= |line| && item == line[|line| - |item|..]
    ensures AllWhitespace(line[1..|line| - |item|]) && NoLineTerminator(item)
  {
    var n := WhitespaceRun(line, 1);
    WhitespaceRunSpec(line, 1);
    if 1 + n < |line| {
      assert item == line[1 + n..];
      assert line[1..|line| - |item|] == line[1..1 + n];
    } else {
      assert item == [line[|line| - 1]];
      assert item[1..] == [];
      assert line[1..|line| - 1] == line[1..1 + n][..n - 1];
    }
  }

  /** Conversely, a marker, whitespace and a text that starts with another character is a match capturing that text. */
  lemma BulletMatchComplete(marker: char, gap: string, item: string)
    requires marker == '-' || marker == '*'
    requires gap != [] && AllWhitespace(gap)
    requires item != [] && !IsWhitespace(item[0]) && NoLineTerminator(item)
    ensures BulletMatch([marker] + gap + item) == Some(item)
  {
    var line := [marker] + gap + item;
    assert line[1..1 + |gap|] == gap;
    assert line[1 + |gap|] == item[0];
    WhitespaceRunOver(line, 1, |gap|);
    assert line[1 + |gap|..] == item;
  }

  /** The item of a non-blank trimmed line is non-empty and trimmed, whether it is a capture or the line itself. */
  lemma ItemOfTrimmed(line: string)
    requires line != [] && IsTrimmed(line)
    ensures ItemOf(line) != [] && IsTrimmed(ItemOf(line))
  {
    match BulletMatch(line)
    case None =>
    case Some(item) =>
      BulletMatchSound(line, item);
      var n := WhitespaceRun(line, 1);
      WhitespaceRunSpec(line, 1);
      assert item[|item| - 1] == line[|line| - 1];
      assert 1 + n < |line|;
      assert item == line[1 + n..];
      assert item[0] == line[1 + n];
  }

  /** Every bullet item a section can yield is a non-empty trimmed text. */
  lemma {:induction false} LineItemsTrimmed(lines: seq<string>)
    ensures forall i :: 0 <= i < |LineItems(lines)| ==>
              LineItems(lines)[i] != [] && IsTrimmed(LineItems(lines)[i])
    decreases |lines|
  {
    if lines != [] {
      LineItemsTrimmed(lines[1..]);
      if Trim(lines[0]) != [] {
        TrimSpec(lines[0]);
        ItemOfTrimmed(Trim(lines[0]));
        var items := LineItems(lines);
        assert items == [ItemOf(Trim(lines[0]))] + LineItems(lines[1..]);
        forall i | 0 <= i < |items|
          ensures items[i] != [] && IsTrimmed(items[i])
        {
          if i > 0 { assert items[i] == LineItems(lines[1..])[i - 1]; }
        }
      }
    }
  }

  /** Outside bullet mode, no line but a `bullets:` line can start collecting items. */
  lemma {:induction false} NoHeaderNoBullets(lines: seq<string>, st: ScanState)
    requires !st.inBullets
    requires forall i :: 0 <= i < |lines| ==> ToLower(Trim(lines[i])) != "bullets:"
    ensures ScanLines(lines, st).bullets == st.bullets && !ScanLines(lines, st).inBullets
    decreases |lines|
  {
    if lines != [] {
      var st1 := LineStep(st, lines[0]);
      assert st1.bullets == st.bullets && !st1.inBullets;
      NoHeaderNoBullets(lines[1..], st1);
    }
  }

  /**
   * The bullets of a slide: present only when some items were collected, and
   * then each is a non-empty trimmed text taken from the section's lines in
   * order; a section without a `bullets:` line has none.
   */
  lemma SectionSlideBullets(section: string, id: nat)
    ensures var lines, r := Lines(section), SectionSlide(section, id);
      r.Some? && r.value.bullets.Some? ==>
        r.value.bullets.value != []
        && IsSubsequence(r.value.bullets.value, LineItems(lines))
        && (forall i :: 0 <= i < |r.value.bullets.value| ==>
              r.value.bullets.value[i] != [] && IsTrimmed(r.value.bullets.value[i]))
    ensures var lines, r := Lines(section), SectionSlide(section, id);
      (forall i :: 0 <= i < |lines| ==> ToLower(Trim(lines[i])) != "bullets:") && r.Some? ==>
        r.value.bullets.None?
  {
    var lines := Lines(section);
    var st := InitialState(id);
    var r := SectionSlide(section, id);
    ScanBulletsFromLines(lines, st);
    var b := ScanLines(lines, st).bullets;
    assert b[|st.bullets|..] == b;
    if r.Some? && r.value.bullets.Some? {
      SubsequenceItems(b, LineItems(lines));
      LineItemsTrimmed(lines);
      forall i | 0 <= i < |b|
        ensures b[i] != [] && IsTrimmed(b[i])
      {
        assert b[i] in LineItems(lines);
      }
    }
    if forall i :: 0 <= i < |lines| ==> ToLower(Trim(lines[i])) != "bullets:" {
      NoHeaderNoBullets(lines, st);
    }
  }

  /** Every element of a subsequence is an element of the longer sequence. */
  lemma {:induction false} SubsequenceItems(a: seq<string>, b: seq<string>)
    requires IsSubsequence(a, b)
    ensures forall x :: x in a ==> x in b
    decreases |b|
  {
    if a != [] {
      if a[0] == b[0] && IsSubsequence(a[1..], b[1..]) {
        SubsequenceItems(a[1..], b[1..]);
        assert a == [a[0]] + a[1..];
      } else {
        SubsequenceItems(a, b[1..]);
      }
    }
  }

  // ---------------------------------------------------------------------
  // The deck
  // ---------------------------------------------------------------------

  /**
   * The sections the parser reads are the pieces of the document between
   * separators that are not blank, none of them contains the separator, and
   * no non-blank piece is missed.
   */
  lemma SectionsSpec(markdown: string)
    ensures forall s :: s in Sections(markdown) ==> Trim(s) != [] && !Contains(s, SectionSeparator)
    ensures forall p :: p in Split(markdown, SectionSeparator) && Trim(p) != [] ==> p in Sections(markdown)
    ensures JoinWith(Split(markdown, SectionSeparator), SectionSeparator) == markdown
  {
    SplitPiecesAvoidSeparator(markdown, SectionSeparator);
    JoinSplit(markdown, SectionSeparator);
  }

  /**
   * The deck: at most one slide per non-blank section; the slide with id
   * `i` is what the `i`-th section yields (see `SectionResultAt`), with a
   * non-empty title and chapter; ids strictly increase, so a dropped section
   * leaves a gap; and every section that yields a slide is in the deck.
   */
  lemma ParseDeckSpec(markdown: string)
    ensures var results, slides := SectionResults(Sections(markdown)), ParseDeck(markdown);
      |slides| <= |results|
      && StrictlyIncreasingIds(slides)
      && (forall k :: 0 <= k < |slides| ==>
            1 <= slides[k].id <= |results| && results[slides[k].id - 1] == Some(slides[k])
            && slides[k].title != [] && slides[k].chapter != [])
      && (forall j :: 0 <= j < |results| && results[j].Some? ==> results[j].value in slides)
  {
    var results := SectionResults(Sections(markdown));
    var slides := ParseDeck(markdown);
    SectionResultsValid(Sections(markdown));
    KeptFromSections(results, |results|);
    KeptIdsIncrease(results, |results|);
    forall j | 0 <= j < |results| && results[j].Some?
      ensures results[j].value in slides
    {
      KeptComplete(results, |results|, j);
    }
  }
}
