/**
 * The viewer's state: the deck, the index of the slide on screen, the zoom
 * flag and whether the slide picker is open, with the transitions that the
 * navigation areas, the keyboard, the picker and the image manager trigger,
 * and what the screen shows for a state.
 */
module Viewer {

  import opened Optional
  import opened Strings
  import opened Slides

  /** The four pieces of state the viewer keeps. */
  datatype ViewState = ViewState(slides: seq<Slide>, index: int, zoomMode: bool, pickerOpen: bool)

  function Min(a: int, b: int): int { if a <= b then a else b }

  function Max(a: int, b: int): int { if a >= b then a else b }

  /** The state the viewer starts in: first slide, zoom on, picker closed. */
  function Initial(deck: seq<Slide>): ViewState {
    ViewState(deck, 0, true, false)
  }

  /** The index names a slide of the deck. */
  predicate InDeck(v: ViewState) {
    0 <= v.index < |v.slides|
  }

  /** Go forward one slide, but never past the last one. */
  function Next(v: ViewState): ViewState {
    v.(index := Min(v.index + 1, |v.slides| - 1))
  }

  /** Go back one slide, but never before the first one. */
  function Prev(v: ViewState): ViewState {
    v.(index := Max(v.index - 1, 0))
  }

  /** Picking a slide shows it and closes the picker; the index is taken as given. */
  function Jump(v: ViewState, index: int): ViewState {
    v.(index := index, pickerOpen := false)
  }

  function OpenPicker(v: ViewState): ViewState {
    v.(pickerOpen := true)
  }

  function ClosePicker(v: ViewState): ViewState {
    v.(pickerOpen := false)
  }

  function ToggleZoom(v: ViewState): ViewState {
    v.(zoomMode := !v.zoomMode)
  }

  /** Every slide whose id is `id` gets `image` (which may be absent); all others are kept. */
  function WithImage(slides: seq<Slide>, id: int, image: Option<string>): (r: seq<Slide>)
    ensures |r| == |slides|
  {
    if slides == [] then []
    else
      [if slides[0].id == id then slides[0].(image := image) else slides[0]]
      + WithImage(slides[1..], id, image)
  }

  function UpdateImage(v: ViewState, id: int, image: Option<string>): ViewState {
    v.(slides := WithImage(v.slides, id, image))
  }

  /** The keyboard: right arrow or space go forward, left arrow goes back, `z` or `Z` toggles zoom. */
  function KeyDown(v: ViewState, key: string): ViewState {
    if key == "ArrowRight" || key == " " then Next(v)
    else if key == "ArrowLeft" then Prev(v)
    else if key == "z" || key == "Z" then ToggleZoom(v)
    else v
  }

  /** The slide on screen; there is none when the index is outside the deck. */
  function CurrentSlide(v: ViewState): (r: Option<Slide>)
    ensures r.Some? <==> InDeck(v)
    ensures r.Some? ==> r.value == v.slides[v.index]
  {
    if 0 <= v.index < |v.slides| then Some(v.slides[v.index]) else None
  }

  /** `hero` and `dark` slides switch the page to its dark colours. */
  predicate IsDarkMode(s: Slide) {
    s.slideType == Dark || s.slideType == Hero
  }

  /** An exact fraction `num / den`. */
  datatype Fraction = Fraction(num: int, den: int)

  /** The width of the progress bar in percent, as an exact fraction. */
  function Progress(v: ViewState): Fraction {
    if |v.slides| > 0 then Fraction((v.index + 1) * 100, |v.slides|) else Fraction(0, 1)
  }

  /** The footer counter: the 1-based position over the deck size. */
  function Counter(v: ViewState): (int, int) {
    (v.index + 1, |v.slides|)
  }

  /** Keeps the non-empty names, in order. */
  function NonEmptyNames(names: seq<string>): (r: seq<string>)
    ensures |r| <= |names|
  {
    if names == [] then []
    else if names[0] == [] then NonEmptyNames(names[1..])
    else [names[0]] + NonEmptyNames(names[1..])
  }

  /** The class list of the page: `app`, then `dark-mode` and `zoom-mode` when they apply. */
  function AppClasses(dark: bool, zoom: bool): string {
    JoinWith(NonEmptyNames(["app", if dark then "dark-mode" else "", if zoom then "zoom-mode" else ""]), " ")
  }

  /** What the page shows for a state. */
  datatype Screen =
    | NoSlides
    | Showing(slide: Slide, chapter: string, progress: Fraction, counter: (int, int),
              classes: string, pickerOpen: bool)

  function Render(v: ViewState): (r: Screen)
    ensures r.Showing? <==> InDeck(v)
  {
    match CurrentSlide(v)
    case None => NoSlides
    case Some(s) =>
      Showing(s, s.chapter, Progress(v), Counter(v),
              AppClasses(IsDarkMode(s), v.zoomMode), v.pickerOpen)
  }

  /** Forward stays inside the deck, moves by one, and stops at the last slide. */
  lemma NextStep(v: ViewState)
    requires InDeck(v)
    ensures InDeck(Next(v))
    ensures Next(v).index == if v.index < |v.slides| - 1 then v.index + 1 else v.index
    ensures Next(v).slides == v.slides && Next(v).zoomMode == v.zoomMode && Next(v).pickerOpen == v.pickerOpen
  {
  }

  /** Back stays inside the deck, moves by one, and stops at the first slide. */
  lemma PrevStep(v: ViewState)
    requires InDeck(v)
    ensures InDeck(Prev(v))
    ensures Prev(v).index == if v.index > 0 then v.index - 1 else 0
    ensures Prev(v).slides == v.slides && Prev(v).zoomMode == v.zoomMode && Prev(v).pickerOpen == v.pickerOpen
  {
  }

  /** Back undoes forward away from the last slide, and forward undoes back away from the first. */
  lemma NextPrevUndo(v: ViewState)
    requires InDeck(v)
    ensures v.index < |v.slides| - 1 ==> Prev(Next(v)) == v
    ensures v.index > 0 ==> Next(Prev(v)) == v
  {
  }

  /**
   * On an empty deck, forward moves the index to -1: there is still no
   * slide to show.
   */
  lemma NextOnEmptyDeck(v: ViewState)
    requires |v.slides| == 0 && v.index >= 0
    ensures Next(v).index == -1 && Render(Next(v)) == NoSlides
  {
    assert !Render(Next(v)).Showing?;
  }

  /** The arrow keys and space navigate, `z`/`Z` toggle zoom, and no other key changes anything. */
  lemma KeyDownEffects(v: ViewState, key: string)
    ensures (key == "ArrowRight" || key == " ") ==> KeyDown(v, key) == Next(v)
    ensures key == "ArrowLeft" ==> KeyDown(v, key) == Prev(v)
    ensures (key == "z" || key == "Z") ==>
      KeyDown(v, key).zoomMode == !v.zoomMode && KeyDown(v, key).(zoomMode := v.zoomMode) == v
    ensures key !in {"ArrowRight", " ", "ArrowLeft", "z", "Z"} ==> KeyDown(v, key) == v
    ensures KeyDown(v, key).slides == v.slides && KeyDown(v, key).pickerOpen == v.pickerOpen
  {
  }

  /** Two zoom keys in a row restore the zoom flag. */
  lemma ZoomTwice(v: ViewState, k1: string, k2: string)
    requires k1 == "z" || k1 == "Z"
    requires k2 == "z" || k2 == "Z"
    ensures KeyDown(KeyDown(v, k1), k2) == v
  {
  }

  /** The picker lands exactly on the chosen slide and is closed afterwards. */
  lemma JumpShows(v: ViewState, index: int)
    ensures Jump(v, index).index == index && !Jump(v, index).pickerOpen
    ensures InDeck(Jump(v, index)) <==> 0 <= index < |v.slides|
    ensures CurrentSlide(Jump(v, index)).Some? ==> CurrentSlide(Jump(v, index)).value == v.slides[index]
  {
  }

  /**
   * An image update changes only the `image` of the slides with the given
   * id, and keeps the order, the ids and every other field.
   */
  lemma {:induction false} WithImageSpec(slides: seq<Slide>, id: int, image: Option<string>)
    ensures var r := WithImage(slides, id, image);
      |r| == |slides|
      && forall k :: 0 <= k < |slides| ==>
           r[k].(image := slides[k].image) == slides[k]
           && r[k].image == (if slides[k].id == id then image else slides[k].image)
    decreases |slides|
  {
    if slides != [] {
      WithImageSpec(slides[1..], id, image);
    }
  }

  /** The ids of a deck, in order. */
  function Ids(slides: seq<Slide>): (r: seq<int>)
    ensures |r| == |slides|
  {
    if slides == [] then [] else [slides[0].id] + Ids(slides[1..])
  }

  lemma {:induction false} WithImageKeepsIds(slides: seq<Slide>, id: int, image: Option<string>)
    ensures Ids(WithImage(slides, id, image)) == Ids(slides)
    decreases |slides|
  {
    if slides != [] {
      WithImageKeepsIds(slides[1..], id, image);
    }
  }

  /**
   * While a slide is shown, the progress bar is between 0 and 100 percent and
   * full exactly on the last slide, and the counter reads a position from 1
   * to the deck size.
   */
  lemma ProgressBounds(v: ViewState)
    requires InDeck(v)
    ensures var p := Progress(v);
      p.den == |v.slides| && 0 < p.num <= 100 * p.den
      && (p.num == 100 * p.den <==> v.index == |v.slides| - 1)
    ensures 1 <= Counter(v).0 <= Counter(v).1
  {
    var n := |v.slides|;
    assert (v.index + 1) * 100 <= n * 100;
    assert v.index + 1 < n ==> (v.index + 1) * 100 < n * 100;
  }

  /** Each step forward adds the same share of the bar. */
  lemma ProgressOfNext(v: ViewState)
    requires InDeck(v) && v.index < |v.slides| - 1
    ensures Progress(Next(v)).den == Progress(v).den
    ensures Progress(Next(v)).num == Progress(v).num + 100
  {
  }

  /** The class list spelled out: `app`, then ` dark-mode` and ` zoom-mode` when they apply. */
  lemma AppClassesSpelled(dark: bool, zoom: bool)
    ensures AppClasses(dark, zoom)
      == "app" + (if dark then " dark-mode" else "") + (if zoom then " zoom-mode" else "")
  {
    var d: string := if dark then "dark-mode" else "";
    var z: string := if zoom then "zoom-mode" else "";
    var names := ["app", d, z];
    assert names[1..] == [d, z];
    assert [d, z][1..] == [z];
    assert [z][1..] == [];
    var last := NonEmptyNames([z]);
    assert last == if zoom then [z] else [];
    var rest := NonEmptyNames([d, z]);
    assert rest == if dark then [d] + last else last;
    assert NonEmptyNames(names) == ["app"] + rest;
    var base: seq<string> := if dark then ["app", d] else ["app"];
    var head: string := "app" + (if dark then " dark-mode" else "");
    if dark {
      assert ["app", d][1..] == [d];
    }
    assert JoinWith(base, " ") == head;
    if zoom {
      assert NonEmptyNames(names) == base + [z];
      JoinThenName(base, z);
    } else {
      assert NonEmptyNames(names) == base;
      assert head == head + "";
    }
  }

  /** Joining with one more name appends a space and that name. */
  lemma JoinThenName(names: seq<string>, name: string)
    requires |names| > 0
    ensures JoinWith(names + [name], " ") == JoinWith(names, " ") + " " + name
  {
    JoinWithAppend(names, [name], " ");
  }

  /** The events the viewer reacts to. */
  datatype Event =
    | NextClicked
    | PrevClicked
    | KeyPressed(key: string)
    | SlidePicked(index: int)
    | CounterClicked
    | PickerClosed
    | ImageChanged(id: int, image: Option<string>)

  function Step(v: ViewState, e: Event): ViewState {
    match e
    case NextClicked => Next(v)
    case PrevClicked => Prev(v)
    case KeyPressed(key) => KeyDown(v, key)
    case SlidePicked(index) => Jump(v, index)
    case CounterClicked => OpenPicker(v)
    case PickerClosed => ClosePicker(v)
    case ImageChanged(id, image) => UpdateImage(v, id, image)
  }

  function Run(v: ViewState, events: seq<Event>): ViewState
    decreases |events|
  {
    if events == [] then v else Run(Step(v, events[0]), events[1..])
  }

  /** The picker offers only slides of the deck. */
  predicate PicksInDeck(events: seq<Event>, size: int) {
    forall e :: e in events && e.SlidePicked? ==> 0 <= e.index < size
  }

  /** One event keeps a shown slide on screen and keeps the ids of the deck. */
  lemma StepStaysInDeck(v: ViewState, e: Event)
    requires InDeck(v)
    requires e.SlidePicked? ==> 0 <= e.index < |v.slides|
    ensures InDeck(Step(v, e))
    ensures Ids(Step(v, e).slides) == Ids(v.slides)
  {
    if e.ImageChanged? {
      WithImageKeepsIds(v.slides, e.id, e.image);
    }
  }

  /**
   * Once a slide is on screen, one stays on screen whatever the user does
   * (as long as the picker offers slides of the deck), and the deck keeps
   * its size and its ids in order.
   */
  lemma {:induction false} RunStaysInDeck(v: ViewState, events: seq<Event>)
    requires InDeck(v)
    requires PicksInDeck(events, |v.slides|)
    ensures InDeck(Run(v, events))
    ensures Ids(Run(v, events).slides) == Ids(v.slides)
    decreases |events|
  {
    if events != [] {
      var w := Step(v, events[0]);
      assert events[0] in events;
      StepStaysInDeck(v, events[0]);
      assert forall e :: e in events[1..] ==> e in events;
      RunStaysInDeck(w, events[1..]);
    }
  }

  /** A deck with slides starts with its first slide on screen. */
  lemma InitialShowsFirst(deck: seq<Slide>)
    ensures InDeck(Initial(deck)) <==> |deck| > 0
    ensures |deck| > 0 ==> Render(Initial(deck)).Showing? && Render(Initial(deck)).slide == deck[0]
  {
  }

  /**
   * The viewer component: its four pieces of state and the handlers that
   * update them.  Each handler's effect is the matching transition above.
   */
  class App {
    var slideData: seq<Slide>
    var currentIndex: int
    var zoomMode: bool
    var isPickerOpen: bool

    function State(): ViewState
      reads this
    {
      ViewState(slideData, currentIndex, zoomMode, isPickerOpen)
    }

    constructor(deck: seq<Slide>)
      ensures State() == Initial(deck)
    {
      slideData := deck;
      currentIndex := 0;
      zoomMode := true;
      isPickerOpen := false;
    }

    method HandleNext()
      modifies this
      ensures State() == Next(old(State()))
    {
      currentIndex := Min(currentIndex + 1, |slideData| - 1);
    }

    method HandlePrev()
      modifies this
      ensures State() == Prev(old(State()))
    {
      currentIndex := Max(currentIndex - 1, 0);
    }

    method JumpToSlide(index: int)
      modifies this
      ensures State() == Jump(old(State()), index)
    {
      currentIndex := index;
      isPickerOpen := false;
    }

    method HandleImageUpdate(slideId: int, newImage: Option<string>)
      modifies this
      ensures State() == UpdateImage(old(State()), slideId, newImage)
    {
      slideData := WithImage(slideData, slideId, newImage);
    }

    method HandleKeyDown(key: string)
      modifies this
      ensures State() == KeyDown(old(State()), key)
    {
      if key == "ArrowRight" || key == " " {
        HandleNext();
      } else if key == "ArrowLeft" {
        HandlePrev();
      } else if key == "z" || key == "Z" {
        zoomMode := !zoomMode;
      }
    }

    /** A click on the counter opens the picker. */
    method OpenSlidePicker()
      modifies this
      ensures State() == OpenPicker(old(State()))
    {
      isPickerOpen := true;
    }

    /** The picker's close button. */
    method CloseSlidePicker()
      modifies this
      ensures State() == ClosePicker(old(State()))
    {
      isPickerOpen := false;
    }
  }
}
