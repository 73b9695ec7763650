/** The presentation viewer: the current slide index it owns, the clamped
    next/previous moves, the reset whenever the deck is replaced, and the choice
    of what to show from the props it is given. */
module PresentationViewer {
  import opened Wrappers
  import opened SlideData

  /** The index invariant: never negative, below the deck length when there are
      slides, and resting at 0 on an empty deck. */
  predicate InRange(i: int, n: int) {
    0 <= i && if n > 0 then i < n else i == 0
  }

  /** `goToNextSlide`'s update on a deck of `n` slides. */
  function NextIndex(i: int, n: int): int {
    if i < n - 1 then i + 1 else i
  }

  /** `goToPrevSlide`'s update. */
  function PrevIndex(i: int): int {
    if i > 0 then i - 1 else i
  }

  /** `disabled` of the previous-slide button. */
  predicate PrevDisabled(i: int) {
    i == 0
  }

  /** `disabled` of the next-slide button. */
  predicate NextDisabled(i: int, n: int) {
    i == n - 1
  }

  /** The two numbers of the indicator "Slide {position} of {total}". */
  datatype Indicator = Indicator(position: int, total: int)

  function IndicatorOf(i: int, n: int): (ind: Indicator)
    requires InRange(i, n) && n > 0
    ensures 1 <= ind.position <= ind.total == n
    ensures ind.position - 1 == i
  {
    Indicator(i + 1, n)
  }

  /** What `renderContent` shows. */
  datatype View =
    | Spinner
    | ErrorPanel(message: string)
    | Welcome
    | SlidePage(slide: Json, prevDisabled: bool, indicator: Indicator, nextDisabled: bool)

  /** `if (error)`: `null` and the empty string are falsy. */
  predicate Shows(error: Option<string>) {
    error.Some? && error.value != ""
  }

  /** `renderContent`: loading wins over an error, an error over the empty welcome
      page, and only then is the slide at the current index shown, with the
      buttons' disabled flags and the indicator. */
  function RenderContent(isLoading: bool, error: Option<string>, slides: Deck, i: int): (v: View)
    requires InRange(i, |slides|)
    ensures v.Spinner? <==> isLoading
    ensures v.ErrorPanel? <==> !isLoading && Shows(error)
    ensures v.ErrorPanel? ==> v.message == error.value
    ensures v.Welcome? <==> !isLoading && !Shows(error) && slides == []
    ensures v.SlidePage? ==> && v.slide == slides[i]
                             && v.indicator == IndicatorOf(i, |slides|)
                             && 1 <= v.indicator.position <= v.indicator.total == |slides|
                             && (v.prevDisabled <==> i == 0)
                             && (v.nextDisabled <==> i == |slides| - 1)
  {
    if isLoading then Spinner
    else if Shows(error) then ErrorPanel(error.value)
    else if |slides| == 0 then Welcome
    else SlidePage(slides[i], PrevDisabled(i), IndicatorOf(i, |slides|), NextDisabled(i, |slides|))
  }

  /** The download button is rendered when there are slides and nothing is loading;
      an error message does not hide it. */
  predicate DownloadVisible(slides: Deck, isLoading: bool) {
    |slides| > 0 && !isLoading
  }

  /** The download button appears beside the slide page or an error panel, never
      beside the spinner or the welcome page, and always beside the slide page. */
  lemma DownloadBesideDeck(isLoading: bool, error: Option<string>, slides: Deck, i: int)
    requires InRange(i, |slides|)
    ensures DownloadVisible(slides, isLoading) ==>
              RenderContent(isLoading, error, slides, i).SlidePage? ||
              RenderContent(isLoading, error, slides, i).ErrorPanel?
    ensures RenderContent(isLoading, error, slides, i).SlidePage? ==> DownloadVisible(slides, isLoading)
  {
  }

  /** The arguments `downloadPptx` is called with. */
  datatype ExportCall = ExportCall(slides: Deck, topic: string)

  /** A press of one of the two navigation buttons. */
  datatype Nav = Next | Prev

  function Step(i: int, n: int, nav: Nav): int {
    match nav
    case Next => NextIndex(i, n)
    case Prev => PrevIndex(i)
  }

  /** The index after a sequence of presses. */
  function Navigate(i: int, n: int, presses: seq<Nav>): int
    decreases |presses|
  {
    if presses == [] then i else Navigate(Step(i, n, presses[0]), n, presses[1..])
  }

  /** Each move keeps the index invariant. */
  lemma StepStaysInRange(i: int, n: int, nav: Nav)
    requires InRange(i, n)
    ensures InRange(Step(i, n, nav), n)
  {
  }

  /** Any sequence of presses from an index in range, in particular from 0 right
      after a reset, keeps the index in range. */
  lemma {:induction false} NavigateStaysInRange(i: int, n: int, presses: seq<Nav>)
    requires InRange(i, n)
    ensures InRange(Navigate(i, n, presses), n)
    decreases |presses|
  {
    if presses != [] {
      StepStaysInRange(i, n, presses[0]);
      NavigateStaysInRange(Step(i, n, presses[0]), n, presses[1..]);
    }
  }

  /** On an empty deck every press leaves the index at 0. */
  lemma EmptyDeckIgnoresPresses(presses: seq<Nav>)
    ensures Navigate(0, 0, presses) == 0
  {
    NavigateStaysInRange(0, 0, presses);
  }

  /** On a deck that is shown, a button is disabled exactly when pressing it would
      not move the index, and an enabled button moves it by one. */
  lemma DisabledIffNoOp(i: int, n: int)
    requires InRange(i, n) && n > 0
    ensures NextIndex(i, n) == i <==> NextDisabled(i, n)
    ensures PrevIndex(i) == i <==> PrevDisabled(i)
    ensures !NextDisabled(i, n) ==> NextIndex(i, n) == i + 1
    ensures !PrevDisabled(i) ==> PrevIndex(i) == i - 1
  {
  }

  /** The viewer's own state: the `slides` prop it was last given and the index. */
  class Viewer {
    var slides: Deck
    var currentSlideIndex: int

    ghost predicate Valid()
      reads this
    {
      InRange(currentSlideIndex, |slides|)
    }

    /** Mounting: the index starts at 0 and the effect sets it to 0 again. */
    constructor(slides: Deck)
      ensures Valid()
      ensures this.slides == slides && currentSlideIndex == 0
    {
      this.slides := slides;
      currentSlideIndex := 0;
    }

    /** A new `slides` prop: the effect on `[slides]` resets the index, whatever it was. */
    method ReplaceSlides(s: Deck)
      modifies this
      ensures Valid()
      ensures slides == s && currentSlideIndex == 0
    {
      slides := s;
      currentSlideIndex := 0;
    }

    method GoToNextSlide()
      requires Valid()
      modifies this
      ensures Valid()
      ensures slides == old(slides)
      ensures currentSlideIndex == NextIndex(old(currentSlideIndex), |slides|)
    {
      if currentSlideIndex < |slides| - 1 {
        currentSlideIndex := currentSlideIndex + 1;
      }
    }

    method GoToPrevSlide()
      requires Valid()
      modifies this
      ensures Valid()
      ensures slides == old(slides)
      ensures currentSlideIndex == PrevIndex(old(currentSlideIndex))
    {
      if currentSlideIndex > 0 {
        currentSlideIndex := currentSlideIndex - 1;
      }
    }

    /** `handleDownload`: the current slides and the topic are handed on unchanged. */
    method HandleDownload(topic: string) returns (call: ExportCall)
      ensures call.slides == slides && call.topic == topic
    {
      call := ExportCall(slides, topic);
    }
  }
}
