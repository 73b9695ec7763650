/** The application component: the request state behind `handleGenerate`, which
    renders the control panel and the viewer from it. */
module App {
  import opened Wrappers
  import opened Text
  import opened SlideData
  import GeminiService
  import opened PresentationViewer
  import ControlPanel

  const EnterTopicMessage := "Please enter a topic for your presentation."
  const EmptyDeckMessage := "The AI could not generate slides for this topic. Please try again with a different topic."
  const FailurePrefix := "Failed to generate presentation. "
  const UnknownErrorMessage := "An unknown error occurred."

  /** How the awaited generation settled: it resolved with a deck (possibly `null`
      or `undefined`), or it rejected, with the `message` of the value thrown when
      that value is an `Error`. */
  datatype Generation = Resolved(deck: Option<Deck>) | Failed(message: Option<string>)

  /** The generation client always rejects with an `Error`, so its message is kept. */
  function FromService(r: Result<Deck, string>): Generation {
    match r
    case Success(d) => Resolved(Some(d))
    case Failure(m) => Failed(Some(m))
  }

  /** `generatedSlides && generatedSlides.length > 0`. */
  predicate HasSlides(g: Generation) {
    g.Resolved? && g.deck.Some? && g.deck.value != []
  }

  /** The deck once the request has settled: the generated one, in the same order,
      when there is one, and otherwise the empty deck set when the request began. */
  function SettledSlides(g: Generation): (d: Deck)
    ensures HasSlides(g) ==> d == g.deck.value
    ensures !HasSlides(g) ==> d == []
  {
    if HasSlides(g) then g.deck.value else []
  }

  /** The error once the request has settled. */
  function SettledError(g: Generation): (e: Option<string>)
    ensures HasSlides(g) ==> e == None
    ensures g.Resolved? && !HasSlides(g) ==>
              e == Some("The AI could not generate slides for this topic. Please try again with a different topic.")
    ensures g.Failed? && g.message.Some? ==>
              e == Some("Failed to generate presentation. " + g.message.value)
    ensures g == Failed(None) ==>
              e == Some("Failed to generate presentation. " + "An unknown error occurred.")
  {
    match g
    case Resolved(_) => if HasSlides(g) then None else Some(EmptyDeckMessage)
    case Failed(m) => Some(FailurePrefix + if m.Some? then m.value else UnknownErrorMessage)
  }

  /** After a request settles there is an error exactly when there are no slides,
      and an error is never the empty string, so the viewer always shows it. */
  lemma SettledErrorIffNoSlides(g: Generation)
    ensures SettledError(g).Some? <==> SettledSlides(g) == []
    ensures SettledError(g).Some? ==> Shows(SettledError(g))
  {
    if g.Failed? {
      assert |SettledError(g).value| >= |FailurePrefix|;
    }
  }

  /** A rejection's own message follows the fixed prefix in the error. */
  lemma FailureMessageKept(m: string)
    ensures SettledError(Failed(Some(m))).value[..|FailurePrefix|] == FailurePrefix
    ensures SettledError(Failed(Some(m))).value[|FailurePrefix|..] == m
  {
  }

  /** Any failure of the generation client ends in the same error text and an
      empty deck. */
  lemma ServiceFailureShown(reply: GeminiService.Reply, parse: string -> Option<Json>)
    requires !GeminiService.Accepted(reply, parse)
    ensures SettledSlides(FromService(GeminiService.GenerateSlides(reply, parse))) == []
    ensures SettledError(FromService(GeminiService.GenerateSlides(reply, parse))) ==
              Some("Failed to generate presentation. " + "Failed to communicate with the AI service.")
  {
    var r := GeminiService.GenerateSlides(reply, parse);
    assert r == Failure(GeminiService.CommunicationFailure);
    assert FromService(r) == Failed(Some(GeminiService.CommunicationFailure));
  }

  /** An accepted reply is shown as it came when it holds slides; an accepted empty
      array gives the "could not generate" error instead. */
  lemma ServiceDeckShown(reply: GeminiService.Reply, parse: string -> Option<Json>)
    requires GeminiService.Accepted(reply, parse)
    ensures var items := parse(Trim(reply.text.value)).value.items;
            var g := FromService(GeminiService.GenerateSlides(reply, parse));
            && SettledSlides(g) == items
            && (SettledError(g) == None <==> items != [])
            && (items == [] ==> SettledError(g) == Some(EmptyDeckMessage))
  {
  }

  /** Right after a deck arrives the viewer shows its first slide, with the
      previous button disabled and the indicator at "Slide 1 of n". */
  lemma SettledDeckShowsFirstSlide(g: Generation)
    requires HasSlides(g)
    ensures var d := g.deck.value;
            RenderContent(false, SettledError(g), SettledSlides(g), 0) ==
              SlidePage(d[0], true, Indicator(1, |d|), |d| == 1)
  {
  }

  /** When a request settles without slides the viewer shows the error panel. */
  lemma SettledFailureShowsError(g: Generation)
    requires !HasSlides(g)
    ensures RenderContent(false, SettledError(g), SettledSlides(g), 0) == ErrorPanel(SettledError(g).value)
  {
    SettledErrorIffNoSlides(g);
  }

  /** A blank submission over an existing deck: the error panel is shown while the
      old slides are kept and can still be downloaded. */
  lemma BlankSubmitOverDeck(slides: Deck, i: int)
    requires slides != [] && InRange(i, |slides|)
    ensures RenderContent(false, Some(EnterTopicMessage), slides, i) == ErrorPanel(EnterTopicMessage)
    ensures DownloadVisible(slides, false)
  {
  }

  class Controller {
    var slides: Deck
    var isLoading: bool
    var error: Option<string>
    var presentationTopic: string
    /** The viewer rendered with `slides`; its index is reset whenever they are replaced. */
    const viewer: Viewer

    /** The viewer holds the current slides, a request in flight has cleared the deck
        and the error, and an error message is never the empty string. */
    ghost predicate Valid()
      reads this, viewer
    {
      && viewer.Valid()
      && viewer.slides == slides
      && (isLoading ==> slides == [] && error == None)
      && (error.Some? ==> error.value != "")
    }

    /** The initial state: no slides, not loading, no error, empty topic. */
    constructor()
      ensures Valid() && fresh(viewer)
      ensures slides == [] && !isLoading && error == None && presentationTopic == ""
      ensures viewer.currentSlideIndex == 0
    {
      slides := [];
      isLoading := false;
      error := None;
      presentationTopic := "";
      viewer := new Viewer([]);
    }

    /** The part of `handleGenerate` before the `await`: a blank topic only sets the
        input error; otherwise the state is cleared and loading begins with the topic
        as given, untrimmed. */
    method Submit(topic: string) returns (started: bool)
      requires Valid() && !isLoading
      modifies this, viewer
      ensures Valid()
      ensures started <==> !IsBlank(topic)
      ensures !started ==> && error == Some("Please enter a topic for your presentation.")
                           && slides == old(slides) && isLoading == old(isLoading)
                           && presentationTopic == old(presentationTopic)
                           && viewer.currentSlideIndex == old(viewer.currentSlideIndex)
      ensures started ==> && isLoading && error == None && slides == []
                          && presentationTopic == topic && viewer.currentSlideIndex == 0
    {
      if IsBlank(topic) {
        error := Some(EnterTopicMessage);
        return false;
      }
      isLoading := true;
      error := None;
      slides := [];
      viewer.ReplaceSlides([]);
      presentationTopic := topic;
      started := true;
    }

    /** The part of `handleGenerate` after the `await`, `finally` included. */
    method Settle(g: Generation)
      requires Valid() && isLoading
      modifies this, viewer
      ensures Valid() && !isLoading
      ensures slides == SettledSlides(g) && error == SettledError(g)
      ensures presentationTopic == old(presentationTopic)
      ensures viewer.currentSlideIndex == 0
      ensures error.Some? <==> slides == []
    {
      match g {
        case Resolved(d) =>
          if d.Some? && |d.value| > 0 {
            slides := d.value;
            viewer.ReplaceSlides(d.value);
          } else {
            error := Some(EmptyDeckMessage);
          }
        case Failed(m) =>
          var message := if m.Some? then m.value else UnknownErrorMessage;
          error := Some(FailurePrefix + message);
      }
      isLoading := false;
      SettledErrorIffNoSlides(g);
    }

    /** `handleGenerate` with one request in flight: a submission followed, when it
        starts a request, by that request's outcome. */
    method HandleGenerate(topic: string, g: Generation)
      requires Valid() && !isLoading
      modifies this, viewer
      ensures Valid() && !isLoading
      ensures IsBlank(topic) ==> && error == Some(EnterTopicMessage) && slides == old(slides)
                                 && presentationTopic == old(presentationTopic)
                                 && viewer.currentSlideIndex == old(viewer.currentSlideIndex)
      ensures !IsBlank(topic) ==> && slides == SettledSlides(g) && error == SettledError(g)
                                  && presentationTopic == topic && viewer.currentSlideIndex == 0
                                  && (error.Some? <==> slides == [])
    {
      var started := Submit(topic);
      if started {
        Settle(g);
      }
    }

    /** The control panel's submit, wired to `handleGenerate`: an enabled button
        always starts a request, with the topic exactly as typed. */
    method SubmitFromPanel(panel: ControlPanel.Panel) returns (started: bool)
      requires Valid() && !ControlPanel.SubmitDisabled(isLoading, panel.topic)
      modifies this, viewer
      ensures Valid()
      ensures started && isLoading && slides == [] && error == None
      ensures presentationTopic == panel.topic
    {
      var topic := panel.HandleSubmit();
      started := Submit(topic);
    }

    /** What the viewer shows for the current state. */
    function Render(): (v: View)
      reads this, viewer
      requires Valid()
      ensures v.Spinner? <==> isLoading
      ensures v.ErrorPanel? <==> !isLoading && error.Some?
      ensures v.Welcome? <==> !isLoading && error == None && slides == []
      ensures v.SlidePage? ==> && v.slide == slides[viewer.currentSlideIndex]
                               && v.indicator == IndicatorOf(viewer.currentSlideIndex, |slides|)
                               && (v.prevDisabled <==> viewer.currentSlideIndex == 0)
                               && (v.nextDisabled <==> viewer.currentSlideIndex == |slides| - 1)
    {
      RenderContent(isLoading, error, slides, viewer.currentSlideIndex)
    }

    /** The next-slide button: only the index moves, and every field of the
        application state is kept, so the state stays valid. */
    method Next()
      requires Valid()
      modifies viewer
      ensures Valid()
      ensures viewer.currentSlideIndex == NextIndex(old(viewer.currentSlideIndex), |slides|)
    {
      viewer.GoToNextSlide();
    }

    /** The previous-slide button: only the index moves. */
    method Prev()
      requires Valid()
      modifies viewer
      ensures Valid()
      ensures viewer.currentSlideIndex == PrevIndex(old(viewer.currentSlideIndex))
    {
      viewer.GoToPrevSlide();
    }

    /** The download button: the export gets the current slides and the topic
        stored by the last request that started, both unchanged. */
    method Download() returns (call: ExportCall)
      requires Valid()
      ensures call == ExportCall(slides, presentationTopic)
    {
      call := viewer.HandleDownload(presentationTopic);
    }

    /** Whether the download button is rendered. */
    function DownloadOffered(): bool
      reads this
    {
      DownloadVisible(slides, isLoading)
    }
  }

  /** A topic that starts with a visible character is not blank. */
  lemma NotBlank(topic: string)
    requires topic != [] && !IsSpace(topic[0])
    ensures !IsBlank(topic)
  {
    BlankIffAllSpace(topic);
  }

  /** A six-slide deck generated for a topic is shown from "Slide 1 of 6"; at the
      last slide the next button is disabled and pressing it changes nothing. */
  method SuccessfulGeneration(d: Deck)
    requires |d| == 6
  {
    var c := new Controller();
    NotBlank("The history of jazz");
    c.HandleGenerate("The history of jazz", Resolved(Some(d)));
    var v := c.Render();
    assert v == SlidePage(d[0], true, Indicator(1, 6), false);
    assert c.DownloadOffered();
    var k := 0;
    while k < 5
      invariant 0 <= k <= 5
      invariant c.Valid() && c.slides == d && c.viewer.currentSlideIndex == k
      invariant !c.isLoading && c.error == None && c.presentationTopic == "The history of jazz"
    {
      c.Next();
      k := k + 1;
    }
    assert c.Render() == SlidePage(d[5], false, Indicator(6, 6), true);
    c.Next();
    assert c.viewer.currentSlideIndex == 5;
    var call := c.Download();
    assert call == ExportCall(d, "The history of jazz");
  }

  /** A blank topic never starts a request and sets the input error. */
  method BlankTopic()
  {
    var c := new Controller();
    var started := c.Submit("");
    assert !started && c.error == Some(EnterTopicMessage) && !c.isLoading;
  }

  /** An empty deck ends in the "could not generate" error; a rejection ends in the
      prefixed message of the failure. */
  method FailedGenerations(topic: string)
    requires !IsBlank(topic)
  {
    var c := new Controller();
    c.HandleGenerate(topic, Resolved(Some([])));
    assert c.error == Some(EmptyDeckMessage) && c.slides == [];
    c.HandleGenerate(topic, Failed(Some("rate limited")));
    assert c.error == Some("Failed to generate presentation. " + "rate limited") && !c.isLoading;
  }
}
