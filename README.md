# AI presentation generator: request state, validation and pagination

A model of the state handling of a browser application that asks a hosted language
model for a slide deck on a topic, shows the deck one slide at a time and exports it
to a presentation file. The model call, `JSON.parse` and the export library are
inputs or recorded calls. What the model covers is the code the application owns:

- `App` (`app.dfy`): the request state behind `handleGenerate`. It is the class
  `Controller`, with fields `slides`, `isLoading`, `error` and `presentationTopic`,
  and it owns the viewer. `Submit` is the part before the `await`. `Settle` is the
  part after it, `finally` included. `HandleGenerate` is the two together. The
  settled deck and error are the functions `SettledSlides` and `SettledError`, and
  the lemmas beside them state the error-iff-empty invariant and the exact messages.
- `PresentationViewer` (`presentation_viewer.dfy`): the class `Viewer`, which holds
  the `slides` prop and `currentSlideIndex`. It resets the index whenever the deck
  is replaced, and it has clamped next and previous moves. Beside it are pure
  functions for the four-way render precedence, the disabled flags, the
  "Slide i of n" indicator and the visibility of the download button.
- `GeminiService` (`gemini_service.dfy`): the handling of the model's reply in
  `generateSlides`. The text is trimmed and parsed, which is an input function. The
  parsed value is checked with `Array.isArray` and `every`. The `try` block can
  throw four kinds of exception, from five situations: the rejected model call, an
  undefined `text` and a `null` element (both a TypeError), a parse failure and a
  failed validation. One `catch` maps them all to a single message.
- `ControlPanel` (`control_panel.dfy`): the class `Panel`, which holds the topic
  text. Beside it are the predicates that disable the submit button and the text area.
- `SlideData` (`slide_data.dfy`): the parsed JSON value, JavaScript property access
  on it (for a duplicated key, the last one wins) and JavaScript truthiness.
- `Text` (`text.dfy`): `String.prototype.trim`, over the ECMAScript white-space and
  line-terminator characters written out, and the blank-topic test.
- `Wrappers` (`wrappers.dfy`): `Option` and `Result`.

The deck is the parsed array exactly as it came back (`Deck = seq<Json>`). The
source's `as Slide[]` is a cast that checks nothing beyond the validation.

Three behaviours of the code that its response schema
(services/geminiService.ts:7-27) does not make obvious:
- A slide with an empty `content` array is accepted. The code checks only that
  `content` is an array (`GeminiService.ContentNotInspected`).
- A validation failure is not reported separately. Its "malformed" message is
  caught and replaced by the single communication-failure message
  (`GeminiService.MalformedNeverEscapes`).
- A rejection by the model service loses its own message in the same way
  (services/geminiService.ts:59-61), so it never reaches the error the
  application shows (`App.ServiceFailureShown`).

`App.SuccessfulGeneration`, `App.BlankTopic` and `App.FailedGenerations` are client
methods. Each one is verified over a whole scenario, using the contracts alone: six slides shown
from "Slide 1 of 6", a press of next on the last slide that changes nothing, a blank
topic, an empty deck, and a rejection.

## Model

| member | source | states |
|---|---|---|
| `Text.TrimStartSpec` | services/geminiService.ts:49 | what the leading pass of `trim` keeps is a suffix of the input, everything dropped is white space, it does not start with white space, and an all-white-space input leaves nothing |
| `Text.TrimEndSpec` | services/geminiService.ts:49 | what the trailing pass of `trim` keeps is a prefix of the input, everything dropped is white space, and it does not end with white space |
| `Text.BlankIffAllSpace` | App.tsx:15 | `!topic.trim()` holds exactly when every character of the topic is white space |
| `Text.TrimIgnoresSurroundingSpace` | services/geminiService.ts:49 | white space before and after a text does not change what `trim` returns |
| `SlideData.GetSpec` | services/geminiService.ts:53 | reading a property of a parsed object gives `undefined` exactly when no member has that key, and otherwise the value of the last member with that key |
| `SlideData.GetIgnoresOtherKey` | services/geminiService.ts:53 | a member with a different key, wherever it stands in the object, does not change what reading a property gives |
| `GeminiService.Every` | services/geminiService.ts:53 | `every` is true exactly when every element is an object with a truthy `title` and an array `content`; it throws only when a `null` element is present |
| `GeminiService.Validate` | services/geminiService.ts:53-58 | a parsed value is accepted exactly when it is an array of slide-shaped elements, and it is then returned unchanged; otherwise a TypeError or the malformed-data error is thrown |
| `GeminiService.Attempt` | services/geminiService.ts:36-58 | the `try` block succeeds exactly when the reply has a text whose trimmed form parses to an accepted deck, and it returns that parsed array |
| `GeminiService.GenerateSlides` | services/geminiService.ts:36-62 | succeeds exactly when the reply is accepted, returning the parsed array in the same order and length; every failure is "Failed to communicate with the AI service." |
| `GeminiService.EmptyArrayAccepted` | services/geminiService.ts:53-54 | an empty parsed array is accepted and returned as the empty deck |
| `GeminiService.ContentNotInspected` | services/geminiService.ts:53 | once the title is truthy, any `content` array is accepted, including an empty one or one with elements that are not strings |
| `GeminiService.OtherMembersIgnored` | services/geminiService.ts:53 | a member other than `title` and `content`, such as `speakerNotes`, inserted anywhere among the others (before, between or after them) never changes whether an element is accepted |
| `GeminiService.EveryThrowsIff` | services/geminiService.ts:53 | `every` throws exactly when some element is `null` and every element before it is accepted |
| `GeminiService.NullElementThrows` | services/geminiService.ts:53-61 | a `null` element after any run of accepted elements, whatever follows it, raises a TypeError inside the `try` block, which surfaces as the one communication-failure message |
| `GeminiService.MalformedNeverEscapes` | services/geminiService.ts:57-61 | whatever the `try` block throws, including the malformed-data error, the caller sees only the communication-failure message |
| `GeminiService.SurroundingSpaceIgnored` | services/geminiService.ts:49-50 | the text is trimmed before parsing, so white space around the reply never changes the outcome |
| `PresentationViewer.IndicatorOf` | components/PresentationViewer.tsx:81 | for an index in range the indicator shows index + 1 of the deck length, and the first number lies between 1 and the length |
| `PresentationViewer.RenderContent` | components/PresentationViewer.tsx:34-93 | the spinner is shown exactly when loading; the error panel exactly when not loading and the error is truthy; the welcome page exactly when neither applies and the deck is empty; otherwise the slide at the current index, with the indicator of that index, previous disabled exactly at 0 and next disabled exactly at the last slide |
| `PresentationViewer.StepStaysInRange` | components/PresentationViewer.tsx:22-28 | one press of next or previous keeps the index in range |
| `PresentationViewer.NavigateStaysInRange` | components/PresentationViewer.tsx:16-28 | any sequence of next and previous presses from an index in range, such as 0 after a reset, keeps 0 <= index < number of slides (the index stays 0 on an empty deck) |
| `PresentationViewer.EmptyDeckIgnoresPresses` | components/PresentationViewer.tsx:22-28 | on an empty deck, every sequence of presses leaves the index at 0 |
| `PresentationViewer.DisabledIffNoOp` | components/PresentationViewer.tsx:73-89 | on a shown deck, a button is disabled exactly when pressing it would not move the index, and an enabled button moves it by one |
| `PresentationViewer.DownloadBesideDeck` | components/PresentationViewer.tsx:100 | the download button appears only beside the slide page or an error panel, and always beside the slide page |
| `PresentationViewer.Viewer.constructor` | components/PresentationViewer.tsx:16-20 | on mount, the index is 0 |
| `PresentationViewer.Viewer.ReplaceSlides` | components/PresentationViewer.tsx:18-20 | a new deck resets the index to 0, whatever it was before |
| `PresentationViewer.Viewer.GoToNextSlide` | components/PresentationViewer.tsx:22-24 | increments the index only when it is below the last slide, keeps the index invariant and leaves the deck alone |
| `PresentationViewer.Viewer.GoToPrevSlide` | components/PresentationViewer.tsx:26-28 | decrements the index only when it is above 0, keeps the index invariant and leaves the deck alone |
| `PresentationViewer.Viewer.HandleDownload` | components/PresentationViewer.tsx:30-32 | the export is called with the current slides and the topic, both unchanged |
| `ControlPanel.SubmitEnabledIff` | components/ControlPanel.tsx:38 | submission is enabled exactly when nothing is loading and the topic has a character that is not white space |
| `ControlPanel.EmptyTopicDisablesSubmit` | components/ControlPanel.tsx:11-38 | the topic starts empty, so submit starts disabled |
| `ControlPanel.Panel.constructor` | components/ControlPanel.tsx:11 | the topic starts as the empty string |
| `ControlPanel.Panel.OnChange` | components/ControlPanel.tsx:26-30 | the topic takes the edited value only when not loading, and is unchanged during a request |
| `ControlPanel.Panel.HandleSubmit` | components/ControlPanel.tsx:13-16 | one call of `onGenerate`, with the topic as typed (untrimmed) |
| `App.SettledSlides` | App.tsx:24-30 | after settling, the slides are the generated deck exactly when it is non-null and non-empty, and are empty otherwise |
| `App.SettledError` | App.tsx:24-34 | no error for a non-empty deck; "The AI could not generate slides for this topic. Please try again with a different topic." for an empty or null deck; "Failed to generate presentation. " followed by the failure's message, or by "An unknown error occurred." when there is none |
| `App.SettledErrorIffNoSlides` | App.tsx:24-34 | after a request settles there is an error exactly when there are no slides, and that error is never the empty string |
| `App.FailureMessageKept` | App.tsx:33-34 | a rejection's error is the fixed prefix followed by the failure's own message |
| `App.ServiceFailureShown` | App.tsx:31-34 | any failure of the generation client ends with an empty deck and the error "Failed to generate presentation. Failed to communicate with the AI service." |
| `App.ServiceDeckShown` | App.tsx:25-30 | an accepted reply becomes the deck as it came; it gives no error exactly when it is non-empty, and an empty one gives the "could not generate" message |
| `App.SettledDeckShowsFirstSlide` | components/PresentationViewer.tsx:67-89 | right after a deck arrives, the viewer shows its first slide, with previous disabled and "Slide 1 of n" |
| `App.SettledFailureShowsError` | components/PresentationViewer.tsx:48-55 | when a request settles without slides, the viewer shows the error panel with that error |
| `App.BlankSubmitOverDeck` | App.tsx:15-18 | a blank submission over an existing deck shows the input error while the old slides stay downloadable |
| `App.Controller.constructor` | App.tsx:9-12 | the initial state has no slides, is not loading, has no error and has an empty topic |
| `App.Controller.Submit` | App.tsx:14-22 | a blank topic sets exactly "Please enter a topic for your presentation." and changes nothing else; otherwise loading starts, the error and slides are cleared, the index is reset and the raw topic is stored |
| `App.Controller.Settle` | App.tsx:24-37 | loading ends whatever the outcome; the slides and error become the settled ones, the topic is kept, the index is 0, and there is an error exactly when there are no slides |
| `App.Controller.HandleGenerate` | App.tsx:14-38 | a whole `handleGenerate` with one request in flight: either the blank-topic path, or a request whose final state is the settled one with the raw topic stored |
| `App.Controller.SubmitFromPanel` | App.tsx:49 | an enabled submit button always starts a request, with the topic exactly as typed |
| `App.Controller.Next` | components/PresentationViewer.tsx:22-24 | the next-slide button moves only the viewer's index, by the clamped increment, and keeps the application state valid |
| `App.Controller.Prev` | components/PresentationViewer.tsx:26-28 | the previous-slide button moves only the viewer's index, by the clamped decrement, and keeps the application state valid |
| `App.Controller.Download` | App.tsx:52-57 | the export is called with the application's current slides and its stored `presentationTopic`, both unchanged |
| `App.Controller.Render` | App.tsx:52-57 | in every reachable state, the spinner is shown exactly while loading and the error panel exactly when there is an error; otherwise the welcome page on an empty deck or the slide at the current index, with its indicator and both disabled flags |

## Left out

- The model call (`ai.models.generateContent`), the prompt text and the response schema are left out. They are a foreign service, so its reply is the input `Reply`.
- `JSON.parse` is the input function `parse`, because it is a library call. A parse failure is `None`.
- Numbers in parsed JSON are integers, which are truthy when non-zero. Floating point is not modelled. `NaN` cannot come out of `JSON.parse`, and `-0` is 0.
- `downloadPptx` (services/pptxService) is not part of this model. It is a foreign, side-effecting library call, so only its arguments are recorded (`ExportCall`). How a failed export is handled is left out as well.
- JSX markup, styling, icons, the placeholder image and components/Slide.tsx are left out. They only render the title and bullets.
- App.Controller.Submit: requires that nothing is loading, and App.Controller.Settle requires that a request is in flight. Overlapping submissions are not modelled: each `Submit` is followed by its own `Settle`. Neither is the last-resolve-wins race between concurrent requests, since that is concurrency.
- The React effect that resets the index runs after render, so for a moment the index can be stale. In the model the reset is part of replacing the deck.
- `console.error` logging and `e.preventDefault()` are left out. They have no effect on the state.
- Strings are sequences of Unicode scalar values, not UTF-16 code units, so lone surrogates cannot be represented. This changes nothing that is modelled, because every character `trim` removes lies in the Basic Multilingual Plane.
- The `instanceof Error` test is modelled by whether the rejection carries a message.
- PresentationViewer.RenderContent: requires the index to be in range for the deck. The source reads `slides[currentSlideIndex]` without a check and relies on the same invariant, which `PresentationViewer.Viewer` keeps.
