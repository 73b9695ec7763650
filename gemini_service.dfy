/** The generation client `generateSlides`: the remote model call and `JSON.parse`
    are inputs, what is modelled is the handling of the reply inside the `try` block
    and the `catch` that turns every failure into one message. */
module GeminiService {
  import opened Wrappers
  import opened Text
  import opened SlideData

  /** The only message `generateSlides` ever rejects with. */
  const CommunicationFailure := "Failed to communicate with the AI service."

  /** The message thrown when the parsed reply does not look like a deck; it is
      caught by the same `catch` and never reaches the caller. */
  const MalformedData := "Received malformed slide data from AI."

  /** What the remote model call gave back: a rejection, or a response whose
      `text` getter may be `undefined`. */
  datatype Reply = ServiceError(message: string) | Response(text: Option<string>)

  /** What the statements inside the `try` block can throw. */
  datatype Thrown =
    | Rejected(message: string)  // the model call itself failed
    | TypeError                  // a property read on `undefined` or `null`
    | SyntaxError                // `JSON.parse` refused the trimmed text
    | Malformed(message: string) // the explicit `throw` after validation

  /** How the `every` callback ends on one element: true, false or a throw. */
  datatype Verdict = Pass | Fail | Throws

  /** An element is accepted when it is an object whose `title` is truthy and whose
      `content` is an array; the elements of `content` and `speakerNotes` are not
      looked at. Values other than objects have neither property. */
  ghost predicate IsSlideShaped(s: Json) {
    s.JObject? && Truthy(Get(s.members, "title")) && IsArray(Get(s.members, "content"))
  }

  /** A parsed value is accepted when it is an array of slide-shaped elements. */
  ghost predicate IsDeck(v: Json) {
    v.JArray? && forall i :: 0 <= i < |v.items| ==> IsSlideShaped(v.items[i])
  }

  /** The callback `s => s.title && Array.isArray(s.content)`: reading `title` of
      `null` throws, and `content` is read only when `title` is truthy. */
  function CheckSlide(s: Json): Verdict {
    match s
    case JNull => Throws
    case JObject(ms) =>
      if Truthy(Get(ms, "title")) && IsArray(Get(ms, "content")) then Pass else Fail
    case _ => Fail
  }

  /** `items.every(CheckSlide)`: true exactly when every element is accepted; it
      stops at the first element that is not, and throws only if there is a `null`. */
  function Every(items: seq<Json>): (r: Verdict)
    ensures r == Pass <==> forall i :: 0 <= i < |items| ==> IsSlideShaped(items[i])
    ensures r == Throws ==> JNull in items
  {
    if items == [] then Pass
    else match CheckSlide(items[0])
      case Pass =>
        var r := Every(items[1..]);
        assert forall i :: 1 <= i < |items| ==> items[i] == items[1..][i - 1];
        r
      case Fail => Fail
      case Throws => Throws
  }

  /** `Array.isArray(slidesData) && slidesData.every(...)` followed by the `if`: the
      array is returned as it came, a value that is not a deck is thrown as malformed,
      and a `null` element raises a TypeError. */
  function Validate(v: Json): (r: Result<Deck, Thrown>)
    ensures r.Success? <==> IsDeck(v)
    ensures r.Success? ==> v == JArray(r.value)
    ensures r.Failure? ==> r.error == TypeError || r.error == Malformed(MalformedData)
  {
    if !v.JArray? then Failure(Malformed(MalformedData))
    else match Every(v.items)
      case Pass => Success(v.items)
      case Fail => Failure(Malformed(MalformedData))
      case Throws => Failure(TypeError)
  }

  /** The `try` block: trim the text, parse it and validate the parsed value. */
  function Attempt(reply: Reply, parse: string -> Option<Json>): (r: Result<Deck, Thrown>)
    ensures r.Success? <==> Accepted(reply, parse)
    ensures r.Success? ==> parse(Trim(reply.text.value)) == Some(JArray(r.value))
  {
    match reply
    case ServiceError(m) => Failure(Rejected(m))
    case Response(None) => Failure(TypeError)
    case Response(Some(t)) =>
      var parsed := parse(Trim(t));
      assert Accepted(reply, parse) <==> parsed.Some? && IsDeck(parsed.value);
      match parsed
      case None => Failure(SyntaxError)
      case Some(v) => Validate(v)
  }

  /** The reply holds a text whose trimmed form parses to an accepted deck. */
  ghost predicate Accepted(reply: Reply, parse: string -> Option<Json>) {
    && reply.Response?
    && reply.text.Some?
    && parse(Trim(reply.text.value)).Some?
    && IsDeck(parse(Trim(reply.text.value)).value)
  }

  /** `generateSlides(topic)`: succeeds exactly when the reply is accepted, and then
      with the parsed array unchanged; every failure carries the one message. */
  function GenerateSlides(reply: Reply, parse: string -> Option<Json>): (r: Result<Deck, string>)
    ensures r.Success? <==> Accepted(reply, parse)
    ensures r.Success? ==> parse(Trim(reply.text.value)) == Some(JArray(r.value))
    ensures r.Failure? ==> r.error == CommunicationFailure
  {
    match Attempt(reply, parse)
    case Success(deck) => Success(deck)
    case Failure(_) => Failure(CommunicationFailure)
  }

  /** An empty array passes `every` vacuously and comes back as an empty deck. */
  lemma EmptyArrayAccepted(t: string, parse: string -> Option<Json>)
    requires parse(Trim(t)) == Some(JArray([]))
    ensures GenerateSlides(Response(Some(t)), parse) == Success([])
  {
    assert Validate(JArray([])) == Success([]);
  }

  /** The bullets are not checked: any array, empty or holding non-strings, passes
      as `content` once the title is truthy. */
  lemma ContentNotInspected(title: Json, bullets: seq<Json>)
    requires Truthy(Some(title))
    ensures IsSlideShaped(JObject([("title", title), ("content", JArray(bullets))]))
  {
    var ms := [("title", title), ("content", JArray(bullets))];
    assert ms[..1] == [("title", title)];
  }

  /** A member other than `title` and `content` (such as `speakerNotes`), wherever
      it stands among the others, never changes whether an element is accepted. */
  lemma OtherMembersIgnored(a: seq<(string, Json)>, key: string, v: Json, b: seq<(string, Json)>)
    requires key != "title" && key != "content"
    ensures IsSlideShaped(JObject(a + [(key, v)] + b)) <==> IsSlideShaped(JObject(a + b))
  {
    GetIgnoresOtherKey(a, (key, v), b, "title");
    GetIgnoresOtherKey(a, (key, v), b, "content");
  }

  /** `every` throws exactly when the first element that is not accepted is `null`. */
  lemma {:induction false} EveryThrowsIff(items: seq<Json>)
    ensures Every(items) == Throws <==>
              exists k :: 0 <= k < |items| && items[k] == JNull &&
                          forall j :: 0 <= j < k ==> IsSlideShaped(items[j])
  {
    if items != [] {
      var rest := items[1..];
      match CheckSlide(items[0])
      case Throws =>
        assert items[0] == JNull;
      case Fail =>
        assert !IsSlideShaped(items[0]) && items[0] != JNull;
      case Pass =>
        EveryThrowsIff(rest);
        if Every(rest) == Throws {
          var k :| 0 <= k < |rest| && rest[k] == JNull &&
                   forall j :: 0 <= j < k ==> IsSlideShaped(rest[j]);
          assert items[k + 1] == JNull;
          assert forall j :: 0 <= j < k + 1 ==> IsSlideShaped(items[j]) by {
            forall j | 0 < j < k + 1 ensures IsSlideShaped(items[j]) {
              assert items[j] == rest[j - 1];
            }
          }
        } else {
          forall k | 0 <= k < |items| && items[k] == JNull
            ensures exists j :: 0 <= j < k && !IsSlideShaped(items[j])
          {
            assert k > 0;
            assert rest[k - 1] == JNull;
            var j :| 0 <= j < k - 1 && !IsSlideShaped(rest[j]);
            assert items[j + 1] == rest[j];
          }
        }
    }
  }

  /** `every` over accepted elements, then `null`, then anything, throws. */
  lemma EveryThrowsAfterAccepted(accepted: seq<Json>, rest: seq<Json>)
    requires forall i :: 0 <= i < |accepted| ==> IsSlideShaped(accepted[i])
    ensures Every(accepted + [JNull] + rest) == Throws
  {
    var items := accepted + [JNull] + rest;
    assert items[|accepted|] == JNull;
    assert forall j :: 0 <= j < |accepted| ==> items[j] == accepted[j];
    EveryThrowsIff(items);
  }

  /** Reading a property of a `null` element raises a TypeError inside the `try`
      block when every element before it is accepted, whatever follows it; the
      caller sees that as the same failure as any other. */
  lemma NullElementThrows(t: string, parse: string -> Option<Json>, accepted: seq<Json>, rest: seq<Json>)
    requires forall i :: 0 <= i < |accepted| ==> IsSlideShaped(accepted[i])
    requires parse(Trim(t)) == Some(JArray(accepted + [JNull] + rest))
    ensures Attempt(Response(Some(t)), parse) == Failure(TypeError)
    ensures GenerateSlides(Response(Some(t)), parse) == Failure(CommunicationFailure)
  {
    EveryThrowsAfterAccepted(accepted, rest);
    assert Validate(JArray(accepted + [JNull] + rest)) == Failure(TypeError);
  }

  /** Whatever the `try` block throws (a rejected call, an undefined `text`, a parse
      error, a TypeError on a `null` element or the malformed-data error) is replaced
      by the one communication message before it leaves the client; in particular
      the malformed-data message never reaches the caller. */
  lemma MalformedNeverEscapes(reply: Reply, parse: string -> Option<Json>)
    requires Attempt(reply, parse).Failure?
    ensures GenerateSlides(reply, parse) == Failure(CommunicationFailure)
    ensures GenerateSlides(reply, parse) != Failure(MalformedData)
  {
  }

  /** The text is trimmed before it is parsed, so white space around the model's
      reply never changes the outcome. */
  lemma SurroundingSpaceIgnored(p: string, t: string, q: string, parse: string -> Option<Json>)
    requires AllSpace(p) && AllSpace(q)
    ensures GenerateSlides(Response(Some(p + t + q)), parse) == GenerateSlides(Response(Some(t)), parse)
  {
    TrimIgnoresSurroundingSpace(p, t, q);
  }
}
