/** The plate-extraction client `extractLicensePlate` (src/api/geminiApi.js).
    The HTTP transport is replaced by a script of per-attempt outcomes, the
    back-off sleep by a `Wait` event in a trace, and `JSON.stringify` by an
    uninterpreted `stringify` parameter. */
module GeminiApi {
  import opened Wrappers
  import opened JsText

  const MaxAttempts: nat := 3
  /** The wait after failed attempt `n` (when another attempt follows) is `n` times this. */
  const BackoffStepMs: nat := 1000

  const Instruction := "Extract only the license plate number from this image. Return only the plate number text as a single, continuous string without any spaces or hyphens, and without any additional information or explanation."
  const ImageMimeType := "image/jpeg"
  const Temperature: real := 0.2
  const MaxOutputTokens: nat := 500

  // Long messages are spelled as concatenations of short literals, whose
  // characters the verifier can see.
  const KeyNotConfigured := "API key is not configured"
  const MissingKeyMessage := KeyNotConfigured + ". Please check your .env file."
  const ApiErrorPrefix := "API error:"
  const NetworkErrorPrefix := "Network error:"
  const ShapeFailurePrefix := "Failed to extract " + "license plate from response."
  const FinishReasonLabel := " Finish Reason: "
  const SafetyRatingsLabel := " Safety Ratings: "
  const NoResponseMessage := "API request failed. " + "No response from server or network issue."
  const GenericMessage := "An unexpected error occurred " + "while extracting the license plate."
  const NoPlateDetected := "No plate detected"

  /** A JSON value the client never inspects, carried as its own text. */
  type Json = string

  // ---------------------------------------------------------------------
  // Request and response shapes

  /** The request body: the fixed instruction, the JPEG payload and the
      fixed generation settings. */
  datatype Request = Request(instruction: string, mimeType: string, imageData: string,
                             temperature: real, maxOutputTokens: nat)

  function BuildRequest(imageBase64: string): Request {
    Request(Instruction, ImageMimeType, imageBase64, Temperature, MaxOutputTokens)
  }

  /** The fields of a response body the client reads; `None` is a field that is
      absent or falsy (`null`, `""`), which the client treats alike. */
  datatype Part = Part(text: Option<string>)
  datatype Content = Content(parts: Option<seq<Part>>)
  datatype Candidate = Candidate(content: Option<Content>, finishReason: Option<string>,
                                 safetyRatings: Option<Json>)
  datatype ResponseData = ResponseData(candidates: Option<seq<Candidate>>)

  /** The `response` an Axios error carries when the server answered. */
  datatype ErrorResponse = ErrorResponse(status: nat, data: Json)

  /** What one `axios.post` call yields: a 2xx response (whose `data` may be
      missing), an Axios error, or any other rejection. */
  datatype Outcome =
    | Response(data: Option<ResponseData>)
    | AxiosError(message: string, response: Option<ErrorResponse>)
    | OtherError(message: string)

  /** An error caught by the outer handler: its message, whether it is an
      Axios error, and the server's response if there was one. */
  datatype Thrown = Thrown(message: string, isAxiosError: bool, response: Option<ErrorResponse>)

  /** One observable step of a call: a POST of a request, or a back-off wait. */
  datatype Event = Post(request: Request) | Wait(ms: nat)

  // ---------------------------------------------------------------------
  // Shape check (JavaScript truthiness: an array or object is truthy, a
  // string only when non-empty, a missing index is undefined)

  function FirstCandidate(data: Option<ResponseData>): Option<Candidate> {
    if data.Some? && data.value.candidates.Some? && |data.value.candidates.value| > 0
    then Some(data.value.candidates.value[0])
    else None
  }

  /** `candidates[0].content.parts[0].text` when every step of the path is truthy. */
  function ResponseText(data: Option<ResponseData>): (t: Option<string>)
    ensures t.Some? ==> t.value != [] && FirstCandidate(data).Some?
    ensures t.Some? ==>
              var c := FirstCandidate(data).value;
              c.content.Some? && c.content.value.parts.Some? && |c.content.value.parts.value| > 0 &&
              c.content.value.parts.value[0].text == t
  {
    match FirstCandidate(data)
    case None => None
    case Some(c) =>
      if c.content.Some? && c.content.value.parts.Some? && |c.content.value.parts.value| > 0 &&
         c.content.value.parts.value[0].text.Some? && c.content.value.parts.value[0].text.value != []
      then c.content.value.parts.value[0].text
      else None
  }

  /** `candidates[0].finishReason` when it is truthy. */
  function FinishReason(data: Option<ResponseData>): (r: Option<string>)
    ensures r.Some? ==> r.value != []
    ensures r.Some? ==> FirstCandidate(data).Some? && FirstCandidate(data).value.finishReason == r
  {
    match FirstCandidate(data)
    case None => None
    case Some(c) => if c.finishReason.Some? && c.finishReason.value != [] then c.finishReason else None
  }

  /** A response whose first candidate's first part carries `text` passes the
      shape check exactly when that text is non-empty, and then yields it;
      an empty `text` is a shape failure. */
  lemma WellShapedText(text: string, finishReason: Option<string>, safetyRatings: Option<Json>,
                       rest: seq<Candidate>, more: seq<Part>)
    ensures ResponseText(Some(ResponseData(Some(
              [Candidate(Some(Content(Some([Part(Some(text))] + more))), finishReason, safetyRatings)]
              + rest)))) == if text == [] then None else Some(text)
  {
  }

  /** The first candidate's finish reason is reported exactly when it is truthy. */
  lemma FirstCandidateFinishReason(c: Candidate, rest: seq<Candidate>)
    ensures FinishReason(Some(ResponseData(Some([c] + rest)))) ==
              if c.finishReason.Some? && c.finishReason.value != [] then c.finishReason else None
  {
  }

  function SafetyRatings(data: Option<ResponseData>): Option<Json> {
    match FirstCandidate(data)
    case None => None
    case Some(c) => c.safetyRatings
  }

  /** The message thrown when a 2xx response has the wrong shape: the fixed
      prefix, then the finish reason if there is one, then (only after a
      finish reason) the serialised safety ratings if there are any. */
  function ShapeFailureMessage(data: Option<ResponseData>, stringify: Json -> string): (m: string)
    ensures ShapeFailurePrefix <= m
    ensures m == ShapeFailurePrefix <==> FinishReason(data).None?
    ensures FinishReason(data).Some? ==>
              ShapeFailurePrefix + FinishReasonLabel + FinishReason(data).value <= m &&
              (|m| == |ShapeFailurePrefix + FinishReasonLabel + FinishReason(data).value| <==>
               SafetyRatings(data).None?)
    ensures FinishReason(data).Some? && SafetyRatings(data).Some? ==>
              m == ShapeFailurePrefix + FinishReasonLabel + FinishReason(data).value +
                   SafetyRatingsLabel + stringify(SafetyRatings(data).value)
  {
    match FinishReason(data)
    case None => ShapeFailurePrefix
    case Some(reason) =>
      var withReason := ShapeFailurePrefix + FinishReasonLabel + reason;
      match SafetyRatings(data)
      case None => withReason
      case Some(ratings) => withReason + SafetyRatingsLabel + stringify(ratings)
  }

  // ---------------------------------------------------------------------
  // Text cleaning: `text.trim().replace(/[\s-]/g, '')`, then `|| 'No plate detected'`

  predicate IsSeparator(c: char) {
    IsWhiteSpace(c) || c == '-'
  }

  predicate SeparatorFree(s: string) {
    forall i :: 0 <= i < |s| ==> !IsSeparator(s[i])
  }

  /** `s.replace(/[\s-]/g, '')`: every character of `s` except white space and
      hyphens; each kept character occurs as often as it did in `s`. */
  function RemoveSeparators(s: string): (r: string)
    ensures |r| <= |s|
    ensures SeparatorFree(r)
  {
    if s == [] then []
    else if IsSeparator(s[0]) then RemoveSeparators(s[1..])
    else [s[0]] + RemoveSeparators(s[1..])
  }

  /** Every character that is not a separator is kept as often as it occurs. */
  lemma {:induction false} RemoveSeparatorsKeepsOthers(s: string, c: char)
    requires !IsSeparator(c)
    ensures multiset(RemoveSeparators(s))[c] == multiset(s)[c]
  {
    if s != [] {
      assert s == [s[0]] + s[1..];
      RemoveSeparatorsKeepsOthers(s[1..], c);
    }
  }

  function Clean(text: string): string {
    RemoveSeparators(Trim(text))
  }

  /** The value the call resolves with for a well-shaped response text. */
  function PlateText(text: string): string {
    var cleaned := Clean(text);
    if cleaned == [] then NoPlateDetected else cleaned
  }

  /** Removing separators keeps the order of what remains: it distributes over concatenation. */
  lemma {:induction false} RemoveSeparatorsAppend(a: string, b: string)
    ensures RemoveSeparators(a + b) == RemoveSeparators(a) + RemoveSeparators(b)
  {
    if a == [] {
      assert a + b == b;
    } else {
      assert (a + b)[1..] == a[1..] + b;
      RemoveSeparatorsAppend(a[1..], b);
    }
  }

  /** A separator-free string is left exactly as it is, and only such a string is. */
  lemma {:induction false} RemoveSeparatorsFixedPoint(s: string)
    ensures RemoveSeparators(s) == s <==> SeparatorFree(s)
  {
    if s != [] && SeparatorFree(s) {
      assert SeparatorFree(s[1..]);
      RemoveSeparatorsFixedPoint(s[1..]);
    }
  }

  lemma RemoveSeparatorsIdempotent(s: string)
    ensures RemoveSeparators(RemoveSeparators(s)) == RemoveSeparators(s)
  {
  }

  /** A string made only of separators cleans to nothing. */
  lemma {:induction false} RemoveSeparatorsOfSeparators(s: string)
    requires forall i :: 0 <= i < |s| ==> IsSeparator(s[i])
    ensures RemoveSeparators(s) == []
  {
    if s != [] {
      RemoveSeparatorsOfSeparators(s[1..]);
    }
  }

  /** The `trim()` before the replacement changes nothing: cleaning is just
      the removal of every white-space and hyphen character. */
  lemma CleanIgnoresTrim(text: string)
    ensures Clean(text) == RemoveSeparators(text)
  {
    var k := LeadingWhiteSpace(text);
    var t := Trim(text);
    var lead, trail := text[..k], text[k + |t|..];
    assert text == lead + t + trail;
    RemoveSeparatorsOfSeparators(lead);
    RemoveSeparatorsOfSeparators(trail);
    RemoveSeparatorsAppend(lead + t, trail);
    RemoveSeparatorsAppend(lead, t);
  }

  /** Cleaning twice is cleaning once. */
  lemma CleanIdempotent(text: string)
    ensures Clean(Clean(text)) == Clean(text)
  {
    CleanIgnoresTrim(text);
    CleanIgnoresTrim(Clean(text));
    RemoveSeparatorsIdempotent(text);
  }

  /** The plate text is never empty; it is the sentinel exactly when the
      response text had nothing but white space and hyphens, and otherwise it
      is the text with every separator removed. A response that literally
      reads "No plate detected" comes back as "Noplatedetected", so the
      sentinel cannot be confused with a cleaned text. */
  lemma PlateTextCases(text: string)
    ensures PlateText(text) != []
    ensures PlateText(text) == NoPlateDetected <==> RemoveSeparators(text) == []
    ensures PlateText(text) != NoPlateDetected ==> PlateText(text) == RemoveSeparators(text)
  {
    CleanIgnoresTrim(text);
    SentinelHasSeparator();
  }

  lemma SentinelHasSeparator()
    ensures !SeparatorFree(NoPlateDetected)
  {
    assert NoPlateDetected[2] == ' ';
  }

  // ---------------------------------------------------------------------
  // One attempt

  /** The attempt gets a 2xx response whose text passes the shape check. */
  predicate Succeeds(outcome: Outcome) {
    outcome.Response? && ResponseText(outcome.data).Some?
  }

  /** What one attempt amounts to: the plate text of a well-shaped response,
      or the error the attempt's `catch` receives. */
  function AttemptResult(outcome: Outcome, stringify: Json -> string): (r: Result<string, Thrown>)
    ensures r.Success? <==> Succeeds(outcome)
    ensures r.Success? ==> r.value != []
    ensures outcome.Response? && ResponseText(outcome.data).Some? ==>
              r == Success(PlateText(ResponseText(outcome.data).value))
    ensures outcome.Response? && ResponseText(outcome.data).None? ==>
              r == Failure(Thrown(ShapeFailureMessage(outcome.data, stringify), false, None))
    ensures outcome.AxiosError? ==> r == Failure(Thrown(outcome.message, true, outcome.response))
    ensures outcome.OtherError? ==> r == Failure(Thrown(outcome.message, false, None))
  {
    match outcome
    case Response(data) =>
      (match ResponseText(data)
       case Some(text) =>
         PlateTextCases(text);
         Success(PlateText(text))
       case None => Failure(Thrown(ShapeFailureMessage(data, stringify), false, None)))
    case AxiosError(message, response) => Failure(Thrown(message, true, response))
    case OtherError(message) => Failure(Thrown(message, false, None))
  }

  /** The index of the first attempt that succeeds, if any does. */
  function FirstSuccess(outcomes: seq<Outcome>): (k: Option<nat>)
    ensures k.Some? ==> k.value < |outcomes| && Succeeds(outcomes[k.value])
    ensures k.Some? ==> forall j :: 0 <= j < k.value ==> !Succeeds(outcomes[j])
    ensures k.None? ==> forall j :: 0 <= j < |outcomes| ==> !Succeeds(outcomes[j])
  {
    if outcomes == [] then None
    else if Succeeds(outcomes[0]) then Some(0)
    else match FirstSuccess(outcomes[1..])
      case None => None
      case Some(k) => Some(k + 1)
  }

  /** An attempt that succeeds after only failures is the first success. */
  lemma {:induction false} FirstSuccessIsFirst(outcomes: seq<Outcome>, k: nat)
    requires k < |outcomes| && Succeeds(outcomes[k])
    requires forall j :: 0 <= j < k ==> !Succeeds(outcomes[j])
    ensures FirstSuccess(outcomes) == Some(k)
  {
    if k > 0 {
      FirstSuccessIsFirst(outcomes[1..], k - 1);
    }
  }

  /** When every attempt fails there is no first success. */
  lemma NoSuccessWhenAllFail(outcomes: seq<Outcome>)
    requires forall j :: 0 <= j < |outcomes| ==> !Succeeds(outcomes[j])
    ensures FirstSuccess(outcomes).None?
  {
  }

  // ---------------------------------------------------------------------
  // Retry schedule

  /** The trace of `n` failed attempts each followed by its back-off wait:
      attempt `i` (from 1) posts the request and then waits `i` seconds. */
  function FailedRounds(n: nat, request: Request): seq<Event> {
    if n == 0 then [] else FailedRounds(n - 1, request) + [Post(request), Wait(BackoffStepMs * n)]
  }

  /** Position by position: even positions post the request, and position
      2i+1 is the wait of (i+1) seconds after failed attempt i+1. */
  lemma {:induction false} FailedRoundsAt(n: nat, request: Request)
    ensures |FailedRounds(n, request)| == 2 * n
    ensures forall j :: 0 <= j < 2 * n ==>
              FailedRounds(n, request)[j] == if j % 2 == 0 then Post(request) else Wait(BackoffStepMs * (j / 2 + 1))
  {
    if n > 0 {
      FailedRoundsAt(n - 1, request);
    }
  }

  /** The trace of a call that makes `attempts` attempts: no wait follows the last one. */
  function Schedule(attempts: nat, request: Request): seq<Event>
    requires attempts >= 1
  {
    FailedRounds(attempts - 1, request) + [Post(request)]
  }

  function PostCount(trace: seq<Event>): nat {
    if trace == [] then 0 else PostCount(trace[..|trace| - 1]) + (if trace[|trace| - 1].Post? then 1 else 0)
  }

  function Waits(trace: seq<Event>): seq<nat> {
    if trace == [] then []
    else Waits(trace[..|trace| - 1]) + (if trace[|trace| - 1].Wait? then [trace[|trace| - 1].ms] else [])
  }

  lemma {:induction false} FailedRoundsCounts(n: nat, request: Request)
    ensures PostCount(FailedRounds(n, request)) == n
    ensures Waits(FailedRounds(n, request)) == seq(n, i => BackoffStepMs * (i + 1))
  {
    if n > 0 {
      var prev := FailedRounds(n - 1, request);
      var t := FailedRounds(n, request);
      assert t[..|t| - 1] == prev + [Post(request)];
      assert (prev + [Post(request)])[..|prev|] == prev;
      FailedRoundsCounts(n - 1, request);
    }
  }

  /** A call that makes `attempts` attempts posts exactly that many times,
      every time the same request, and waits 1000, 2000, ... ms between them. */
  lemma ScheduleCounts(attempts: nat, request: Request)
    requires attempts >= 1
    ensures PostCount(Schedule(attempts, request)) == attempts
    ensures Waits(Schedule(attempts, request)) == seq(attempts - 1, i => BackoffStepMs * (i + 1))
    ensures forall e :: e in Schedule(attempts, request) && e.Post? ==> e.request == request
  {
    var t := Schedule(attempts, request);
    assert t[..|t| - 1] == FailedRounds(attempts - 1, request);
    FailedRoundsCounts(attempts - 1, request);
    FailedRoundsAt(attempts - 1, request);
  }

  /** The full schedule of three attempts: post, wait 1 s, post, wait 2 s, post. */
  lemma FullSchedule(request: Request)
    ensures Schedule(MaxAttempts, request) ==
              [Post(request), Wait(1000), Post(request), Wait(2000), Post(request)]
  {
    FailedRoundsAt(MaxAttempts - 1, request);
  }

  // ---------------------------------------------------------------------
  // Error surfacing

  /** The message the call finally rejects with, chosen by the first check
      that matches: a missing key, an "API error:" or "Network error:" prefix
      (all three keep the message), an Axios error with a response, an Axios
      error without one, anything else. */
  function DisplayError(e: Thrown, stringify: Json -> string): (r: string)
    ensures r != []
    ensures r == e.message || r == NoResponseMessage || r == GenericMessage ||
            (e.isAxiosError && e.response.Some? &&
             r == "API request failed: " + NatToString(e.response.value.status) + " - " +
                  stringify(e.response.value.data) + ". Check API key and model name.")
  {
    if Includes(e.message, KeyNotConfigured) then
      assert e.message != [];
      e.message
    else if ApiErrorPrefix <= e.message then e.message
    else if NetworkErrorPrefix <= e.message then e.message
    else if e.isAxiosError && e.response.Some? then
      "API request failed: " + NatToString(e.response.value.status) + " - " +
      stringify(e.response.value.data) + ". Check API key and model name."
    else if e.isAxiosError then NoResponseMessage
    else GenericMessage
  }

  predicate KeepsOwnMessage(message: string) {
    Includes(message, KeyNotConfigured) || ApiErrorPrefix <= message || NetworkErrorPrefix <= message
  }

  /** The three message checks come before the Axios checks: an Axios error
      whose message matches one of them surfaces its own message, never the
      status summary. */
  lemma MessageChecksComeFirst(e: Thrown, stringify: Json -> string)
    ensures KeepsOwnMessage(e.message) ==> DisplayError(e, stringify) == e.message
    ensures !KeepsOwnMessage(e.message) && e.isAxiosError && e.response.Some? ==>
              DisplayError(e, stringify) ==
                "API request failed: " + NatToString(e.response.value.status) + " - " +
                stringify(e.response.value.data) + ". Check API key and model name."
    ensures !KeepsOwnMessage(e.message) && e.isAxiosError && e.response.None? ==>
              DisplayError(e, stringify) == NoResponseMessage
    ensures !KeepsOwnMessage(e.message) && !e.isAxiosError ==> DisplayError(e, stringify) == GenericMessage
  {
  }

  /** The missing-key error surfaces unchanged. */
  lemma MissingKeySurfaces(stringify: Json -> string)
    ensures DisplayError(Thrown(MissingKeyMessage, false, None), stringify) == MissingKeyMessage
  {
  }

  /** A shape failure surfaces as the generic message unless the finish
      reason or serialised safety ratings happen to contain the missing-key
      phrase, in which case its own message surfaces. */
  lemma ShapeFailureSurfaces(data: Option<ResponseData>, stringify: Json -> string)
    ensures var m := ShapeFailureMessage(data, stringify);
            DisplayError(Thrown(m, false, None), stringify) ==
              if Includes(m, KeyNotConfigured) then m else GenericMessage
  {
    var m := ShapeFailureMessage(data, stringify);
    assert m[0] == 'F';
  }

  /** A shape failure without a finish reason always surfaces as the generic message. */
  lemma BareShapeFailureIsGeneric(data: Option<ResponseData>, stringify: Json -> string)
    requires FinishReason(data).None?
    ensures DisplayError(Thrown(ShapeFailureMessage(data, stringify), false, None), stringify) == GenericMessage
  {
    assert 'A' !in ShapeFailurePrefix;
    FirstCharAbsentNotIncluded(ShapeFailurePrefix, KeyNotConfigured);
    ShapeFailureSurfaces(data, stringify);
  }

  /** Well-statused responses that all lack the candidate text and carry no
      finish reason: every attempt fails and the call surfaces the generic message. */
  lemma AllMalformedIsGeneric(network: seq<Outcome>, stringify: Json -> string)
    requires |network| == MaxAttempts
    requires forall i :: 0 <= i < |network| ==>
               network[i].Response? && ResponseText(network[i].data).None? && FinishReason(network[i].data).None?
    ensures FirstSuccess(network).None?
    ensures DisplayError(AttemptResult(network[MaxAttempts - 1], stringify).error, stringify) == GenericMessage
  {
    BareShapeFailureIsGeneric(network[MaxAttempts - 1].data, stringify);
  }

  /** Two failures and then a well-shaped response: the third attempt's plate
      text is the result, after waits of one and two seconds. */
  lemma SucceedsOnThirdAttempt(network: seq<Outcome>, stringify: Json -> string, request: Request)
    requires |network| == MaxAttempts
    requires !Succeeds(network[0]) && !Succeeds(network[1]) && Succeeds(network[2])
    ensures FirstSuccess(network) == Some(2)
    ensures Schedule(FirstSuccess(network).value + 1, request) ==
              [Post(request), Wait(1000), Post(request), Wait(2000), Post(request)]
  {
    FullSchedule(request);
  }

  // ---------------------------------------------------------------------
  // The call

  predicate HasApiKey(apiKey: Option<string>) {
    apiKey.Some? && apiKey.value != []
  }

  /** `extractLicensePlate(imageBase64)`. `network[i]` is what `axios.post`
      yields on attempt `i + 1`; `trace` records every POST and every wait.
      Without a key nothing is posted. Otherwise the one request is posted up
      to three times, with a back-off wait after each failed attempt but the
      last; the call resolves with the plate text of the first well-shaped
      response, or rejects with the display message of the last error. */
  method ExtractLicensePlate(apiKey: Option<string>, imageBase64: string,
                             network: seq<Outcome>, stringify: Json -> string)
    returns (result: Result<string, string>, trace: seq<Event>)
    requires |network| == MaxAttempts
    ensures !HasApiKey(apiKey) ==> result == Failure(MissingKeyMessage) && trace == []
    ensures HasApiKey(apiKey) && FirstSuccess(network).Some? ==>
              var k := FirstSuccess(network).value;
              result == Success(PlateText(ResponseText(network[k].data).value)) &&
              trace == Schedule(k + 1, BuildRequest(imageBase64))
    ensures HasApiKey(apiKey) && FirstSuccess(network).None? ==>
              result == Failure(DisplayError(AttemptResult(network[MaxAttempts - 1], stringify).error, stringify)) &&
              trace == Schedule(MaxAttempts, BuildRequest(imageBase64))
  {
    trace := [];
    if !HasApiKey(apiKey) {
      MissingKeySurfaces(stringify);
      result := Failure(DisplayError(Thrown(MissingKeyMessage, false, None), stringify));
      return;
    }
    var request := BuildRequest(imageBase64);
    var attempts: nat := 0;
    while attempts < MaxAttempts
      invariant attempts < MaxAttempts
      invariant trace == FailedRounds(attempts, request)
      invariant forall j :: 0 <= j < attempts ==> !Succeeds(network[j])
    {
      attempts := attempts + 1;
      trace := trace + [Post(request)];
      var attempt := AttemptResult(network[attempts - 1], stringify);
      if attempt.Success? {
        FirstSuccessIsFirst(network, attempts - 1);
        result := Success(attempt.value);
        return;
      }
      if attempts >= MaxAttempts {
        NoSuccessWhenAllFail(network);
        result := Failure(DisplayError(attempt.error, stringify));
        return;
      }
      trace := trace + [Wait(BackoffStepMs * attempts)];
    }
    // The loop only ends through a return: the throw after it is unreachable.
    assert false;
  }
}
