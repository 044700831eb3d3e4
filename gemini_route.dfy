/**
 * The POST handler of the generation endpoint: validation of the request
 * body, the order in which it answers with an error, the duration estimate
 * written into the prompt, and the extraction of the script text from the
 * generator's reply. The environment variable, the request body and the
 * generator's reply are inputs; nothing here performs I/O.
 */
module GeminiRoute {
  import opened Wrappers
  import opened JsString

  // ---------------------------------------------------------------------------
  // Request body: `bodySchema`

  /** A parsed JSON value; numbers are finite reals, as JSON allows. */
  datatype Json =
    | JNull
    | JBool(b: bool)
    | JNum(x: real)
    | JStr(s: string)
    | JArr(items: seq<Json>)
    | JObj(fields: map<string, Json>)

  /** One failed check of a field, in the order the schema runs them. */
  datatype Issue =
    | Required                                   // the field is absent
    | WrongType(expected: string, received: string)
    | TooShort                                   // `idea`: `.min(5, …)`
    | NotInteger                                 // `amount`: `.int()`
    | TooSmall                                   // `amount`: `.min(1, …)`
    | TooBig                                     // `amount`: `.max(200, …)`

  const MinIdeaLength: int := 5
  const MinAmount: int := 1
  const MaxAmount: int := 200

  function TypeName(v: Json): string {
    match v
    case JNull => "null"
    case JBool(_) => "boolean"
    case JNum(_) => "number"
    case JStr(_) => "string"
    case JArr(_) => "array"
    case JObj(_) => "object"
  }

  predicate IsInteger(x: real) {
    x.Floor as real == x
  }

  function Field(fields: map<string, Json>, name: string): Option<Json> {
    if name in fields then Some(fields[name]) else None
  }

  /** `z.string().min(5, …)` */
  function IdeaIssues(v: Option<Json>): (issues: seq<Issue>)
    ensures issues == [] <==> v.Some? && v.value.JStr? && |v.value.s| >= MinIdeaLength
  {
    match v
    case None => [Required]
    case Some(JStr(s)) => if |s| < MinIdeaLength then [TooShort] else []
    case Some(other) => [WrongType("string", TypeName(other))]
  }

  /** `z.number().int().min(1, …).max(200, …)`: all three checks run on a number. */
  function AmountIssues(v: Option<Json>): (issues: seq<Issue>)
    ensures issues == [] <==>
      v.Some? && v.value.JNum? && IsInteger(v.value.x) && MinAmount as real <= v.value.x <= MaxAmount as real
  {
    match v
    case None => [Required]
    case Some(JNum(x)) =>
      (if IsInteger(x) then [] else [NotInteger])
      + (if x < MinAmount as real then [TooSmall] else [])
      + (if x > MaxAmount as real then [TooBig] else [])
    case Some(other) => [WrongType("number", TypeName(other))]
  }

  datatype Parsed =
    | Valid(idea: string, amount: int)
    | Invalid(fieldErrors: map<string, seq<Issue>>)

  /** The body rule, stated on its own: an object whose `idea` is a string of 5 or more characters and whose `amount` is an integer in 1..200. */
  predicate AcceptableBody(json: Json) {
    && json.JObj?
    && "idea" in json.fields && json.fields["idea"].JStr? && |json.fields["idea"].s| >= 5
    && "amount" in json.fields && json.fields["amount"].JNum?
    && var x := json.fields["amount"].x; IsInteger(x) && 1.0 <= x <= 200.0
  }

  /**
   * `bodySchema.safeParse(json)`, with `error.flatten().fieldErrors` on
   * failure. A body that is not an object fails as a whole and names no field.
   */
  function ParseBody(json: Json): (r: Parsed)
    ensures r.Valid? <==> AcceptableBody(json)
    ensures r.Valid? ==>
      && |r.idea| >= 5 && 1 <= r.amount <= 200
      && json.fields["idea"] == JStr(r.idea) && json.fields["amount"] == JNum(r.amount as real)
    ensures r.Invalid? && json.JObj? ==> r.fieldErrors != map[]
    ensures r.Invalid? && json.JObj? ==>
      && ("idea" in r.fieldErrors <==> IdeaIssues(Field(json.fields, "idea")) != [])
      && ("amount" in r.fieldErrors <==> AmountIssues(Field(json.fields, "amount")) != [])
    ensures r.Invalid? && !json.JObj? ==> r.fieldErrors == map[]
  {
    match json
    case JObj(fields) =>
      var ideaIssues := IdeaIssues(Field(fields, "idea"));
      var amountIssues := AmountIssues(Field(fields, "amount"));
      if ideaIssues == [] && amountIssues == [] then
        Valid(fields["idea"].s, fields["amount"].x.Floor)
      else
        var errors := (if ideaIssues == [] then map[] else map["idea" := ideaIssues])
                      + (if amountIssues == [] then map[] else map["amount" := amountIssues]);
        assert "idea" in errors || "amount" in errors;
        Invalid(errors)
    case _ => Invalid(map[])
  }

  // ---------------------------------------------------------------------------
  // Duration estimate: `Math.max(1, Math.round((amount * 6) / 60))`

  /**
   * The minutes of video the prompt asks for. `Math.round` rounds halves
   * upwards, so round(6a / 60) is floor((6a + 30) / 60). For an integer
   * amount below about 9 * 10^14 in magnitude, in particular every accepted
   * amount 1..200, the floating-point quotient is exact enough that this is
   * what the expression yields; far beyond that the two can differ.
   */
  function DurationMinutes(amount: int): (minutes: int)
    ensures minutes >= 1
    ensures minutes == 1 <==> amount < 15
    ensures minutes == 1 || 10 * minutes - 5 <= amount < 10 * minutes + 5
  {
    var rounded := (amount * 6 + 30) / 60;
    if rounded > 1 then rounded else 1
  }

  /** The estimate is amount/10 rounded half up, floored at 1. */
  lemma DurationIsTenthRoundedUp(amount: int)
    ensures DurationMinutes(amount) == if (amount + 5) / 10 > 1 then (amount + 5) / 10 else 1
  {
    assert (amount * 6 + 30) / 60 == (amount + 5) / 10;
  }

  /** For an accepted amount the estimate lies in 1..20, and it never decreases as the amount grows. */
  lemma DurationBounds(amount: int, larger: int)
    requires 1 <= amount <= 200
    ensures 1 <= DurationMinutes(amount) <= 20
    ensures amount <= larger ==> DurationMinutes(amount) <= DurationMinutes(larger)
  {
    DurationIsTenthRoundedUp(amount);
    DurationIsTenthRoundedUp(larger);
  }

  // ---------------------------------------------------------------------------
  // The generator's reply

  datatype Part = Part(text: Option<string>)
  datatype Content = Content(parts: Option<seq<Part>>)
  datatype Candidate = Candidate(content: Option<Content>)
  /** The reply body; `candidates` is `None` also when the body is `null`. */
  datatype Reply = Reply(candidates: Option<seq<Candidate>>)

  /** `parts.map((p) => p.text || "").join("")` */
  function PartsText(parts: seq<Part>): (r: string)
    ensures parts == [] ==> r == []
    ensures |parts| == 1 ==> r == parts[0].text.GetOr("")
  {
    Concat(seq(|parts|, k requires 0 <= k < |parts| => parts[k].text.GetOr("")))
  }

  /** `data?.candidates?.[0]?.content?.parts?.map(…).join("") ?? ""` */
  function ScriptText(data: Reply): (r: string)
    ensures data.candidates.None? || data.candidates.value == [] ==> r == []
    ensures data.candidates.Some? && data.candidates.value != [] && data.candidates.value[0].content.None? ==> r == []
    ensures data.candidates.Some? && data.candidates.value != [] && data.candidates.value[0].content.Some? ==>
      r == match data.candidates.value[0].content.value.parts
           case None => ""
           case Some(ps) => PartsText(ps)
  {
    match data.candidates
    case None => ""
    case Some(cs) =>
      if cs == [] then ""
      else match cs[0].content
        case None => ""
        case Some(content) =>
          match content.parts
          case None => ""
          case Some(parts) => PartsText(parts)
  }

  /** The text of a run of parts is the text of its first part followed by the text of the rest. */
  lemma {:induction false} PartsTextCons(p: Part, rest: seq<Part>)
    ensures PartsText([p] + rest) == p.text.GetOr("") + PartsText(rest)
  {
    var texts := seq(|[p] + rest|, k requires 0 <= k < |[p] + rest| => ([p] + rest)[k].text.GetOr(""));
    assert texts[1..] == seq(|rest|, k requires 0 <= k < |rest| => rest[k].text.GetOr(""));
  }

  /**
   * The script is the first candidate's part texts in order, a part without
   * text giving nothing; a part list that is empty gives the empty script.
   */
  lemma {:induction false} PartsTextInOrder(a: seq<Part>, b: seq<Part>)
    ensures PartsText(a + b) == PartsText(a) + PartsText(b)
    ensures PartsText([]) == []
    decreases |a|
  {
    if a != [] {
      assert a + b == [a[0]] + (a[1..] + b);
      PartsTextCons(a[0], a[1..] + b);
      PartsTextCons(a[0], a[1..]);
      assert [a[0]] + a[1..] == a;
      PartsTextInOrder(a[1..], b);
    } else {
      assert a + b == b;
    }
  }

  /** Candidates after the first are ignored. */
  lemma OnlyFirstCandidate(first: Candidate, more: seq<Candidate>)
    ensures ScriptText(Reply(Some([first] + more))) == ScriptText(Reply(Some([first])))
  {
  }

  // ---------------------------------------------------------------------------
  // The handler: `POST`

  /**
   * What the `fetch` to the generator produced. A non-OK reply is read with
   * `res.text()` (`errorText`), an OK one with `res.json()` (`body`); each is
   * `None` when that read throws, and only the one the handler reads matters.
   */
  datatype Upstream =
    | Unreachable                                         // `fetch` rejected
    | Responded(ok: bool, status: int, errorText: Option<string>, body: Option<Reply>)

  datatype Response =
    | MissingKey                                   // the API key is not configured
    | BadBody(fieldErrors: map<string, seq<Issue>>)
    | UpstreamFailed(upstreamStatus: int)
    | Crashed                                      // an exception reached the `catch`
    | Generated(script: string)

  function Status(r: Response): (status: int)
    ensures status in {200, 400, 500, 502}
    ensures status == 500 <==> r.MissingKey? || r.Crashed?
    ensures status == 200 <==> IsOk(r)
  {
    match r
    case MissingKey => 500
    case BadBody(_) => 400
    case UpstreamFailed(_) => 502
    case Crashed => 500
    case Generated(_) => 200
  }

  /** The `ok` field of the JSON reply. */
  predicate IsOk(r: Response) {
    r.Generated?
  }

  /** `apiKey` is truthy: set and not the empty string. */
  predicate HasKey(apiKey: Option<string>)
    ensures HasKey(apiKey) <==> apiKey.Some? && |apiKey.value| > 0
  {
    apiKey.Some? && apiKey.value != []
  }

  /**
   * `POST(req)`: `apiKey` is `GEMINI_API_KEY`, `body` what `req.json()`
   * yields (`None` when it throws), `upstream` the generator's answer.
   */
  function Post(apiKey: Option<string>, body: Option<Json>, upstream: Upstream): (r: Response)
    ensures Status(r) in {200, 400, 500, 502}
    ensures !HasKey(apiKey) ==> r == MissingKey
    ensures r.BadBody? ==> body.Some? && !AcceptableBody(body.value) && r.fieldErrors == ParseBody(body.value).fieldErrors
    ensures r.UpstreamFailed? ==>
      upstream.Responded? && !upstream.ok && upstream.errorText.Some? && r.upstreamStatus == upstream.status
    ensures r.Generated? ==>
      && body.Some? && AcceptableBody(body.value)
      && upstream.Responded? && upstream.ok && upstream.body.Some?
      && r.script == ScriptText(upstream.body.value)
  {
    if !HasKey(apiKey) then MissingKey
    else match body
      case None => Crashed
      case Some(json) =>
        match ParseBody(json)
        case Invalid(errors) => BadBody(errors)
        case Valid(_, _) =>
          match upstream
          case Unreachable => Crashed
          case Responded(ok, status, errorText, reply) =>
            if !ok then
              if errorText.Some? then UpstreamFailed(status) else Crashed
            else match reply
              case None => Crashed
              case Some(data) => Generated(ScriptText(data))
  }

  /**
   * The order of the early returns: a missing key wins over everything, a
   * bad body over anything the generator does, a failed generator call over
   * the reply's contents; only the full path answers 200 with the extracted
   * script.
   */
  lemma PostOutcomes(apiKey: Option<string>, body: Option<Json>, upstream: Upstream)
    ensures var r := Post(apiKey, body, upstream);
      && Status(r) in {200, 400, 500, 502}
      && (!HasKey(apiKey) ==> r == MissingKey)
      && (Status(r) == 400 <==> HasKey(apiKey) && body.Some? && !AcceptableBody(body.value))
      && (Status(r) == 502 <==> HasKey(apiKey) && body.Some? && AcceptableBody(body.value)
                                && upstream.Responded? && !upstream.ok && upstream.errorText.Some?)
      && (r.UpstreamFailed? ==> r.upstreamStatus == upstream.status)
      && (Status(r) == 200 <==> HasKey(apiKey) && body.Some? && AcceptableBody(body.value)
                                && upstream.Responded? && upstream.ok && upstream.body.Some?)
      && (Status(r) == 200 ==> r == Generated(ScriptText(upstream.body.value)))
      && (IsOk(r) <==> Status(r) == 200)
  {
  }

  /** A missing key is answered the same whatever the body and the generator would have done. */
  lemma KeyCheckedFirst(apiKey: Option<string>, b1: Option<Json>, b2: Option<Json>, u1: Upstream, u2: Upstream)
    requires !HasKey(apiKey)
    ensures Post(apiKey, b1, u1) == Post(apiKey, b2, u2) && Status(Post(apiKey, b1, u1)) == 500
  {
  }

  /** A rejected body is answered without regard to the generator. */
  lemma BodyCheckedBeforeUpstream(apiKey: Option<string>, json: Json, u1: Upstream, u2: Upstream)
    requires HasKey(apiKey) && !AcceptableBody(json)
    ensures Post(apiKey, Some(json), u1) == Post(apiKey, Some(json), u2) == BadBody(ParseBody(json).fieldErrors)
  {
  }
}
