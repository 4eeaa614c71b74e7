/**
 * The `POST` handler of the idea-validation endpoint: a per-client request
 * counter kept in process memory, a fixed ceiling of admitted requests per
 * client key, a check on the submitted idea, and the extraction of the
 * generated text from the upstream model's reply.
 *
 * The request body and the upstream call are inputs: each is either a
 * rejected promise (a throw) or the JSON value it resolved to. Requests are
 * handled one at a time against the counter.
 */
module ValidateRoute {
  import opened Wrappers
  import opened JsText
  import opened JsonValue

  /** The ceiling on admitted requests per client key. */
  const MaxUsagePerIp: nat := 5

  /** The client key used when the forwarded-address header yields nothing. */
  const Unknown: string := "unknown"

  /** The per-client counter: an absent key has been admitted zero times. */
  type Counts = map<string, nat>

  /**
   * `ipUsageMap.get(ip) ?? 0`: the stored count, with an absent key read as
   * zero; while the quota holds, zero means exactly that the key is absent.
   */
  function Usage(c: Counts, key: string): (n: nat)
    ensures key in c ==> n == c[key]
    ensures QuotaRespected(c) ==> n <= MaxUsagePerIp && (n == 0 <==> key !in c)
  {
    if key in c then c[key] else 0
  }

  /** Every stored count lies between one and the ceiling. */
  predicate QuotaRespected(c: Counts) {
    forall k :: k in c ==> 1 <= c[k] <= MaxUsagePerIp
  }

  // ---------------------------------------------------------------------
  // Inputs and responses
  // ---------------------------------------------------------------------

  /** What `await req.json()` does: rejects, or resolves to a JSON value. */
  datatype BodyOutcome = BodyRejected | BodyParsed(json: Json)

  /**
   * What the upstream round trip (`fetch` then `response.json()`) does:
   * rejects (network failure, unparsable reply), or resolves to a JSON value.
   */
  datatype UpstreamOutcome = UpstreamRejected | UpstreamParsed(data: Json)

  /** The outcome of `const { idea } = await req.json()`. */
  datatype IdeaRead = ReadThrew | ReadIdea(idea: Lookup)

  datatype ResponseBody = ErrorBody(error: string) | ResultBody(result: Json)

  datatype Response = Response(status: nat, body: ResponseBody)

  /** One request as the handler sees it. */
  datatype Request = Request(header: Option<string>, body: BodyOutcome, upstream: UpstreamOutcome)

  /** The response and the counter after one request. */
  datatype Outcome = Outcome(response: Response, counts: Counts)

  /** The rate-limit message, with the ceiling rendered in decimal. */
  const RateLimitMessage: string :=
    "Rate limit exceeded: max " + DecimalString(MaxUsagePerIp) + " requests allowed per IP."

  const TooManyRequests := Response(429, ErrorBody(RateLimitMessage))
  const MissingIdea := Response(400, ErrorBody("Missing idea input"))
  const NoGeminiResponse := Response(500, ErrorBody("No response from Gemini"))
  const InternalError := Response(500, ErrorBody("Internal server error"))

  // ---------------------------------------------------------------------
  // The pure steps of the handler
  // ---------------------------------------------------------------------

  /**
   * `x-forwarded-for?.split(',')[0]?.trim() || 'unknown'`: the first
   * comma-separated entry of the header, trimmed, or the sentinel when the
   * header is absent or that entry is blank.
   */
  function ClientKey(header: Option<string>): (key: string)
    ensures key != "" && NoEdgeWhite(key) && ',' !in key
  {
    match header
    case None => Unknown
    case Some(v) =>
      var ip := Trim(FirstToken(v));
      KeyFromHeader(v);
      if ip == "" then Unknown else ip
  }

  /**
   * Where the key comes from: it is the sentinel exactly when the header is
   * absent, its first entry is blank, or that entry trims to the sentinel
   * itself; otherwise it is the trimmed first entry, a run of the header.
   */
  lemma ClientKeySource(header: Option<string>)
    ensures ClientKey(header) == Unknown <==>
              header.None? || AllWhite(FirstToken(header.value)) ||
              Trim(FirstToken(header.value)) == Unknown
    ensures ClientKey(header) != Unknown ==>
              header.Some? && ClientKey(header) == Trim(FirstToken(header.value)) &&
              IsInfix(ClientKey(header), header.value)
  {
    if header.Some? {
      KeyFromHeader(header.value);
    }
  }

  /** The trimmed first entry is blank exactly when the entry is, has no comma, and comes from the header. */
  lemma KeyFromHeader(v: string)
    ensures var token := FirstToken(v);
            (Trim(token) == "" <==> AllWhite(token)) &&
            ',' !in Trim(token) && IsInfix(Trim(token), v)
  {
    var token := FirstToken(v);
    TrimEmptyIffAllWhite(token);
    TrimIsInfix(token);
    InfixExcludes(Trim(token), token, ',');
    assert v[0..|token|] == token;
    InfixTransitive(Trim(token), token, v);
  }

  /**
   * `const { idea } = body`: destructuring throws on `null` (a JSON body can
   * never be `undefined`); on anything else it reads the property `idea`.
   */
  function ReadBody(body: BodyOutcome): (r: IdeaRead)
    ensures r.ReadThrew? <==> body.BodyRejected? || body.json.JNull?
    ensures r.ReadIdea? ==> (r.idea.Defined? <==> body.json.JObject? && "idea" in body.json.fields)
    ensures r.ReadIdea? && r.idea.Defined? ==> r.idea.value == body.json.fields["idea"]
  {
    match body
    case BodyRejected => ReadThrew
    case BodyParsed(v) => if v.JNull? then ReadThrew else ReadIdea(Member(v, "idea"))
  }

  /** `data?.candidates?.[0]?.content?.parts?.[0]?.text` */
  function ExtractResult(data: Json): (r: Lookup)
    ensures r.Defined? ==> data.JObject? && "candidates" in data.fields
  {
    var candidates := OptMember(Defined(data), "candidates");
    var content := OptMember(OptFirst(candidates), "content");
    var parts := OptMember(content, "parts");
    OptMember(OptFirst(parts), "text")
  }

  /**
   * The same path written out field by field: element `0` of `candidates`
   * (an array's first element or an object's field `"0"`) must be an object
   * with an object `content`, whose `parts` has an element `0` that is an
   * object with a `text` field.
   */
  function CandidateText(data: Json): Lookup {
    if !(data.JObject? && "candidates" in data.fields) then Undefined
    else
      var cand := Element0(data.fields["candidates"]);
      if !(cand.Defined? && cand.value.JObject? && "content" in cand.value.fields) then Undefined
      else
        var content := cand.value.fields["content"];
        if !(content.JObject? && "parts" in content.fields) then Undefined
        else
          var part := Element0(content.fields["parts"]);
          if !(part.Defined? && part.value.JObject? && "text" in part.value.fields) then Undefined
          else Defined(part.value.fields["text"])
  }

  /**
   * The optional chain reaches a value exactly along that path, whatever
   * other fields the reply and its objects carry; a string anywhere on the
   * path yields nothing.
   */
  lemma ExtractResultPath(data: Json)
    ensures ExtractResult(data) == CandidateText(data)
  {
  }

  /** The reply shape the upstream model documents: candidates, content, parts, text. */
  function Reply(candidates: seq<Json>): Json {
    JObject(map["candidates" := JArray(candidates)])
  }

  function Candidate(parts: seq<Json>): Json {
    JObject(map["content" := JObject(map["parts" := JArray(parts)])])
  }

  function TextPart(text: Json): Json {
    JObject(map["text" := text])
  }

  /** A body `{"idea": ...}` carrying a truthy idea. */
  predicate HasIdea(body: BodyOutcome) {
    ReadBody(body).ReadIdea? && IsTruthy(ReadBody(body).idea)
  }

  /** The idea a body carries, when it carries a truthy one. */
  function AdmittedIdea(body: BodyOutcome): Json
    requires HasIdea(body)
  {
    ReadBody(body).idea.value
  }

  /** The request is let through: under the ceiling, and a truthy `idea` was read. */
  predicate Admits(c: Counts, ip: string, body: BodyOutcome) {
    Usage(c, ip) < MaxUsagePerIp && HasIdea(body)
  }

  /**
   * Whether `${v}` throws while the prompt is built. A template literal
   * converts an object with ToString: an object carrying its own `toString`
   * field (a parsed JSON value, so never callable) falls through to
   * `valueOf`, which returns the object itself, so no primitive is found
   * and a TypeError is thrown; any other object uses the inherited
   * `toString`. An array joins its elements, converting each the same way
   * (`null` becomes the empty string). Primitives never throw.
   */
  predicate InterpolationThrows(v: Json)
    decreases v
  {
    match v
    case JObject(fields) => "toString" in fields
    case JArray(elems) => exists i :: 0 <= i < |elems| && InterpolationThrows(elems[i])
    case _ => false
  }

  /**
   * What an admitted request gets back: building the prompt throws (500),
   * the upstream call fails (500), the reply holds no truthy text (500), or
   * that text is returned as it came (200).
   */
  function AfterAdmission(idea: Json, upstream: UpstreamOutcome): (r: Response)
    ensures r.status == 200 <==>
              !InterpolationThrows(idea) && upstream.UpstreamParsed? &&
              IsTruthy(ExtractResult(upstream.data))
    ensures r.status == 200 ==> r.body == ResultBody(ExtractResult(upstream.data).value)
    ensures r.status != 200 ==>
              r == if InterpolationThrows(idea) || upstream.UpstreamRejected? then InternalError
                   else NoGeminiResponse
  {
    if InterpolationThrows(idea) then InternalError
    else match upstream
      case UpstreamRejected => InternalError
      case UpstreamParsed(data) =>
        var result := ExtractResult(data);
        if !IsTruthy(result) then NoGeminiResponse
        else Response(200, ResultBody(result.value))
  }

  /**
   * The whole handler, as a function of the counter, the client key derived
   * from the request, its body and the upstream outcome: the response it
   * returns and the counter it leaves behind.
   */
  function Handle(c: Counts, ip: string, body: BodyOutcome, upstream: UpstreamOutcome): (r: Outcome)
    // every path ends in one of four statuses
    ensures r.response.status in {200, 400, 429, 500}
    // the ceiling is checked first, whatever the body and the upstream do
    ensures Usage(c, ip) >= MaxUsagePerIp ==> r == Outcome(TooManyRequests, c)
    // quota is consumed exactly on admission, by one, on the client's key only
    ensures Admits(c, ip, body) ==>
              r == Outcome(AfterAdmission(AdmittedIdea(body), upstream), c[ip := Usage(c, ip) + 1])
    ensures !Admits(c, ip, body) ==> r.counts == c
  {
    var usageCount := Usage(c, ip);
    if usageCount >= MaxUsagePerIp then Outcome(TooManyRequests, c)
    else match ReadBody(body)
      case ReadThrew => Outcome(InternalError, c)
      case ReadIdea(idea) =>
        if !IsTruthy(idea) then Outcome(MissingIdea, c)
        else Outcome(AfterAdmission(idea.value, upstream), c[ip := usageCount + 1])
  }

  /** One request never takes a count above the ceiling. */
  lemma HandleKeepsQuota(c: Counts, ip: string, body: BodyOutcome, upstream: UpstreamOutcome)
    requires QuotaRespected(c)
    ensures QuotaRespected(Handle(c, ip, body, upstream).counts)
  {
  }

  /** How `Handle` refuses a request that it does not admit. */
  lemma HandleRefusals(c: Counts, ip: string, body: BodyOutcome, upstream: UpstreamOutcome)
    // a body that cannot be read or destructured is a 500 that spends nothing
    ensures Usage(c, ip) < MaxUsagePerIp && ReadBody(body).ReadThrew? ==>
              Handle(c, ip, body, upstream) == Outcome(InternalError, c)
    // a falsy idea, and only that, gets 400
    ensures Handle(c, ip, body, upstream).response.status == 400 <==>
              Usage(c, ip) < MaxUsagePerIp &&
              ReadBody(body).ReadIdea? && !IsTruthy(ReadBody(body).idea)
    ensures Handle(c, ip, body, upstream).response.status == 400 ==>
              Handle(c, ip, body, upstream).response == MissingIdea
    // 429 is the rate limit and nothing else
    ensures Handle(c, ip, body, upstream).response.status == 429 <==> Usage(c, ip) >= MaxUsagePerIp
  {
  }

  // ---------------------------------------------------------------------
  // The process-wide counter and the handler that updates it
  // ---------------------------------------------------------------------

  /** The module-level `ipUsageMap`, with `POST` as the method that updates it. */
  class UsageStore {
    var counts: Counts

    ghost predicate Valid()
      reads this
    {
      QuotaRespected(counts)
    }

    /** The map is empty when the process starts. */
    constructor ()
      ensures Valid() && counts == map[]
    {
      counts := map[];
    }

    /** Handles one request, in the order the handler performs its steps. */
    method Post(header: Option<string>, body: BodyOutcome, upstream: UpstreamOutcome) returns (resp: Response)
      requires Valid()
      modifies this
      ensures Valid()
      ensures resp == Handle(old(counts), ClientKey(header), body, upstream).response
      ensures counts == Handle(old(counts), ClientKey(header), body, upstream).counts
    {
      var ip := ClientKey(header);
      var usageCount := Usage(counts, ip);
      if usageCount >= MaxUsagePerIp {
        return TooManyRequests;
      }
      var read := ReadBody(body);
      if read.ReadThrew? {
        return InternalError;
      }
      if !IsTruthy(read.idea) {
        return MissingIdea;
      }
      counts := counts[ip := usageCount + 1];
      // building the prompt converts the idea to a string
      if InterpolationThrows(read.idea.value) {
        return InternalError;
      }
      if upstream.UpstreamRejected? {
        return InternalError;
      }
      var result := ExtractResult(upstream.data);
      if !IsTruthy(result) {
        return NoGeminiResponse;
      }
      return Response(200, ResultBody(result.value));
    }
  }

  /**
   * A store created empty and driven through `Post` by one client with a
   * truthy idea and a successful upstream reply answers five times with
   * 200 and then with 429.
   */
  method FreshStoreAdmitsFive(h: Option<string>, idea: string, text: string) returns (statuses: seq<nat>)
    requires idea != "" && text != ""
    ensures |statuses| == 6 && statuses[5] == 429
    ensures forall k :: 0 <= k < 5 ==> statuses[k] == 200
  {
    var store := new UsageStore();
    var body, up := IdeaBody(idea), TextReply(text);
    PlainExchange(idea, text);
    ghost var key := ClientKey(h);
    statuses := [];
    var i := 0;
    while i < 5
      invariant 0 <= i <= 5 && store.Valid()
      invariant store.counts == if i == 0 then map[] else map[key := i]
      invariant |statuses| == i && forall k :: 0 <= k < i ==> statuses[k] == 200
    {
      IdeaStep(store.counts, key, body, up);
      var r := store.Post(h, body, up);
      statuses := statuses + [r.status];
      i := i + 1;
    }
    IdeaStep(store.counts, key, body, up);
    var r := store.Post(h, body, up);
    statuses := statuses + [r.status];
  }

  // ---------------------------------------------------------------------
  // Sequences of requests
  // ---------------------------------------------------------------------

  /** The counter and the responses after a series of requests, handled in order. */
  datatype Trace = Trace(counts: Counts, responses: seq<Response>)

  function Serve(c: Counts, reqs: seq<Request>): (t: Trace)
    ensures |t.responses| == |reqs|
    decreases |reqs|
  {
    if reqs == [] then Trace(c, [])
    else
      var o := Handle(c, ClientKey(reqs[0].header), reqs[0].body, reqs[0].upstream);
      var rest := Serve(o.counts, reqs[1..]);
      Trace(rest.counts, [o.response] + rest.responses)
  }

  /** `Serve` handles the first request, then the rest against the counter it leaves. */
  lemma ServeFirst(c: Counts, reqs: seq<Request>)
    requires reqs != []
    ensures var o := Handle(c, ClientKey(reqs[0].header), reqs[0].body, reqs[0].upstream);
            var rest := Serve(o.counts, reqs[1..]);
            Serve(c, reqs).counts == rest.counts &&
            Serve(c, reqs).responses[0] == o.response &&
            forall i :: 0 < i < |reqs| ==> Serve(c, reqs).responses[i] == rest.responses[i - 1]
  {
  }

  /** One request with a truthy idea: refused at the ceiling, admitted below it. */
  lemma IdeaStep(c: Counts, key: string, body: BodyOutcome, upstream: UpstreamOutcome)
    requires HasIdea(body)
    ensures Handle(c, key, body, upstream) ==
              if Usage(c, key) >= MaxUsagePerIp then Outcome(TooManyRequests, c)
              else Outcome(AfterAdmission(AdmittedIdea(body), upstream), c[key := Usage(c, key) + 1])
  {
  }

  /**
   * A client sending only requests with a truthy idea, under one derived key
   * (whatever header values produce it), is admitted while its count is
   * under the ceiling, each admission answered from its idea and upstream
   * outcome alone, and gets 429 from then on.
   */
  lemma {:induction false} SameClientResponses(c: Counts, key: string, reqs: seq<Request>)
    requires forall i :: 0 <= i < |reqs| ==> ClientKey(reqs[i].header) == key && HasIdea(reqs[i].body)
    ensures forall i :: 0 <= i < |reqs| ==>
              Serve(c, reqs).responses[i] ==
                if Usage(c, key) + i >= MaxUsagePerIp then TooManyRequests
                else AfterAdmission(AdmittedIdea(reqs[i].body), reqs[i].upstream)
    decreases |reqs|
  {
    if reqs != [] {
      var u := Usage(c, key);
      assert ClientKey(reqs[0].header) == key;
      var o := Handle(c, key, reqs[0].body, reqs[0].upstream);
      IdeaStep(c, key, reqs[0].body, reqs[0].upstream);
      assert Usage(o.counts, key) == if u >= MaxUsagePerIp then u else u + 1;
      ServeFirst(c, reqs);
      SameClientResponses(o.counts, key, reqs[1..]);
      forall i | 0 < i < |reqs|
        ensures reqs[1..][i - 1] == reqs[i]
      {
      }
    }
  }

  /** The same client's count climbs by one per admitted request and stops at the ceiling. */
  lemma {:induction false} SameClientUsage(c: Counts, key: string, reqs: seq<Request>)
    requires forall i :: 0 <= i < |reqs| ==> ClientKey(reqs[i].header) == key && HasIdea(reqs[i].body)
    ensures var u := Usage(c, key);
            Usage(Serve(c, reqs).counts, key) ==
              if u >= MaxUsagePerIp then u
              else if u + |reqs| <= MaxUsagePerIp then u + |reqs|
              else MaxUsagePerIp
    decreases |reqs|
  {
    if reqs != [] {
      assert ClientKey(reqs[0].header) == key;
      var o := Handle(c, key, reqs[0].body, reqs[0].upstream);
      IdeaStep(c, key, reqs[0].body, reqs[0].upstream);
      SameClientUsage(o.counts, key, reqs[1..]);
    }
  }

  /**
   * A key never seen before gets exactly five admissions: with a successful
   * upstream reply the first five requests return the generated text and
   * the sixth is refused with a message citing the ceiling.
   */
  lemma FreshClientGetsFive(c: Counts, h: Option<string>, idea: string, text: string)
    requires ClientKey(h) !in c && idea != "" && text != ""
    ensures var t := Serve(c, seq(6, _ => Request(h, IdeaBody(idea), TextReply(text))));
            (forall i :: 0 <= i < 5 ==> t.responses[i] == Response(200, ResultBody(JString(text)))) &&
            t.responses[5] == TooManyRequests &&
            t.responses[5].body.error == "Rate limit exceeded: max 5 requests allowed per IP."
  {
    var req := Request(h, IdeaBody(idea), TextReply(text));
    var reqs := seq(6, _ => req);
    var key := ClientKey(h);
    PlainExchange(idea, text);
    assert forall i :: 0 <= i < |reqs| ==> reqs[i] == req;
    SameClientResponses(c, key, reqs);
    var t := Serve(c, reqs);
    assert Usage(c, key) == 0;
    forall i | 0 <= i < 5
      ensures t.responses[i] == Response(200, ResultBody(JString(text)))
    {
      assert reqs[i] == req;
    }
    assert t.responses[5] == TooManyRequests;
    RateLimitMessageCitesCeiling();
  }

  /** The body `{"idea": idea}`. */
  function IdeaBody(idea: string): BodyOutcome {
    BodyParsed(JObject(map["idea" := JString(idea)]))
  }

  /** An upstream reply with one candidate holding one text part. */
  function TextReply(text: string): UpstreamOutcome {
    UpstreamParsed(Reply([Candidate([TextPart(JString(text))])]))
  }

  /** A non-empty idea is admitted, and a one-part reply is answered with its text. */
  lemma PlainExchange(idea: string, text: string)
    requires idea != "" && text != ""
    ensures HasIdea(IdeaBody(idea)) && AdmittedIdea(IdeaBody(idea)) == JString(idea)
    ensures AfterAdmission(JString(idea), TextReply(text)) == Response(200, ResultBody(JString(text)))
  {
    assert ReadBody(IdeaBody(idea)) == ReadIdea(Defined(JString(idea)));
    FirstCandidateFirstPart(Reply([Candidate([TextPart(JString(text))])]), JString(text));
  }

  /** The 429 message names the ceiling, in decimal. */
  lemma RateLimitMessageCitesCeiling()
    ensures RateLimitMessage == "Rate limit exceeded: max 5 requests allowed per IP."
  {
    assert DecimalString(MaxUsagePerIp) == [Digit(5)] == "5";
  }

  /**
   * The ceiling holds for every run of requests the process ever serves,
   * starting from the empty map it is created with.
   */
  lemma QuotaInvariant(reqs: seq<Request>)
    ensures forall k :: k in Serve(map[], reqs).counts ==>
              1 <= Serve(map[], reqs).counts[k] <= MaxUsagePerIp
  {
    assert QuotaRespected(map[]);
    ServeKeepsQuota(map[], reqs);
  }

  /** Serving any run of requests keeps every count between one and the ceiling. */
  lemma {:induction false} ServeKeepsQuota(c: Counts, reqs: seq<Request>)
    requires QuotaRespected(c)
    ensures QuotaRespected(Serve(c, reqs).counts)
    decreases |reqs|
  {
    if reqs != [] {
      var o := Handle(c, ClientKey(reqs[0].header), reqs[0].body, reqs[0].upstream);
      HandleKeepsQuota(c, ClientKey(reqs[0].header), reqs[0].body, reqs[0].upstream);
      ServeKeepsQuota(o.counts, reqs[1..]);
    }
  }

  /** Counts are never reset or lowered: no key is forgotten and none goes down. */
  lemma {:induction false} CountsNeverDecrease(c: Counts, reqs: seq<Request>)
    ensures c.Keys <= Serve(c, reqs).counts.Keys
    ensures forall k :: k in c ==> c[k] <= Serve(c, reqs).counts[k]
    decreases |reqs|
  {
    if reqs != [] {
      var o := Handle(c, ClientKey(reqs[0].header), reqs[0].body, reqs[0].upstream);
      CountsNeverDecrease(o.counts, reqs[1..]);
    }
  }

  /**
   * The request gate never consults the upstream model: a request refused
   * for its rate, its body or its idea gets the same answer whatever the
   * upstream would have done.
   */
  lemma UpstreamOnlyAfterAdmission(c: Counts, ip: string, body: BodyOutcome, u1: UpstreamOutcome, u2: UpstreamOutcome)
    requires !Admits(c, ip, body)
    ensures Handle(c, ip, body, u1) == Handle(c, ip, body, u2)
  {
  }

  /**
   * Quota is spent before the upstream call: an admitted request whose
   * upstream call fails, or whose reply holds no text, still counts.
   */
  lemma FailedUpstreamStillCounts(c: Counts, ip: string, body: BodyOutcome, upstream: UpstreamOutcome)
    requires Admits(c, ip, body)
    requires upstream.UpstreamRejected? || !IsTruthy(ExtractResult(upstream.data))
    ensures Handle(c, ip, body, upstream).response ==
            (if InterpolationThrows(AdmittedIdea(body)) || upstream.UpstreamRejected? then InternalError
             else NoGeminiResponse)
    ensures Usage(Handle(c, ip, body, upstream).counts, ip) ==
            Usage(c, ip) + 1
  {
  }

  /**
   * Only falsiness is checked: an idea made of white space alone is
   * admitted and spends quota.
   */
  lemma WhitespaceIdeaAdmitted(c: Counts, ip: string, idea: string)
    requires Usage(c, ip) < MaxUsagePerIp
    requires idea != "" && AllWhite(idea)
    ensures Admits(c, ip, BodyParsed(JObject(map["idea" := JString(idea)])))
  {
  }

  /**
   * Quota is spent before the prompt is built: an admitted idea whose
   * interpolation throws, such as `{"toString": 1}` or an array holding
   * one, gets 500 whatever the upstream would have done, and still counts.
   */
  lemma PromptThrowSpendsQuota(c: Counts, ip: string, body: BodyOutcome, upstream: UpstreamOutcome)
    requires Usage(c, ip) < MaxUsagePerIp && HasIdea(body) && InterpolationThrows(AdmittedIdea(body))
    ensures Handle(c, ip, body, upstream) == Outcome(InternalError, c[ip := Usage(c, ip) + 1])
  {
  }

  /** An object idea with its own `toString` field is truthy and throws when interpolated. */
  lemma ToStringFieldThrows(c: Counts, ip: string, fields: map<string, Json>, upstream: UpstreamOutcome)
    requires Usage(c, ip) < MaxUsagePerIp && "toString" in fields
    ensures var body := BodyParsed(JObject(map["idea" := JObject(fields)]));
            HasIdea(body) && InterpolationThrows(AdmittedIdea(body)) &&
            Handle(c, ip, body, upstream) == Outcome(InternalError, c[ip := Usage(c, ip) + 1])
  {
    var body := BodyParsed(JObject(map["idea" := JObject(fields)]));
    assert ReadBody(body) == ReadIdea(Defined(JObject(fields)));
  }

  /**
   * The upstream text is taken from the first part of the first candidate,
   * whatever other fields, parts and candidates the reply carries.
   */
  lemma FirstCandidateFirstPart(data: Json, text: Json)
    requires data.JObject? && "candidates" in data.fields
    requires var cands := data.fields["candidates"];
             cands.JArray? && cands.elems != [] &&
             var cand := cands.elems[0];
             cand.JObject? && "content" in cand.fields &&
             var content := cand.fields["content"];
             content.JObject? && "parts" in content.fields &&
             var parts := content.fields["parts"];
             parts.JArray? && parts.elems != [] &&
             parts.elems[0].JObject? && "text" in parts.elems[0].fields &&
             parts.elems[0].fields["text"] == text
    ensures ExtractResult(data) == Defined(text)
  {
    ExtractResultPath(data);
  }
}
