# SaaS idea validator: request gate and report fence stripping

This project models two pieces of the idea-validation web app in Dafny.

- **The `POST /api/validate` handler** (`src/app/api/validate/route.ts`).
  - A process-wide map counts the requests admitted for each client key. The ceiling is 5 per key.
  - The key is the first comma-separated entry of the `x-forwarded-for` header, trimmed, or `'unknown'`.
  - The handler checks the ceiling, reads `idea` from the JSON body, refuses a falsy idea, and spends one unit of quota.
  - It builds the prompt around `${idea}`, which throws for some ideas. It then calls the upstream model and returns the text found at `candidates[0].content.parts[0].text`.
  - Each path ends in 429, 400, 500 or 200. The `catch` turns every throw into 500 "Internal server error".
- **The `trimmed` value of the validation report** (`src/components/ui/ValidationReport.tsx:12-15`).
  - It removes a leading `` ```htm `` / `` ```html `` fence and the white space after it.
  - It removes one `` ``` `` at the very end.
  - It trims the rest.

The modules are:

- `Wrappers`: the optional header value.
- `JsText`: the ECMAScript string operations the code relies on.
  - `trim`, and the white-space class that `trim` and the regular-expression escape `\s` share.
  - `split(',')[0]`.
  - How a template literal renders a non-negative integer below 10^21. The only one rendered is the ceiling, 5.
- `JsonValue`: JSON values, `undefined`, JavaScript truthiness, and the optional-chaining reads `x?.name` and `x?.[0]`.
- `ValidateRoute`: the handler.
  - `Handle` is the handler as a function of the counter map, the client key, the body outcome and the upstream outcome.
  - `UsageStore` is a class holding the map, with `Post` as the imperative handler. `Post` is proved to produce exactly what `Handle` does.
  - `Serve` folds `Handle` over a run of requests. The quota invariant and the multi-request properties are lemmas about it.
- `FenceStrip`: the fence stripping, as pure functions over strings, with lemmas on the regular-expression semantics.

Inputs the handler cannot compute are parameters:

- **The body.** `await req.json()` either rejects or yields a JSON value.
- **The upstream round trip.** `fetch` followed by `response.json()` either rejects or yields a JSON value.

Three consequences of the code that are easy to miss:

- **A white-space-only idea is admitted.** Only falsiness is checked (`route.ts:27`), so such an idea is not refused with 400. It spends quota.
- **A non-2xx upstream reply is not a thrown error.** `fetch` does not throw on such a reply. Its JSON body usually lacks the candidate text, so the answer is 500 "No response from Gemini" rather than "Internal server error".
- **Building the prompt can throw after quota is spent.** `${idea}` (`route.ts:39`) throws a TypeError for an object idea with its own `toString` field, or an array holding one. That happens after the increment (`route.ts:32`), so the answer is 500 "Internal server error" and the count stays raised.

## Model

| member | source | states |
|---|---|---|
| JsText.WhiteClass | src/components/ui/ValidationReport.tsx:13 | `IsWhite`, the class `\s` and `trim` share, holds exactly for the code points of the ECMAScript WhiteSpace and LineTerminator tables |
| JsText.LeadingWhite | src/components/ui/ValidationReport.tsx:13 | the length of the white run at the start: every character before it is white, the one at it is not |
| JsText.TrailingWhite | src/components/ui/ValidationReport.tsx:15 | the length of the white run at the end: every character after the cut is white, the one before it is not |
| JsText.Trim | src/components/ui/ValidationReport.tsx:15 | `trim` returns the slice after the leading white run; the slice has no white space at either end and only white space lies outside it |
| JsText.TrimOfPadded | src/components/ui/ValidationReport.tsx:15 | trimming white padding around a string with non-white ends gives back exactly that string |
| JsText.TrimStartPadded | src/components/ui/ValidationReport.tsx:13 | dropping leading white space stops at the first non-white character |
| JsText.TrimIsInfix | src/components/ui/ValidationReport.tsx:15 | what `trim` returns is a contiguous run of its argument |
| JsText.FirstToken | src/app/api/validate/route.ts:13 | `split(',')[0]` is the prefix up to the first comma, or the whole string; it holds no comma |
| JsText.DecimalString | src/app/api/validate/route.ts:20 | the rendered integer is all digits, reads back as the same number and has no leading zero |
| JsonValue.FalsyTable | src/app/api/validate/route.ts:27 | `Truthy` and `IsTruthy` (`!idea`, `!result`): falsy exactly for `null`, `false`, `0`, `""` and `undefined` |
| JsonValue.OptMember | src/app/api/validate/route.ts:63 | `x?.name` never throws and yields a value exactly for an object that has the field, and then the field's value |
| JsonValue.Element0 | src/app/api/validate/route.ts:63 | element `0` of a container exists exactly for a non-empty array or an object with field `"0"`, and is that element |
| JsonValue.OptFirst | src/app/api/validate/route.ts:63 | `x?.[0]` gives the first element of a non-empty array and the first character of a non-empty string; it gives nothing for `undefined`, `null`, numbers and booleans |
| JsonValue.Member | src/app/api/validate/route.ts:25 | a property read on a non-null value is defined exactly when the value is an object with that field, and then it is the field's value |
| ValidateRoute.Usage | src/app/api/validate/route.ts:16 | `get(ip) ?? 0`: the stored count, or zero for an absent key; while the quota holds it is at most 5 and zero exactly for an absent key |
| ValidateRoute.ClientKey | src/app/api/validate/route.ts:13 | the key is never empty, has no white space at its ends and contains no comma |
| ValidateRoute.ClientKeySource | src/app/api/validate/route.ts:13 | the key is `'unknown'` exactly when the header is absent, its first entry is blank, or that entry trims to `'unknown'`; otherwise it is the trimmed first entry and a run of the header |
| ValidateRoute.ReadBody | src/app/api/validate/route.ts:25 | destructuring throws exactly when the body did not parse or is JSON `null`; `idea` is defined exactly when the body is an object with that field, and is then that field's value |
| ValidateRoute.ExtractResult | src/app/api/validate/route.ts:63 | a result exists only when the upstream reply is an object with a `candidates` field |
| ValidateRoute.ExtractResultPath | src/app/api/validate/route.ts:63 | the optional chain yields a value exactly along candidates → element 0 → content → parts → element 0 → text, with element 0 an array's first element or an object's field `"0"`, whatever other fields the objects carry |
| ValidateRoute.FirstCandidateFirstPart | src/app/api/validate/route.ts:63 | for any reply whose candidates and parts are non-empty arrays, the text is that of the first part of the first candidate, whatever other fields, parts and candidates it carries |
| ValidateRoute.AfterAdmission | src/app/api/validate/route.ts:34-74 | 200 exactly when the prompt builds, the upstream reply parsed and its extracted text is truthy, with that text returned verbatim; otherwise 500 "Internal server error" when building the prompt or the upstream call throws, and 500 "No response from Gemini" when the text is missing or falsy |
| ValidateRoute.Handle | src/app/api/validate/route.ts:10-75 | the status is 200, 400, 429 or 500; at the ceiling the answer is 429 and the map is unchanged, whatever the body and upstream; an admitted request gets `AfterAdmission` of its idea and upstream outcome, sets its own key to old count + 1 (absent = 0) and leaves every other key alone; otherwise the map is unchanged |
| ValidateRoute.HandleRefusals | src/app/api/validate/route.ts:18-29 | under the ceiling, a body that throws gives 500 and spends nothing; 400 "Missing idea input" exactly for a falsy idea under the ceiling; 429 exactly at the ceiling |
| ValidateRoute.HandleKeepsQuota | src/app/api/validate/route.ts:18-32 | one request never takes a stored count outside 1..5 |
| ValidateRoute.IdeaStep | src/app/api/validate/route.ts:16-32 | a request with a truthy idea is refused at the ceiling and otherwise admitted with the count raised by one |
| ValidateRoute.UsageStore.constructor | src/app/api/validate/route.ts:6 | the map starts empty, which respects the quota |
| ValidateRoute.UsageStore.Post | src/app/api/validate/route.ts:10-75 | the response and the new map are those `Handle` gives for the key derived from the header, including the 500 for a prompt that cannot be built after the count was raised; the quota invariant is kept |
| ValidateRoute.FreshStoreAdmitsFive | src/app/api/validate/route.ts:6-32 | a new store answers one client's five requests with 200 and the sixth with 429 |
| ValidateRoute.Serve | src/app/api/validate/route.ts:10-75 | requests handled in order give one response each |
| ValidateRoute.ServeKeepsQuota | src/app/api/validate/route.ts:8-32 | serving any run of requests keeps every count between 1 and 5 |
| ValidateRoute.QuotaInvariant | src/app/api/validate/route.ts:6-32 | from the empty map, every stored count stays between 1 and 5 |
| ValidateRoute.CountsNeverDecrease | src/app/api/validate/route.ts:16-32 | no key is ever removed and no count ever goes down |
| ValidateRoute.SameClientResponses | src/app/api/validate/route.ts:13-69 | for requests with truthy ideas whose headers all derive one key (whatever the header values), request i is answered from its own idea and upstream outcome while old count + i < 5, and with 429 from then on |
| ValidateRoute.SameClientUsage | src/app/api/validate/route.ts:13-32 | that key's count rises by one per admitted request and stops at 5 |
| ValidateRoute.FreshClientGetsFive | src/app/api/validate/route.ts:6-32 | for a key never seen before, five requests get the generated text and the sixth gets 429 "Rate limit exceeded: max 5 requests allowed per IP." |
| ValidateRoute.PlainExchange | src/app/api/validate/route.ts:27-69 | a non-empty string idea is admitted and builds its prompt, and a one-candidate, one-part reply is answered with its text |
| ValidateRoute.RateLimitMessageCitesCeiling | src/app/api/validate/route.ts:20 | the 429 message is "Rate limit exceeded: max 5 requests allowed per IP." |
| ValidateRoute.UpstreamOnlyAfterAdmission | src/app/api/validate/route.ts:18-32 | a request that is not admitted gets the same answer and leaves the same map whatever the upstream would have done |
| ValidateRoute.FailedUpstreamStillCounts | src/app/api/validate/route.ts:32-74 | an admitted request whose upstream throws (500 "Internal server error") or yields no text (500 "No response from Gemini", unless building the prompt already threw) still spends one unit |
| ValidateRoute.PromptThrowSpendsQuota | src/app/api/validate/route.ts:32-73 | an admitted idea whose interpolation throws gets 500 "Internal server error" whatever the upstream does, and its key's count is still raised by one |
| ValidateRoute.ToStringFieldThrows | src/app/api/validate/route.ts:39 | an object idea with its own `toString` field, such as `{"toString": 1}`, is truthy, throws when interpolated, and gets 500 with the count raised |
| ValidateRoute.WhitespaceIdeaAdmitted | src/app/api/validate/route.ts:27-29 | under the ceiling, an idea made only of white space is admitted |
| FenceStrip.OpenerLength | src/components/ui/ValidationReport.tsx:13 | the first `replace` removes something exactly when the text starts with `` ```htm `` |
| FenceStrip.StripOpener | src/components/ui/ValidationReport.tsx:13 | the first `replace` leaves a suffix of the text, and changes the text exactly when it starts with `` ```htm `` |
| FenceStrip.OpenerIsLongestMatch | src/components/ui/ValidationReport.tsx:13 | what is removed matches `^```html?\s*`, and no match is longer |
| FenceStrip.OpenerRemoved | src/components/ui/ValidationReport.tsx:13 | after `` ```html ``, or after `` ```htm `` not followed by `l`, the fence, the tag and the following white run are removed |
| FenceStrip.OtherOpenersKept | src/components/ui/ValidationReport.tsx:13 | a bare fence, a fence not followed by `htm`, and `` ```HTML `` are left in place |
| FenceStrip.StripCloser | src/components/ui/ValidationReport.tsx:14 | the second `replace` either changes nothing or removes exactly the three backticks that end the string |
| FenceStrip.CloserRemoved | src/components/ui/ValidationReport.tsx:14 | a fence that ends the string is removed |
| FenceStrip.CloserOnlyAtVeryEnd | src/components/ui/ValidationReport.tsx:14-15 | a fence followed by any text not ending in a backtick, such as a single line break, is kept; without an opener the whole text is then only trimmed |
| FenceStrip.StripFences | src/components/ui/ValidationReport.tsx:12-15 | the result has no white space at either end |
| FenceStrip.StripFencesShape | src/components/ui/ValidationReport.tsx:12-15 | the result is a run of the text after the opening match, with only white space before it and only white space (and the closing fence) after it |
| FenceStrip.StripFencesIsInfix | src/components/ui/ValidationReport.tsx:12-15 | the result is a contiguous run of the input |
| FenceStrip.NoFenceOnlyTrims | src/components/ui/ValidationReport.tsx:12-15 | text that neither opens with `` ```htm `` nor ends with a fence is only trimmed |
| FenceStrip.OpenedBlock | src/components/ui/ValidationReport.tsx:13-15 | after an opening fence and its white run, only the closer removal and the trim act |
| FenceStrip.StripFencedBlock | src/components/ui/ValidationReport.tsx:12-15 | text between an `html`/`htm` opening fence and a closing fence, padded with white space, comes back exactly |
| FenceStrip.PlainTail | src/components/ui/ValidationReport.tsx:14-15 | text with no white space at its ends and no final backtick is left unchanged by the last two steps |
| FenceStrip.UnclosedBlock | src/components/ui/ValidationReport.tsx:13-15 | after an opening fence, such text comes back exactly |
| FenceStrip.NotIdempotent | src/components/ui/ValidationReport.tsx:13-14 | each `replace` fires once: a doubled opening fence loses one copy per pass |

## Left out

- `src/app/LandingPage.tsx` is not part of this model. It is React UI: component state, a `fetch` to the endpoint, and markup.
- The `marked.parse` and `DOMPurify.sanitize` calls and the `useState`/`useEffect` plumbing of the report (`ValidationReport.tsx:17-25`). These are foreign library calls and UI lifecycle.
- The network and JSON I/O: `fetch`, `response.json()`, `req.json()` and `NextResponse`. Each is an input outcome: a rejection, or the JSON value it resolved to. The HTTP status of the upstream reply is not an input, because the handler never reads it.
- The prompt text (`route.ts:34-51`) is not built. Only whether building it throws is modelled (`InterpolationThrows`). `JSON.stringify` of the prompt cannot throw, because the prompt holds only strings.
- The API key taken from `process.env`, and `console.error`. Neither affects a response or the map.
- Concurrency: requests run one at a time against the map. The read-then-increment race between overlapping requests is not modelled.
- JSON numbers are mathematical reals, and the body and reply are the values after `JSON.parse` has rounded them to IEEE doubles. For example, `{"idea": 1e-400}` parses to `0`. It is passed in as `JNumber(0.0)`, which is falsy, so the answer is 400 as in the code.
- Strings are sequences of Unicode scalar values, not UTF-16 code units. `trim`, `split` and the regular expressions act the same on both for the characters involved. There are two differences. `x?.[0]` on a string starting with an astral character gives half a surrogate pair. A lone surrogate, such as the JSON escape `"\ud800"` in a body or reply, cannot be represented at all.
- `Headers.get`: joining repeated header fields with `", "` happens before the handler sees the value, so the model takes the joined value.
- ValidateRoute.ExtractResult: its own contract states only a necessary condition for a result. The full optional-chaining path is stated by `ExtractResultPath`.
- ValidateRoute.Serve: its contract states only the number of responses. What the responses and the counts are is stated by `ServeKeepsQuota`, `CountsNeverDecrease`, `SameClientResponses` and `SameClientUsage`.
