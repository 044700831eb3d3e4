# Video script studio: verified model of the deterministic core

The application takes a short idea and a sentence/scene amount, asks an
external text generator for a script, and shows the script cut into parts.
Almost everything else is UI, HTTP, database and token plumbing. This project
models the three pieces of deterministic logic and proves what they promise:

- **Sentence segmentation** (`splitIntoSentences` on the dashboard page). The
  generated text is split at every whitespace run that directly follows `.`,
  `!` or `?`. The punctuation stays on the left piece. Each piece is trimmed,
  empty pieces are dropped, and the list is cut to the first `expectedCount`
  parts. The same page has a rule for accepting a stored default amount.
- **Route guard** (`middleware`). This is a decision over the request path and
  the `token` cookie. The outcome is a redirect to `/login?from=<path>`, a
  redirect to `/dashboard`, or pass-through. It only runs for the paths in
  `config.matcher`.
- **Generation endpoint** (`POST` of `/api/gemini`). It covers the body schema,
  the order of its early returns (500, 400, 502, 200), the duration estimate
  written into the prompt, and how the script text is pulled out of the
  generator's reply.

Modules: `Wrappers` (Option), `JsString` (JavaScript whitespace, `trim`,
`startsWith`, `join("")`), `SentenceSplit` (the regular-expression split),
`Dashboard`, `Middleware`, `GeminiRoute`. Everything is pure: functions
and lemmas. The source code has no mutable state in these parts.

Two behaviours of the code worth knowing:

- The client splits only at sentence ends; the "Scene N:" labels the
  generation prompt asks for (src/app/api/gemini/route.ts:48) stay inside
  the parts.
- A count of 0 means no truncation. A negative count does truncate:
  `expectedCount` is truthy and always below the length, so
  `raw.slice(0, expectedCount)` drops that many parts from the end (see
  `Dashboard.Truncate`). In practice the page only calls the function after
  the endpoint has accepted an amount in 1..200.

## Model

| member | source | states |
|---|---|---|
| `JsString.Trim` | src/app/dashboard/page.tsx:8 | the result has no whitespace at either end, and it is empty exactly when the input is all whitespace |
| `JsString.TrimInfix` | src/app/dashboard/page.tsx:8 | the trimmed string is an infix of the input, with only whitespace on either side of it |
| `JsString.TrimKeepsContent` | src/app/dashboard/page.tsx:8 | trimming removes only whitespace; the non-whitespace characters keep their order |
| `JsString.TrimKeepsLast` | src/app/dashboard/page.tsx:8 | a string whose last character is not whitespace keeps that last character when trimmed, and only its leading run is removed |
| `JsString.TrimIdempotent` | src/app/dashboard/page.tsx:8 | a string with no whitespace at either end is left unchanged by trimming |
| `JsString.StartsWith` | middleware.ts:10 | `startsWith` holds exactly when the prefix is no longer than the string and agrees with it character by character |
| `JsString.Concat` | src/app/api/gemini/route.ts:103 | `join("")` of no strings is `""`, and of a single string that string |
| `JsString.ConcatAppend` | src/app/api/gemini/route.ts:103 | joining two concatenated lists gives the join of the first followed by the join of the second |
| `SentenceSplit.FindBoundary` | src/app/dashboard/page.tsx:7 | returns the leftmost index at or after the start where the separator can match (punctuation before, whitespace at), and there is none before it |
| `SentenceSplit.SpaceRunEnd` | src/app/dashboard/page.tsx:7 | the greedy `\s+` consumes the whole whitespace run and stops at a non-whitespace character or the end |
| `SentenceSplit.Split` | src/app/dashboard/page.tsx:7 | at least one piece, the first a prefix of the input; every piece except the last ends in `.`, `!` or `?`; no piece after the first starts with whitespace, because each run is consumed whole; no piece contains a place where the separator matches |
| `SentenceSplit.Gaps` | src/app/dashboard/page.tsx:7 | one consumed separator run between each two pieces, each non-empty and all whitespace |
| `SentenceSplit.SplitReassembles` | src/app/dashboard/page.tsx:7 | `split` cuts nothing but the separator: putting each consumed run back between its two pieces gives the input again |
| `SentenceSplit.SplitAt` | src/app/dashboard/page.tsx:7 | when the first separator match runs from `i` to `j`, the first piece is the text before `i` and the rest is the split of the text after `j` |
| `SentenceSplit.SplitHead` | src/app/dashboard/page.tsx:7 | a piece with no split place inside, ending in punctuation, then a whitespace run, then a rest that does not start with whitespace, splits into that piece followed by the split of the rest |
| `SentenceSplit.SplitUnique` | src/app/dashboard/page.tsx:7 | any decomposition with those properties is the one `split` returns, so the split happens at exactly the punctuation-then-whitespace places |
| `SentenceSplit.NoBoundarySplit` | src/app/dashboard/page.tsx:7 | a text with no punctuation followed by whitespace comes back as a single piece |
| `SentenceSplit.SplitKeepsContent` | src/app/dashboard/page.tsx:7 | splitting loses only whitespace: the non-whitespace characters of the pieces, in order, are those of the input |
| `Dashboard.TrimEach` | src/app/dashboard/page.tsx:8 | same length as the input list; each element is the trimmed input element |
| `Dashboard.DropEmpty` | src/app/dashboard/page.tsx:9 | every kept element is non-empty, no more elements than the input, and the list is unchanged when nothing is empty |
| `Dashboard.DropEmptyCounts` | src/app/dashboard/page.tsx:9 | every non-empty string is kept exactly as often as it occurs in the input |
| `Dashboard.DropEmptyAppend` | src/app/dashboard/page.tsx:9 | filtering a concatenation is the concatenation of the filtered sides, so the kept elements stay in their order |
| `Dashboard.DropEmptyMembers` | src/app/dashboard/page.tsx:9 | every kept element is an element of the input |
| `Dashboard.Sentences` | src/app/dashboard/page.tsx:6-9 | no more parts than `split` pieces, each non-empty and with no whitespace at either end |
| `Dashboard.SliceTo` | src/app/dashboard/page.tsx:12 | `slice(0, end)` returns a prefix; its length is `end` clamped to the list for `end >= 0`, or the length minus `-end` (at least 0) for a negative `end` |
| `Dashboard.Truncate` | src/app/dashboard/page.tsx:11-15 | the result is a prefix of `raw`; a positive count keeps `min(count, length)` parts; 0 keeps all; a negative count drops that many from the end |
| `Dashboard.SplitIntoSentences` | src/app/dashboard/page.tsx:5-16 | the parts are non-empty, trimmed and a prefix of the untruncated parts; a positive count keeps exactly the first `expectedCount` when there are more, all of them otherwise; a count of 0 keeps all; a negative count drops that many from the end |
| `Dashboard.SentencesShape` | src/app/dashboard/page.tsx:6-9 | every part is non-empty and trimmed, and none contains a split place; every part but the last ends in `.`, `!` or `?` |
| `Dashboard.SentencesKeepContent` | src/app/dashboard/page.tsx:6-9 | joining the parts loses only whitespace: their non-whitespace characters, in order, equal the input's |
| `Dashboard.WholeTextWhenNoBoundary` | src/app/dashboard/page.tsx:6-9 | with no punctuation followed by whitespace, the result is the single trimmed text, or empty when the text is blank (including `""`) |
| `Dashboard.SentencesOfCleanSplit` | src/app/dashboard/page.tsx:6-9 | when every piece of the split is already non-empty and trimmed, trimming and filtering change nothing |
| `Dashboard.SplitIntoSentencesSpec` | src/app/dashboard/page.tsx:5-16 | the returned parts are non-empty and trimmed and a prefix of the untruncated parts; a positive count bounds the length, leaves a short list whole and cuts a longer one to exactly its first `expectedCount` parts; a count of 0 truncates nothing |
| `Dashboard.TruncateMonotone` | src/app/dashboard/page.tsx:11-12 | for any list, a smaller positive count keeps a prefix of what a larger one keeps |
| `Dashboard.TruncationMonotone` | src/app/dashboard/page.tsx:11-12 | for the same text, a smaller positive count gives a prefix of the result for a larger count |
| `Dashboard.TruncatedContentIsPrefix` | src/app/dashboard/page.tsx:6-12 | the non-whitespace characters of a truncated result are a prefix of the input's |
| `Dashboard.SentencesOfJoined` | src/app/dashboard/page.tsx:6-9 | parts of the shape `SentencesShape` guarantees, joined by any non-empty whitespace runs, are split back into exactly those parts |
| `Dashboard.JoinedSentencesTruncated` | src/app/dashboard/page.tsx:5-16 | for such joined parts, a positive count keeps the first that many (all of them if fewer), and a count of 0 keeps all |
| `Dashboard.ThreeSentencesCutToTwo` | src/app/dashboard/page.tsx:5-16 | `"A. B! C?"` with a count of 2, for any non-whitespace, non-punctuation letters in place of A, B and C, gives `["A.", "B!"]` |
| `Dashboard.AmountAfterLoad` | src/app/dashboard/page.tsx:37-43 | the amount is in 1..200; it replaces the initial 40 exactly when the stored string is non-empty and parses to a number in 1..200, fractions included, and otherwise stays 40 |
| `Dashboard.RequestBody` | src/app/dashboard/page.tsx:57 | the posted body passes the endpoint's rule exactly when the idea has at least 5 characters and the amount is a whole number in 1..200 |
| `Dashboard.LoadedAmountIsAccepted` | src/app/dashboard/page.tsx:37-43 | the endpoint's body rule accepts the starting amount exactly when it is a whole number, so a stored value that parses to a whole number (or to nothing) is accepted |
| `Dashboard.FractionalDefaultRejected` | src/app/dashboard/page.tsx:39-41 | a stored "2.5" becomes the amount, and a body carrying 2.5 would be rejected by the endpoint |
| `Dashboard.IntendedAmountAfterLoad` | src/app/dashboard/page.tsx:37-43 | with a whole-number test added to the guard, the amount is always a whole number in 1..200, and a stored whole number in range replaces 40 |
| `Dashboard.IntendedAmountIsAccepted` | src/app/dashboard/page.tsx:37-43 | with that test, whatever is stored, the endpoint accepts the starting amount; on whole numbers the result equals the code's |
| `Middleware.AnyPrefix` | middleware.ts:10 | `some(startsWith)` holds exactly when some listed path is a prefix of the pathname |
| `Middleware.HasToken` | middleware.ts:8-20 | the cookie counts as present exactly when it is set and not the empty string, as JavaScript truthiness gives |
| `Middleware.Guard` | middleware.ts:6-25 | the login redirect happens exactly for a protected path without a token and carries the path; the dashboard redirect only for `/login` or `/signup` with a token |
| `Middleware.Route` | middleware.ts:27-29 | a path outside the matcher always passes through; a matched path gets the guard's decision |
| `Middleware.ProtectedIsDashboardPrefix` | middleware.ts:4-10 | a path is protected exactly when it starts with `/dashboard` |
| `Middleware.ProtectedExamples` | middleware.ts:10 | `/dashboard`, `/dashboard/x` and `/dashboardx` are protected; `/login`, `/signup` and `/` are not |
| `Middleware.RedirectConditionsExclusive` | middleware.ts:13-22 | no path is both protected and `/login` or `/signup`, so testing the protected case first decides nothing by order |
| `Middleware.GuardOutcomes` | middleware.ts:6-25 | redirect to login (with `from` = path) exactly when protected and no token; redirect to dashboard exactly for `/login` or `/signup` with a token; pass-through in every other case |
| `Middleware.EmptyTokenIsNoToken` | middleware.ts:8-13 | an empty cookie value is treated like an absent cookie |
| `Middleware.RouteOnMatchedPaths` | middleware.ts:27-29 | gives the outcome for each of the three matched paths, with and without a token |
| `Middleware.UnmatchedPathsPassThrough` | middleware.ts:27-29 | a path outside the matcher passes through; `/dashboard/x` passes through even without a token, though the guard alone would redirect it |
| `GeminiRoute.IdeaIssues` | src/app/api/gemini/route.ts:5 | `idea` raises no issue exactly when it is a string of at least 5 characters |
| `GeminiRoute.AmountIssues` | src/app/api/gemini/route.ts:6-10 | `amount` raises no issue exactly when it is an integral number in 1..200 |
| `GeminiRoute.ParseBody` | src/app/api/gemini/route.ts:4-11 | accepted exactly when the body rule holds, and then the idea and amount are those of the body; a rejected object names exactly the failing fields; a non-object names none |
| `GeminiRoute.HasKey` | src/app/api/gemini/route.ts:16-17 | the key counts as configured exactly when it is set and not the empty string |
| `GeminiRoute.DurationMinutes` | src/app/api/gemini/route.ts:57 | the estimate is at least 1, and it is 1 exactly for amounts below 15; above 1 it is the integer nearest amount/10, with halves rounded up |
| `GeminiRoute.DurationIsTenthRoundedUp` | src/app/api/gemini/route.ts:57 | the estimate equals `max(1, (amount + 5) div 10)` |
| `GeminiRoute.DurationBounds` | src/app/api/gemini/route.ts:57 | for an accepted amount the estimate lies in 1..20, and it never falls as the amount grows |
| `GeminiRoute.ScriptText` | src/app/api/gemini/route.ts:100-103 | no candidates, an empty candidate list, or a first candidate without content or without parts gives `""`; otherwise the script is the text of the first candidate's parts |
| `GeminiRoute.PartsText` | src/app/api/gemini/route.ts:101-103 | no parts give `""`; a single part gives its text, or `""` when it has none |
| `GeminiRoute.PartsTextCons` | src/app/api/gemini/route.ts:101-103 | the text of a list of parts is its first part's text (`""` if it has none) followed by the text of the rest |
| `GeminiRoute.PartsTextInOrder` | src/app/api/gemini/route.ts:101-103 | the text of two joined lists of parts is the first list's text followed by the second's; an empty list gives `""` |
| `GeminiRoute.OnlyFirstCandidate` | src/app/api/gemini/route.ts:101 | candidates after the first do not change the script |
| `GeminiRoute.Status` | src/app/api/gemini/route.ts:16-121 | every response has status 200, 400, 500 or 502; 500 exactly for the missing key and for a crash; 200 exactly when `ok` is true |
| `GeminiRoute.Post` | src/app/api/gemini/route.ts:16-121 | the status is 200, 400, 500 or 502; no key gives the 500 for a missing key; a 400 only for a body that fails the rule, with its field errors; a 502 only for a non-OK reply whose text was read, carrying its status; a 200 only on the full path, carrying the script extracted from the reply |
| `GeminiRoute.PostOutcomes` | src/app/api/gemini/route.ts:16-121 | the status is 200, 400, 500 or 502. No key gives 500. A bad body gives 400. A non-OK upstream reply gives 502 and carries its status when its text can be read, and 500 when reading it fails. Only the full path gives 200, `ok: true` and the extracted script |
| `GeminiRoute.KeyCheckedFirst` | src/app/api/gemini/route.ts:16-25 | without a key, the response is 500 and is the same whatever the body and the generator |
| `GeminiRoute.BodyCheckedBeforeUpstream` | src/app/api/gemini/route.ts:27-39 | a rejected body gets 400 with its field errors, whatever the generator would have answered |

## Left out

- Whitespace is the ECMAScript WhiteSpace and LineTerminator set over Unicode scalar values. JavaScript strings are UTF-16; every whitespace character is a single code unit, so splitting and trimming agree. Lengths do not: zod's `min(5)` counts UTF-16 code units, and `GeminiRoute.IdeaIssues` counts characters.
- `Number(saved)` and `Number.isNaN` are float parsing, which is not modelled. `Dashboard.AmountAfterLoad` takes the parsed value as an optional real (`None` for NaN). Infinities and floating-point rounding are not represented; both infinities fail the 1..200 guard anyway.
- `Dashboard.SplitIntoSentences` takes an integer count. The page's `amount` is a JavaScript number, but the endpoint only succeeds for integers in 1..200.
- `GeminiRoute.DurationMinutes`: the estimate is floating point in the source and is computed here in integers. The two agree for every integer amount below about 9·10^14 in magnitude, in particular for every accepted amount 1..200, the only ones that reach line 57; far beyond that the floating-point quotient loses precision and they can differ.
- The `fetch` to the generator is an input value (`Upstream`): either a rejected call or a response with `ok`, a status, the result of reading it as text (used when not OK) and the result of parsing it as JSON (used when OK); each read is absent when it throws. The reply does not depend on the request in the model.
- The prompt text sent to the generator is not modelled, except for the duration estimate. Neither are the request URL or the API key placement.
- The generator's reply is typed (candidates, content, parts, optional text). Replies with other shapes are not modelled: `parts` that is not an array, a `null` part, or a `text` that is a truthy non-string. In the source these throw into the catch (500) or are converted to strings by `join`.
- `Middleware.GuardOutcomes`: the login redirect carries the path. The URL building and the query-string encoding of `from` are not modelled.
- zod's `formErrors` and the message strings in `fieldErrors` are not modelled. A field's errors are the list of failed checks (`GeminiRoute.Issue`) as zod 3 collects them: a non-integer amount also gets its range checks. Zod 4 stops after a failed `.int()`. What the model relies on is only which fields fail, and that is the same in both versions.
- The 502 response's `details` field depends on `NODE_ENV`, and error logging goes to the console. Both are environment and I/O.
- The React component, `downloadTextFile`, local storage writes, the settings, my-scripts and home pages, and the app shell are UI and browser I/O.
- The persistence routes and models, the database connection cache, token signing, password hashing and the login and signup routes are thin wrappers over libraries.

## Findings

| source | as written | input that shows it | evidently intended | confidence | as-written member | corrected member |
|---|---|---|---|---|---|---|
| src/app/dashboard/page.tsx:39-41 | a stored default amount is accepted when it parses to any number in 1..200, fractions included | local storage holds "2.5" (the settings page stores whatever number is typed); the page starts with 2.5, which its own amount field (`min` 1, no `step`, so whole steps) refuses, so the form does not submit until the amount is edited; a client that posts the amount anyway gets a 400, because the endpoint requires an integer | accept only whole numbers in 1..200, the rule the endpoint and the amount field apply, so the initial 40 stays | medium, not executed | `Dashboard.FractionalDefaultRejected` | `Dashboard.IntendedAmountIsAccepted` |
