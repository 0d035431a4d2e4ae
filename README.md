# Process creation: admission check and PII guard

This project models the route that creates a civic process
(`web/app/api/process/create/route.ts`). The route takes a JSON body with
`tipo_proceso` (the process type) and `actor_hash` (the pseudonymous
submitter). It refuses the request if either field is missing, or if the
process type looks like it holds an e-mail address or a phone number. Only
then does it call the backend procedure `create_process_with_event`, and it
turns that procedure's outcome into a JSON response.

The model has five modules:

- `Wrappers` (`wrappers.dfy`): `Option` and `Result`.
- `Text` (`text.dfy`): the character classes of ECMAScript regular
  expressions without the `u` flag (`\d`, `\s`, word characters, ASCII
  letters under `i`), and `String.prototype.trim`.
- `PiiGuard` (`pii_guard.dfy`): `piiSuspected`. Each regular expression is a
  predicate saying that some span of the string splits into the pieces the
  pattern asks for. `RegExp.prototype.test` reports exactly whether such a
  span exists, so no matching engine is modelled. Both phone alternatives
  and the optional prefix groups are modelled as written.
- `PiiGuardProperties` and `PiiGuardInvariance`: what the guard flags and what
  it lets through; that the phone pattern reduces to its 3+2+2 digit core;
  and that neither surrounding white space nor letter case changes the
  verdict.
- `CreateProcessRoute` (`create_process_route.dfy`): the `POST` handler as a
  function from the decoded body and the backend to a `Response`. JavaScript's
  `?? ""` and `|| ""` coercions are modelled on a `Field` datatype (absent,
  null, boolean, number, string, compound). The backend is a parameter
  `rpc: RpcArgs -> RpcOutcome`. So "the backend is not called" means the
  response is the same for every `rpc`.
- `CreateProcessRouteProperties`: each rejection holds exactly when its
  condition holds, the checks run in a fixed order, the backend gets the
  trimmed values, and the backend's outcome is mapped to the response.

Two results go beyond what the code states. First, scanning the trimmed
`tipo_proceso` flags exactly what scanning the raw text would
(`TrimKeepsVerdict`). A match can neither start nor end with white space, and
white space is never a word character. Second, the home page posts only
`tipo_proceso`. The route requires `actor_hash`, so every request the page
sends that passes the `tipo_proceso` checks gets 400 "actor_hash requerido"
(`HomePageRequestRefused`). The comment at `route.ts:7` says `actor_hash` is
"anon" for now. The model follows the code.

## Model

| member | source | states |
|---|---|---|
| `Text.Trim` | web/app/api/process/create/route.ts:21 | `trim()` returns the middle slice of the text. Everything around that slice is white space, and the slice neither starts nor ends with white space. It is empty exactly when the text is all white space. |
| `Text.TrimIdempotent` | web/app/api/process/create/route.ts:21 | Trimming twice gives the same result as trimming once. |
| `PiiGuardProperties.PhoneFoundIffSubscriber` | web/app/api/process/create/route.ts:13-14 | The phone pattern matches exactly when some 3+2+2 digit core `\d{3}[\s-]?\d{2}[\s-]?\d{2}` occurs. The optional prefix groups and the `\b\d{10}\b` alternative never add a match. |
| `PiiGuardProperties.SecondAlternativeRedundant` | web/app/api/process/create/route.ts:14 | Wherever `\b\d{10}\b` matches, the first alternative matches on the first seven of those digits. |
| `PiiGuardProperties.SuspectedIffEmailOrSubscriber` | web/app/api/process/create/route.ts:11-16 | `piiSuspected` holds exactly when the e-mail pattern matches or a 3+2+2 core occurs. |
| `PiiGuardProperties.SubscriberOfSeparatedGroups` | web/app/api/process/create/route.ts:14 | Digit groups of 3, 2 and 2 with at most one separator between groups form the core. The core spans 7 to 9 characters. |
| `PiiGuardProperties.SeparatedGroupsFlagged` | web/app/api/process/create/route.ts:13-15 | Any string containing 3+2+2 digit groups with at most one white-space or hyphen between groups is flagged. |
| `PiiGuardProperties.SevenDigitsFlagged` | web/app/api/process/create/route.ts:14-15 | Any string containing seven consecutive ASCII digits is flagged. |
| `PiiGuardProperties.TenDigitRunFlagged` | web/app/api/process/create/route.ts:14-15 | Any bare run of ten digits is flagged, with or without word boundaries around it. |
| `PiiGuardProperties.MixedCaseEmailFlagged` | web/app/api/process/create/route.ts:12-15 | "Ana@Example.COM" is flagged. |
| `PiiGuardProperties.FormattedPhoneFlagged` | web/app/api/process/create/route.ts:13-14 | "+52 (55) 123-45-67" is matched as a whole by the first alternative: country prefix, parenthesised area code, then the core. |
| `PiiGuardProperties.SubscriberHasSevenDigits` | web/app/api/process/create/route.ts:14 | A string containing a 3+2+2 core holds at least seven ASCII digits. |
| `PiiGuardProperties.EmailNeedsAt` | web/app/api/process/create/route.ts:12 | The e-mail pattern matches only strings that contain '@'. |
| `PiiGuardProperties.PhoneNeedsSevenDigits` | web/app/api/process/create/route.ts:13-14 | The phone pattern matches only strings with at least seven ASCII digits. |
| `PiiGuardProperties.NoAtFewDigitsNotFlagged` | web/app/api/process/create/route.ts:11-16 | A string with no '@' and fewer than seven ASCII digits is never flagged. |
| `PiiGuardProperties.OrdinaryLabelNotFlagged` | web/app/api/process/create/route.ts:11-16 | "Reporte 2024" is not flagged. |
| `PiiGuardInvariance.PaddingKeepsVerdict` | web/app/api/process/create/route.ts:12-15 | Adding white space around a string never changes whether it is flagged. |
| `PiiGuardInvariance.TrimKeepsVerdict` | web/app/api/process/create/route.ts:21-32 | `piiSuspected(text.trim())` equals `piiSuspected(text)` for every text. |
| `PiiGuardInvariance.LettersKeepVerdict` | web/app/api/process/create/route.ts:12 | Two strings that differ only in which ASCII letters stand where letters stand are flagged alike. |
| `PiiGuardInvariance.CaseKeepsVerdict` | web/app/api/process/create/route.ts:12 | Under the `i` flag, a string and its ASCII lower-case form are flagged alike. |
| `PiiGuard.EmailFound` | web/app/api/process/create/route.ts:12 | Definition: the e-mail pattern matches somewhere, that is some span has a local part, '@', a domain, '.', and two or more letters, with a word boundary at both ends. |
| `PiiGuard.PhoneFound` | web/app/api/process/create/route.ts:13-14 | Definition: one of the two phone alternatives matches some span, with its optional country code, area code and separators. |
| `PiiGuard.PiiSuspected` | web/app/api/process/create/route.ts:11-16 | Definition of `piiSuspected`: the e-mail test or the phone test succeeds. |
| `CreateProcessRoute.IsNullish` | web/app/api/process/create/route.ts:21 | Definition: the values `??` replaces, undefined and null. |
| `CreateProcessRoute.IsFalsy` | web/app/api/process/create/route.ts:45 | Definition: the values the logical-or fallback replaces, undefined, null, false, 0, NaN and "". |
| `CreateProcessRoute.ToText` | web/app/api/process/create/route.ts:21 | Definition of `String(v)`, which line 45 applies too, on each kind of field; only an array or object can throw. |
| `CreateProcessRoute.TextUnlessNullish` | web/app/api/process/create/route.ts:21 | `String(v ?? "")` gives "" for undefined and null, and "false" for `false`. It throws only for an array or object. |
| `CreateProcessRoute.TextUnlessFalsy` | web/app/api/process/create/route.ts:45 | `String(v OR "")`, written with the logical-or operator, gives "" for every falsy value, `false` included. It throws only for an array or object. |
| `CreateProcessRoute.Caught` | web/app/api/process/create/route.ts:64-69 | The `catch` block answers 500 with `ok: false`. Its error is the exception's message, or "error" when the exception has none. |
| `CreateProcessRoute.FirstOrSelf` | web/app/api/process/create/route.ts:63 | `data?.[0] ?? data` gives the first array element, the "0" member or the first character when that exists and is not null. Otherwise it gives `data`. It is null only when `data` is null. |
| `CreateProcessRoute.Reply` | web/app/api/process/create/route.ts:59-63 | The response has `ok: true` exactly for backend data. Then the status is 200 and the result is `FirstOrSelf(data)`. A backend error gives 500 with the backend's message. An exception gives 500 from `catch`. |
| `CreateProcessRoute.Admit` | web/app/api/process/create/route.ts:21-57 | When the checks pass, both call arguments are non-empty and not padded, and the process type is not flagged. The process type was not nullish and the actor hash was not falsy. A refusal is a 400 carrying one of the three error tags, or a 500. |
| `CreateProcessRoute.Post` | web/app/api/process/create/route.ts:18-70 | Every response has status 200, 400 or 500. `ok` holds exactly for 200, and exactly when a result is present. `ok` implies the checks passed. A 400 carries one of the three error tags. |
| `CreateProcessRouteProperties.CoercionsDiffer` | web/app/api/process/create/route.ts:21-45 | The nullish fallback `?? ""` and the logical-or fallback give different text exactly for `false`, `0` and `NaN`. |
| `CreateProcessRouteProperties.TipoTextBlank` | web/app/api/process/create/route.ts:21-23 | The trimmed `tipo_proceso` is empty exactly when the field is undefined or null, or its text is only white space. |
| `CreateProcessRouteProperties.ActorTextBlank` | web/app/api/process/create/route.ts:45-47 | The trimmed `actor_hash` is empty exactly when the field is falsy, or its text is only white space. |
| `CreateProcessRouteProperties.AdmitCases` | web/app/api/process/create/route.ts:21-57 | The outcome of the handler's checks depends only on the two fields: a throwing `String()` on `tipo_proceso` gives the caught 500, then a blank type gives "tipo_proceso es requerido", then a flagged type gives "PII_DETECTED", then a throwing or blank `actor_hash` gives the caught 500 or "actor_hash requerido", and otherwise both trimmed texts are passed on. |
| `CreateProcessRouteProperties.TipoRequiredExactly` | web/app/api/process/create/route.ts:21-28 | The response is 400 "tipo_proceso es requerido" exactly when `tipo_proceso` is blank, whatever `actor_hash` and the backend are. |
| `CreateProcessRouteProperties.PiiDetectedExactly` | web/app/api/process/create/route.ts:21-41 | The response is 400 "PII_DETECTED" exactly when `tipo_proceso` is not blank and its text is flagged, trimmed or not. This holds whatever `actor_hash` is. |
| `CreateProcessRouteProperties.ActorRequiredExactly` | web/app/api/process/create/route.ts:43-52 | The response is 400 "actor_hash requerido" exactly when `tipo_proceso` passes both of its checks and `actor_hash` is blank. |
| `CreateProcessRouteProperties.AdmittedExactly` | web/app/api/process/create/route.ts:21-57 | The backend is called exactly when `tipo_proceso` and `actor_hash` are both accepted. Its arguments are then the two trimmed texts. |
| `CreateProcessRouteProperties.CoercionFailureCaught` | web/app/api/process/create/route.ts:19-69 | If `String()` throws on `tipo_proceso`, the response is the `catch` response. If it throws on `actor_hash`, that happens only after `tipo_proceso` has passed. |
| `CreateProcessRouteProperties.RefusedIgnoresBackend` | web/app/api/process/create/route.ts:23-57 | A refused or undecodable request gets the same response whatever the backend would do. |
| `CreateProcessRouteProperties.AdmittedRepliesFromBackend` | web/app/api/process/create/route.ts:54-63 | An admitted request gets one of three responses. Backend data gives 200 with the first row or the data itself. A backend error gives 500 with the backend's message. An exception gives the `catch` response. |
| `CreateProcessRouteProperties.MalformedBodyCaught` | web/app/api/process/create/route.ts:64-69 | A body that `req.json()` cannot decode gets a 500 from `catch`. |
| `CreateProcessRouteProperties.StringsAdmitted` | web/app/api/process/create/route.ts:21-57 | Two strings with non-empty trims, where the trimmed process type is not flagged, reach the backend as their trims. |
| `CreateProcessRouteProperties.ActorHashNotScanned` | web/app/api/process/create/route.ts:45-57 | An e-mail address as `actor_hash` is sent to the backend unchanged, because `actor_hash` is never scanned. |
| `CreateProcessRouteProperties.AddressAsTipoRefused` | web/app/api/process/create/route.ts:32-41 | The same address as `tipo_proceso` gets 400 "PII_DETECTED". |
| `CreateProcessRouteProperties.FalseAndZeroAreTipos` | web/app/api/process/create/route.ts:21 | `false` and `0` as `tipo_proceso` pass as the texts "false" and "0". |
| `CreateProcessRouteProperties.FalseAndZeroAreNoActor` | web/app/api/process/create/route.ts:45-52 | `false` and `0` as `actor_hash` get 400 "actor_hash requerido". |
| `CreateProcessRouteProperties.PaddedValuesTrimmed` | web/app/api/process/create/route.ts:21-57 | "  Reporte\n" and "\tanon " reach the backend as "Reporte" and "anon". |
| `CreateProcessRouteProperties.HomePageRequestRefused` | web/app/page.tsx:14-18 | The home page sends only `tipo_proceso`. Any such request whose type is not blank and not flagged gets 400 "actor_hash requerido". |

## Left out

- Parsing the request body (`req.json()`) is not modelled. The body arrives as two decoded fields, or as the exception decoding raised.
- `String()` of an array or object is not computed. A `Compound` field carries its text, or the exception `String()` throws, as given.
- A number is carried as the text `String()` gives it. Number formatting is not modelled, and nothing ties a `Num` text to a real number: the `Num` cases of `IsFalsy`, `TipoBlank` and `ActorBlank` are right only for texts `String()` can produce (zero and negative zero both read "0", NaN reads "NaN", and no number reads "" or white space).
- The backend procedure `create_process_with_event` and the Supabase client are not modelled. The procedure is the parameter `rpc`, and only its outcome (error, data or exception) is used.
- `data` that is `undefined` is treated as `null`. Indexing a string takes one Dafny `char`, not one UTF-16 code unit.
- `NextResponse` construction and JSON serialisation of the response are not modelled. The response is a plain record of status and keys.
- Strings are sequences of Unicode scalar values, not UTF-16 code units. No class in either pattern involves characters outside the Basic Multilingual Plane, so the verdicts agree.
- Regular expressions are modelled by the existence of a matching span. Backtracking order and which span is reported are not modelled. `test()` uses neither.
- The home page (`web/app/page.tsx`) is context only. Its React state and rendering are not modelled.
- The hash chain, the recursive payload PII scan of the event route, and the evidence upload policy are not modelled. They live in other routes or in the backend.
