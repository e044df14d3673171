# MoodleMCP server core, modelled in Dafny

The MoodleMCP server exposes Moodle web-service functions as MCP tools. An agent
calls a tool with JSON arguments. The server checks the arguments against the tool's
input schema and, if they are wrong, returns a structured validation payload. Otherwise
it calls Moodle's REST endpoint with the tenant's URL and token, and checks the reply.
A tenant is resolved from an MCP key through a keys panel. Sessions are kept in an
in-memory store with a 30-minute idle lease. An offline exporter turns the tools' role
lists into six tiered Moodle services written out as PHP.

The project models:

- **`MoodleClient`** (`moodle_client.dfy`): the REST client `callMoodleAPI`, in both
  copies (`src/moodle-client.ts` puts body excerpts into error messages; `src/moodleClient.ts`
  logs them instead). It covers:
  - endpoint normalisation;
  - `flattenParams` as a loop over a map, proved equal to a fold of its writes;
  - the merge with the three base parameters;
  - the timer the client owns (a `TimerQueue` class standing for `setTimeout`/`clearTimeout`);
  - the classification of a reply into a value or an error.
- **`Schema`** (`schema.dfy`): the JSON Schema keywords the tool schemas use, in the
  style of ajv with `allErrors: true`. It has a validity predicate and an error reporter,
  proved to agree.
- **`FormatError`** (`format_error.dfy`): `formatValidationError`, the loop that builds
  the agent-facing validation payload.
- **`ValidatorCache`** (`validator_cache.dfy`): `validateToolArgs` with its per-name
  memo of compiled validators.
- **`ToolRegistry`** (`tool_registry.dfy`): `ALL_TOOLS` and `createToolMap`.
- **`Auth`** (`auth.dfy`): `fetchTenantFromPanel` after its `fetch`.
- **`Sessions`** (`sessions.dfy`): the session store as a class over a map, with the
  stale-session sweep.
- **`UserTools`** (`user_tools.dfy`): the `core_user` schemas, tool specs and the two
  helpers `createUsers` and `deleteUsers`.
- **`ExportFunctions`** (`export_functions.dfy`): tier assignment, `groupByService`, the
  de-duplication loop and `generatePhp`.

The remaining modules hold shared definitions:

- `Prelude`: `Option` and `Result`;
- `Text`: string helpers, decimal rendering and `Uniq`;
- `Js`: JSON values with JavaScript truthiness and `String(v)`;
- `Tools`: roles and tool specs.

The network, `JSON.parse`, the email format check and the clock are parameters:
`server`, `parse`, `isEmail` and `now`.

## Model

| member | source | states |
|---|---|---|
| MoodleClient.Endpoint | src/moodle-client.ts:20 | the URL is the configured base with all trailing slashes removed, followed by `/webservice/rest/server.php`; nothing else of the base changes |
| MoodleClient.EndpointIgnoresTrailingSlash | src/moodleClient.ts:16 | adding a trailing slash to the configured URL never changes the endpoint |
| MoodleClient.FlattenParams | src/moodle-client.ts:121-149 | the loop's map equals the fold, in order, of every write `flattenParams` makes: nullish values skipped, arrays as `key[i]` or `key[i][k]`, objects as `key[k]`, scalars as `key`, later writes overwriting earlier ones |
| MoodleClient.WriteFields | src/moodle-client.ts:139-142 | the inner loop over an object's entries adds exactly the writes of its non-nullish fields |
| MoodleClient.WriteArray | src/moodle-client.ts:127-137 | the `forEach` over an array adds exactly the indexed writes of its elements |
| MoodleClient.WriteElement | src/moodle-client.ts:129-136 | the callback for element `i` adds exactly that element's writes: `key[i][k]` for each non-nullish field of an object element, `key[i]` for anything else, null included |
| MoodleClient.AssignLastWriteWins | src/moodle-client.ts:132 | after a sequence of writes, a key holds the value of its last write, and a key never written keeps its earlier value |
| MoodleClient.LastWriteSomeIff | src/moodle-client.ts:144 | a key has a last write exactly when some write targets it |
| MoodleClient.ArrayWritesOfPrimitives | src/moodle-client.ts:135 | an array of non-objects gives one write `key[i] = String(item)` per element, in index order |
| MoodleClient.FlattenArrayOfPrimitives | src/moodle-client.ts:127-137 | flattening `{key: [x0..xn]}` of non-objects yields exactly the keys `key[0]`..`key[n]`, each holding `String(xi)` |
| MoodleClient.FlattenArrayRoundTrip | src/moodle-client.ts:127-137 | reading `key[0]`..`key[n-1]` back from the flattened map recovers the stringified array |
| MoodleClient.NestedListStringified | src/moodle-client.ts:127-136 | as written, a user whose `customfields` is a list of objects is sent as `users[0][username]` and `users[0][customfields]=[object Object]`, and nothing else |
| MoodleClient.DeepFlattenAgrees | src/moodle-client.ts:121-149 | on parameters whose nesting the written code handles, the corrected flattening sends exactly the same record |
| MoodleClient.NestedListKept | src/moodle-client.ts:127-136 | the corrected flattening sends the same user as `users[0][username]`, `users[0][customfields][0][type]` and `users[0][customfields][0][value]`, each with its value |
| MoodleClient.IdsRoundTrip | src/moodle-client.ts:128-135 | `{ids: [1, 2]}` flattens to `ids[0]=1`, `ids[1]=2`, and a `null` element is sent as the string `null` |
| MoodleClient.FlattenObjectKeys | src/moodle-client.ts:138-142 | an object parameter yields exactly the keys `key[k]` of its non-nullish fields |
| MoodleClient.FlattenObjectValues | src/moodle-client.ts:138-142 | with distinct field names, each non-nullish field `k: v` of an object parameter is sent as `key[k]` holding `String(v)` |
| MoodleClient.FlattenObjectElementField | src/moodle-client.ts:128-133 | every non-nullish field `f` of an object element `i` is written as `key[i][f]` |
| MoodleClient.FlattenLastEntry | src/moodle-client.ts:124-125 | a nullish parameter adds nothing, and a scalar parameter is written under its own name as `String(v)` |
| MoodleClient.FlattenKeysUnderParamNames | src/moodle-client.ts:124-145 | every flattened key starts with the name of some parameter |
| MoodleClient.RequestParams | src/moodle-client.ts:24-28 | the sent parameters are the three base parameters plus every flattened key, a flattened key overriding a base one of the same name |
| MoodleClient.OwnTimerDelay | src/moodle-client.ts:33-39 | the client arms its own timer exactly when no signal is passed and the timeout (default 30000 ms) is positive |
| MoodleClient.Excerpt | src/moodle-client.ts:66 | the excerpt is the first min(800, length) characters of the body |
| MoodleClient.HttpFailure | src/moodle-client.ts:65-70 | a non-ok reply gives an HTTP error with the status, the bounded excerpt and the status line; with the excerpt in the message or only in a log line, depending on the copy |
| MoodleClient.InvalidJsonFailure | src/moodleClient.ts:73-77 | an unparsable JSON body gives the invalid-JSON error naming the function and the content type, with the bounded excerpt |
| MoodleClient.LooksLikeJson | src/moodle-client.ts:116-119 | a body looks like JSON exactly when its trimmed text starts and ends with a matching pair of braces or of brackets |
| MoodleClient.LooksLikeJsonIgnoresWhitespace | src/moodle-client.ts:117 | whitespace added around a body never changes whether it looks like JSON |
| MoodleClient.ExceptionDetailsShape | src/moodle-client.ts:92-103 | for any reply data, the details are `exception=E`, then ` errorcode=C` and ` debuginfo=D` only when those fields are truthy with non-empty strings |
| MoodleClient.ExceptionMessageShape | src/moodle-client.ts:91-107 | for any reply data, the message names the function, then the message field when truthy or else the fixed default, then the details in parentheses |
| MoodleClient.ExceptionMessageAllFields | src/moodle-client.ts:91-107 | with exception, errorcode, message and debuginfo present, the message lists `exception=`, `errorcode=`, `debuginfo=` in that order |
| MoodleClient.ExceptionMessageWithErrorCode | src/moodle-client.ts:97-103 | without debuginfo, the details are the exception and the error code, separated by one space |
| MoodleClient.ExceptionMessageDefaults | src/moodle-client.ts:94 | without a message the fixed default text is used, and the details hold only the exception |
| MoodleClient.Classify | src/moodle-client.ts:61-110 | a non-ok status fails exactly with the HTTP error built from that reply; an unparsed body is returned as text; a body that should parse but does not fails exactly with the invalid-JSON error for that reply; parsed JSON with a truthy `exception` fails with the exception message built from that data; any other parsed value is returned unchanged; each failure kind occurs only in its case |
| MoodleClient.EmptyJsonBodyIsNull | src/moodle-client.ts:76 | an empty body with a JSON content type yields `null` |
| MoodleClient.VariantsAgreeOnOutcome | src/moodleClient.ts:57-105 | the two copies of the client succeed on the same replies with the same values; only their error messages differ |
| MoodleClient.InvalidParameterScenario | src/moodle-client.ts:91-107 | the `invalid_parameter_exception` reply fails with the message naming both the exception and the error code |
| MoodleClient.Outcome | src/moodle-client.ts:41-59 | a rejected `fetch` (abort, network) fails exactly as a transport failure, and a reply gives exactly its classification |
| MoodleClient.TimerQueue.SetTimeout | src/moodle-client.ts:36-39 | a new timer id is issued and becomes pending with its delay |
| MoodleClient.TimerQueue.ClearTimeout | src/moodle-client.ts:111-113 | the timer is removed and no other pending timer changes |
| MoodleClient.CallMoodleApi | src/moodle-client.ts:9-114 | sends the request `BuildRequest` describes, settles to `Outcome` of the server's answer, arms a timer exactly when `OwnTimerDelay` says so, and leaves the pending timers as it found them on every path |
| Schema.ErrorsEmptyIffValid | src/mcp/validate/ajv.ts:5-8 | the error reporter returns no errors exactly when the value is valid |
| Schema.ValidateSchema | src/mcp/validate/ajv.ts:23-24 | `ok` holds exactly when the value is valid; the error list is absent exactly when `ok`, and non-empty otherwise |
| FormatError.PathOf | src/mcp/validate/formatAjvError.ts:23 | the path is never empty: the instance path, or `/` at the root |
| FormatError.AllowedText | src/mcp/validate/formatAjvError.ts:37 | the expectation is `no extra properties` exactly when no properties are allowed |
| FormatError.IssueClassification | src/mcp/validate/formatAjvError.ts:18-58 | `required`, `additionalProperties` and `type` errors become `missing_required`, `unexpected_property` and `wrong_type`; any other keyword keeps its name and has no expectation |
| FormatError.NamesForExact | src/mcp/validate/formatAjvError.ts:19-33 | a name is collected exactly when some error of that keyword carries it as a truthy parameter |
| FormatError.ExampleOf | src/mcp/validate/formatAjvError.ts:73-74 | an example is attached only when it is truthy |
| FormatError.CollectErrors | src/mcp/validate/formatAjvError.ts:18-58 | the loop over the errors yields one field error per validator error, in order, and collects the missing and unexpected names in the order the errors report them |
| FormatError.FormatValidationError | src/mcp/validate/formatAjvError.ts:4-77 | the payload has the fixed code and message, the tool's name, its property names as `allowedProperties`, one field error per validator error in order, and the de-duplicated missing and unexpected names; the minimal example is present iff it is truthy |
| FormatError.MissingRequiredExact | src/mcp/validate/formatAjvError.ts:60-68 | a name is listed in `missingRequired` exactly when some `required` error reported it |
| FormatError.TopLevelRequiredError | src/mcp/validate/ajv.ts:5-8 | with all errors collected, each required top-level property that is absent is reported as a `required` error |
| FormatError.MissingPropertyReachesPayload | src/mcp/validate/formatAjvError.ts:19-21 | validating and formatting lists every absent non-empty required property in `missingRequired` |
| ValidatorCache.ValidatorCache.ValidateToolArgs | src/mcp/validate/ajv.ts:13-25 | compiles only on a miss, keyed by tool name alone, leaves other entries unchanged, and returns the cached validator's verdict and errors |
| ToolRegistry.CreateToolMap | src/mcp/tools/index.ts:16-23 | succeeds exactly when the names are distinct, mapping each name to its tool; otherwise fails with `Duplicate tool name: N` for the first repeated name |
| ToolRegistry.RepeatBreaksDistinct | src/mcp/tools/index.ts:19 | a name seen before means the list is not duplicate-free |
| ToolRegistry.AllTools | src/mcp/tools/index.ts:8-14 | the webservice, calendar, course, enrol and user catalogues, in that order |
| ToolRegistry.KnownToolsDistinct | src/mcp/tools/index.ts:11-13 | the course, enrol and user catalogues have four distinct names |
| ToolRegistry.AllToolsDistinctIff | src/mcp/tools/index.ts:8-23 | `createToolMap(ALL_TOOLS)` succeeds exactly when the two other catalogues have distinct names and none of the four known names |
| ToolRegistry.DistinctAppendIff | src/mcp/tools/index.ts:8-14 | a concatenation has distinct names iff both parts do and their name sets are disjoint |
| Auth.NormaliseRoles | src/auth.ts:22-27 | an array is kept, a string becomes a one-element list, anything else counts as missing |
| Auth.FindInvalid | src/auth.ts:40-42 | finds the first disallowed role; none exactly when every role is an allowed string |
| Auth.FetchTenant | src/auth.ts:5-70 | success only on status 200; 404 and 403 give their fixed app errors; any other status gives a 502 app error with the body or else the status text; an app error iff the status is not 200 |
| Auth.TenantFromBody | src/auth.ts:15-53 | a body is accepted exactly when url and token are truthy, the roles normalise to a non-empty list, and the first disallowed role, if any, is falsy |
| Auth.TenantFromBodySuccess | src/auth.ts:29-53 | a tenant carries the received truthy url and token and the normalised, non-empty role list |
| Auth.TenantFromBodyFailure | src/auth.ts:29-47 | missing fields and an empty role list give their plain error messages; a truthy disallowed role is rejected with `Invalid moodleRoles from MCP Keys endpoint: ` and that role; a well-formed body with only allowed roles is accepted by both the written and the corrected check |
| Auth.FalsyInvalidRoleAccepted | src/auth.ts:40-47 | as written, `["", "hacker"]` is accepted, with a disallowed role in the tenant |
| Auth.TenantFromBodyStrict | src/auth.ts:29-53 | a body is accepted exactly when url and token are truthy and the roles normalise to a non-empty list of allowed roles; the tenant then carries exactly those fields; otherwise the written error messages, with the first disallowed role named whatever its truthiness |
| Auth.StrictAgreesWithoutFalsyRoles | src/auth.ts:40-47 | the corrected check differs from the written one only on falsy roles |
| Auth.FetchTenantStrict | src/auth.ts:15-70 | the status mapping with the corrected role check: every accepted role is allowed |
| Sessions.SweepKeepsLease | src/sessions.ts:34-46 | a context used at `t` survives every sweep up to `t` + 30 minutes unchanged, and is removed after |
| Sessions.SweepIdempotentAndMonotone | src/sessions.ts:34-46 | sweeping twice removes nothing more, and a later sweep removes at least as much |
| Sessions.SessionStore.GetSession | src/sessions.ts:17-23 | a hit returns the context with its lease renewed and stores it; a miss changes nothing |
| Sessions.SessionStore.SetSession | src/sessions.ts:25-28 | stores the context stamped with the current time, replacing any earlier one |
| Sessions.SessionStore.DeleteSession | src/sessions.ts:30-32 | removes the id; other ids are unchanged |
| Sessions.SessionStore.CleanupStaleSessions | src/sessions.ts:34-46 | removes exactly the contexts idle longer than 30 minutes, attempting to close each |
| Sessions.LeaseScenario | src/sessions.ts:5-46 | a session set at `t` is still found after a sweep at any time up to `t` + 30 minutes |
| UserTools.CreatedUserValid | src/mcp/tools/core/user.ts:57-65 | a created-user reply is valid exactly when it is an object with a numeric `id` and a string `username` |
| UserTools.CreateUsersResponseValid | src/mcp/tools/core/user.ts:67-70 | the create reply is valid exactly when it is an array of created users |
| UserTools.DeleteUsersResponseValid | src/mcp/tools/core/user.ts:72-75 | the delete reply is valid exactly when it is a boolean or an object |
| UserTools.DeleteUsersInputValid | src/mcp/tools/core/user.ts:242 | the delete arguments are valid exactly when there is at least one id and every id is a number |
| UserTools.UserRequiredFields | src/mcp/tools/core/user.ts:137 | a valid user has a non-whitespace username, non-empty first and last names and an email the format check accepts |
| UserTools.UserOptionalFields | src/mcp/tools/core/user.ts:77-144 | a valid user's `maildisplay` is 0 or 1, `country` has two characters and `lang` at least two, when present |
| UserTools.KeyValueValid | src/mcp/tools/core/user.ts:113-134 | a `customfields` or `preferences` entry is valid exactly when it is an object of the string fields `type` and `value` and nothing else |
| UserTools.UserPropertyIff | src/mcp/tools/core/user.ts:85-134 | each of the 29 user fields is valid exactly when it meets its own constraint: pattern, lengths, email format, `maildisplay` 0 or 1, numbers, key/value lists, or a plain string |
| UserTools.UserValidAcceptable | src/mcp/tools/core/user.ts:77-144 | the user schema accepts exactly the objects that have the four required fields, no field outside the 29, and every present field meeting its constraint |
| UserTools.CreateUsersInputAccepted | src/mcp/tools/core/user.ts:77-144 | create arguments pass validation exactly when every user is acceptable |
| UserTools.MissingUsernameRefused | src/mcp/tools/core/user.ts:86 | a user with no username or an empty one is refused before any call |
| UserTools.JdoeValid | src/mcp/tools/core/user.ts:156-161 | the example user `jdoe` is valid against the user schema |
| UserTools.ExamplesValid | src/mcp/tools/core/user.ts:146-185 | both tools' minimal examples pass their own input schemas |
| UserTools.PostOptions | src/mcp/tools/core/user.ts:214 | the helpers always POST and forward the caller's signal and timeout |
| UserTools.HelperRequestShape | src/mcp/tools/core/user.ts:209-215 | each helper's request is a POST naming its Moodle function, with the tenant's token and JSON format |
| UserTools.FlattenKeysOfArray | src/mcp/tools/core/user.ts:213 | flattening the helpers' single array parameter never overrides a base parameter |
| UserTools.CreateUsers | src/mcp/tools/core/user.ts:190-229 | invalid input fails with a validation payload before any request or timer; with valid input, a tenant URL that is not a string fails with the `TypeError` of `moodleUrl.replace`, again before any request or timer; otherwise exactly one request is sent; an API failure propagates, an invalid reply fails with the `:response` payload, and every success is a valid reply |
| UserTools.DeleteUsers | src/mcp/tools/core/user.ts:235-273 | the same for deletion: refused exactly when the ids are empty or not all numbers, the same `TypeError` for a non-string tenant URL, and success only with a boolean or object reply |
| ExportFunctions.LowestTier | scripts/export-functions.ts:95-122 | the tier of the least privileged role listed; none exactly when no known role is listed |
| ExportFunctions.TiersClosedUpward | scripts/export-functions.ts:95-122 | every function of a tier is also in every more privileged tier |
| ExportFunctions.AdminTierHoldsEveryRecognised | scripts/export-functions.ts:95-122 | the admin service holds exactly the functions listing at least one known role |
| ExportFunctions.UnknownRolesInNoTier | scripts/export-functions.ts:95-122 | a function with no known role is in no service |
| ExportFunctions.StudentRolesReachFiveServices | scripts/export-functions.ts:102-107 | roles down to student reach the first five services; admin and manager reach the first two |
| ExportFunctions.LexLessTransitive | scripts/export-functions.ts:128 | the string order used by `sort()` is transitive |
| ExportFunctions.LexLessTotal | scripts/export-functions.ts:128 | any two different strings are ordered one way or the other |
| ExportFunctions.SortStrings | scripts/export-functions.ts:128 | sorting a duplicate-free list gives a strictly ascending permutation of it |
| ExportFunctions.SetAdd | scripts/export-functions.ts:96 | adding to a `Set` keeps it duplicate-free and adds exactly the element |
| ExportFunctions.CollectTiers | scripts/export-functions.ts:90-123 | the first loop gives each of the six sets exactly the functions of its tier, without repetition |
| ExportFunctions.SortedRecord | scripts/export-functions.ts:125-130 | the record has exactly the service names as keys, each mapped to its set sorted strictly ascending |
| ExportFunctions.GroupByService | scripts/export-functions.ts:80-131 | the six services, each listing, strictly ascending, exactly the functions of its tier |
| ExportFunctions.LastSpec | scripts/export-functions.ts:196-199 | the spec a name-keyed map ends with is the last one with that name |
| ExportFunctions.DedupByFunction | scripts/export-functions.ts:196-199 | one spec per name, in order of first occurrence, each the last spec given for that name |
| ExportFunctions.DedupTierNames | scripts/export-functions.ts:196-203 | after de-duplication, a tier lists a name exactly when that name's last spec reaches the tier |
| ExportFunctions.PushServiceBlock | scripts/export-functions.ts:164-174 | one pass appends exactly the block of one service: its opening lines, one quoted line per function in order, and the closing lines |
| ExportFunctions.PushBlocks | scripts/export-functions.ts:162-175 | the loop over the service order appends the blocks of every service, in that order |
| ExportFunctions.GeneratePhp | scripts/export-functions.ts:133-181 | the output is the header, the six service blocks in service order and the footer, joined with newlines |
| ExportFunctions.ServiceBlockRoundTrip | scripts/export-functions.ts:164-174 | each service block can be read back to its service name and its exact function list |
| ExportFunctions.BlockAt | scripts/export-functions.ts:153-175 | service `k`'s block comes right after the blocks of the services before it in the fixed order |
| ExportFunctions.ExportServices | scripts/export-functions.ts:195-210 | the whole run: each service lists, sorted, exactly the names whose last spec reaches its tier, rendered as PHP |
| Text.Uniq | src/mcp/validate/formatAjvError.ts:60 | `Array.from(new Set(arr))`: no duplicates, the same elements, in order of first occurrence |
| Text.ParseNatToString | src/moodle-client.ts:132 | the decimal text of an index reads back to the index |

## Left out

- URL encoding of the query string or form body is not modelled: the request carries the parameter map. Key order in `URLSearchParams` is not modelled either.
- Strings are sequences of Unicode scalar values, so lengths and `slice(0, 800)` count code points, not UTF-16 code units. `sort()` compares code points, which orders astral characters differently from UTF-16 code units.
- Numbers are integers. Non-integral numbers and the rendering of `String(x)` for fractions and exponents are not modelled, so the schema types `number` and `integer` accept the same values.
- The order in which the error reporter lists errors follows the schema's keyword order. It is not guaranteed to match ajv's order, and nothing in the model depends on it.
- `JSON.stringify` of payloads in the helpers' error messages is not modelled; the payload itself is returned in the error.
- The abort delivered by a fired timer, and the time at which it fires, are not modelled. A rejection of `fetch` or of reading the body is a parameter of the server's answer.
- A failing `res.text()` in the keys lookup is represented by an empty body text.
- The keys lookup keeps the tenant's url and token as JSON values. The helpers send the token as `String(v)`. A url that is not a string makes the client throw a `TypeError`; the model gives that error only its message, not the JavaScript error class.
- The webservice and calendar catalogues are parameters of `ToolRegistry.AllTools`: `src/mcp/tools/core/webservice.ts` and `src/mcp/tools/core/calendar.ts` are not part of this model. The same holds for `src/mcp/types.ts` and `src/config.ts`.
- Session contexts are values, so aliasing between a returned context and the stored one is not modelled. The transport `close` is recorded as the set of ids closed, and a close that throws is ignored. The cleanup interval timer is not modelled.
- The exporter's file walking, its regex scraping of tool files, its console output and its file writing (with the licence header) are not modelled. The run starts from the extracted specs.
- `src/mcp/tools/core/user.ts` imports `validateSchema` from `ajv.ts`, which exports only `validateToolArgs`. The model gives `validateSchema` the meaning its callers use: validate a value against a schema and return the verdict with ajv's error list.
- The helpers' requests keep the written two-level flattening. `MoodleClient.DeepFlatten` stands beside it as the correction of the nested-list finding below.
- ValidatorCache.ValidatorCache.ValidateToolArgs: represents a compiled validator by the schema it was compiled from. Ajv's compilation errors on a malformed schema are not modelled.

## Findings

| source | as written | input that shows it | evidently intended | confidence | as-written member | corrected member |
|---|---|---|---|---|---|---|
| src/auth.ts:40-47 | the role check throws only when the first disallowed role it finds is truthy | `moodleRoles: ["", "hacker"]`: the empty string is found first and is falsy, so the tenant is accepted with the role `hacker` | every disallowed role is rejected, whatever its truthiness | not executed | Auth.FalsyInvalidRoleAccepted | Auth.TenantFromBodyStrict |
| src/moodle-client.ts:127-136 | flattening opens array elements and their fields but stops there, so a list inside an element is sent as `String(list)` | `users: [{username: "jdoe", customfields: [{type: "dept", value: "IT"}]}]` is sent as `users[0][customfields]=[object Object]` | lists and objects are opened at every depth, as in `users[0][customfields][0][type]=dept`, which the user schema's `customfields` and `preferences` lists need | not executed | MoodleClient.NestedListStringified | MoodleClient.NestedListKept |
