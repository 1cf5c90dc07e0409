# Verified models of the Admina governance proxy

Each module models one component of the proxy and proves what the component
promises. Code that computes a value is a function; code that changes fields or
runs loops is a class or a method proved against a function, and the promises
are proved about that function.

| files | component |
|---|---|
| `Texts.dfy`, `PyValues.dfy`, `Sequences.dfy` | texts, bytes, decimal numbers and the Python values the other modules work on; Python's stable sort |
| `JcsNumber.dfy`, `JcsString.dfy`, `Jcs.dfy`, `JcsWriter.dfy`, `JsonReader.dfy`, `JcsForm.dfy`, `JcsDomain.dfy` | the RFC 8785 printer of `admina/core/jcs.py`, with a reader of JSON texts that gives its output a meaning; which of the readable texts is printed, and which values are refused, with what |
| `RequestTexts.dfy`, `ValuePaths.dfy`, `Redaction.dfy`, `RedactionTheorems.dfy`, `GovernancePipeline.dfy`, `GovernanceTheorems.dfy`, `GovernanceOutcomes.dfy` | the governance pipeline and its depth-bounded traversals, `admina/domains/governance.py`; what they find at every position of a value, and the outcome of a request from the raw answers of engines and guards |
| `ForensicProbe.dfy` | the forensic write probe: every interleaving of callers, threads, clock and store swaps |
| `BodyLimit.dfy` | the body-limit middleware around an arbitrary application |
| `RateLimit.dfy`, `McpExchange.dfy`, `McpOutcomes.dfy` | the `/mcp` exchange and its rate limits, `admina/proxy/main.py` |
| `ConfigSchema.dfy`, `ConfigValues.dfy` | the admina.yaml schema checker and the typing relation it decides |
| `Passwords.dfy` | password generation, its shuffle, and password validation |
| `SpanMerge.dfy` | overlap resolution and text replacement of the Presidio engine |
| `SessionToken.dfy` | dashboard session tokens |
| `Histograms.dfy`, `RequestMetrics.dfy` | Prometheus histograms and request counters |
| `Router.dfy` | the multi-upstream router and its tool index |

Conventions:

- A text is a list of Unicode code points; a Python `str` may hold surrogates.
- A double is its sign, the digits of its `repr` and an exponent. What
  `float(n)` makes of an integer is a parameter (`Floats`), since a double does
  not hold every integer: 2^60 prints as 1152921504606847000. Numbers are
  equal when their decimal values are.
- The firewall, the PII engine, the guards, the egress policy, the forensic
  store, the upstream, the HMAC and all random outcomes are parameters.
- Exceptions are results (`Raise`, `Raised`, `OverflowError`, a false `ok`).

Results where the code does not do what its documentation or design suggests:

- The body-limit middleware counts only `http.response.start` as the start of
  a response. An application that sends another kind of message first, then
  reads past the limit, then sends or fails, gets its message and a 413 to the
  client. `BodyLimit.MixedExactly` gives the exact condition,
  `BodyLimit.MixedExample` an input, and `BodyLimit.NeverMixed` shows that an
  application whose first message starts its response never sees it.
- `find_problems` raises OverflowError for an integer that no double can hold
  under a positive-number field. `ConfigSchema.RaisesIffOverflows` says
  exactly when, `ConfigSchema.OverflowExample` gives such an integer.
- A rate-limit key whose EXPIRE fails after its first INCR never expires:
  `RateLimit.FailedExpireSticks` shows that every such failure leads there,
  `RateLimit.StuckForever` that no continuation leads out,
  `RateLimit.CanLapseExactly` when a live key can still lapse, and
  `RateLimit.StuckExample` is an input.
- With a limit of 0 or less, which an IP multiplier of 0 or less gives, a
  request still passes when it creates the key and its EXPIRE fails:
  `RateLimit.NoLimitPassesExactly`, with `RateLimit.ZeroLimitExample`.
- A request can be counted as BLOCK without being answered 403: a refused
  request; a block whose forensic record is lost in closed mode, or whose store
  raises; a sandboxed call with invalid arguments; and a response guard
  that fails in closed mode when its own record is lost or its store raises.
  `McpExchange.BlockRecordedWithout403` is the exact condition,
  `McpExchange.BlockWithout403Examples` gives two inputs.
- When the firewall finds an injection, the depth check is still recorded
  beside it: `GovernanceTheorems.DepthBesideInjection`;
  `GovernanceTheorems.NoLaterCheck` lists the checks of every run.
- `resolve_by_tool` finds no route for a tool whose route is named "":
  `Router.UnnamedRouteExample`; `Router.ToolResolves` is the exact condition.

## Model

| member | source | states |
|---|---|---|
| `JcsNumber.NumberTextReads` | admina/core/jcs.py:125-150 | for every digit sequence and exponent the number text is a legal JSON number that denotes exactly digits * 10^exponent |
| `JcsNumber.NumberTextOfValue` | admina/core/jcs.py:134-138 | the number text depends on the decimal value only: trailing zeros may move between digits and exponent |
| `JcsNumber.NumberTextInjective` | admina/core/jcs.py:125-150 | two doubles have the same text exactly when they have the same decimal value |
| `JcsNumber.LayoutReads` | admina/core/jcs.py:139-149 | each of the four ECMAScript layouts, followed by anything that ends a number, reads back as the decimal it lays out |
| `JcsNumber.ExponentForm` | admina/core/jcs.py:141-149 | an exponent is written exactly for magnitudes outside [10^-6, 10^21) |
| `JcsForm.NumberForm` | admina/core/jcs.py:125-150 | zero is "0"; any other number has a minus sign exactly when it is negative, and is either digits without a leading zero and a fraction that does not end in zero, or one digit that is not zero, such a fraction, `e`, a sign and digits without a leading zero |
| `JcsString.StringTextIs` | admina/core/jcs.py:102-111 | the string text is the escaped text for every string without surrogates, on the fast path too, and an error for every other string |
| `JcsString.FastPathAgrees` | admina/core/jcs.py:103-109 | the ASCII encoder agrees with the general one on ASCII text without U+007F |
| `JcsString.ReadEscaped` | admina/core/jcs.py:102-111 | a JSON reader gives back every escaped string |
| `JcsForm.ShortestString` | admina/core/jcs.py:102-111 | of all texts that a JSON reader takes for a string the shortest is written, and of those as short the one with lower-case `\u` escapes |
| `JcsForm.ShortestChar` | admina/core/jcs.py:102-111 | no text that a reader takes for a character is shorter than what is written for it |
| `JcsForm.StringForm` | admina/core/jcs.py:102-111 | the same of the result of `_string`, on the fast path too |
| `JcsString.ReadUtf8Of` | admina/core/jcs.py:45-49 | strict UTF-8 decoding gives back the encoded text |
| `JcsString.KeyOrderIsUnitOrder` | admina/core/jcs.py:89-91 | comparing big-endian UTF-16 bytes is comparing code units, and names with equal keys are equal |
| `JcsString.ReadUnitsOf` | admina/core/jcs.py:89-91 | joining surrogate pairs gives back the name from its code units |
| `JcsString.BigEndianOrder` | admina/core/jcs.py:89-91 | the order of big-endian bytes is the order of the code units |
| `Jcs.SortedIncreasing` | admina/core/jcs.py:78 | sorting members with distinct names gives strictly increasing names |
| `Jcs.MembersIncreaseByUnits` | admina/core/jcs.py:78-84 | members are printed strictly increasing by UTF-16 code units |
| `JcsDomain.NamesInOrder` | admina/core/jcs.py:78-91 | of two printed names, the first has the smaller UTF-16 code unit where they first differ, or ends there |
| `Jcs.ReadTokens` | admina/core/jcs.py:52-86 | parsing the tokens of a value gives the value, whatever follows them |
| `Jcs.LexPrinted` | admina/core/jcs.py:52-86 | splitting the printed text into tokens gives back the tokens |
| `Jcs.RoundTrip` | admina/core/jcs.py:45-49 | a JSON reader applied to the canonical bytes of any accepted value gives back that value |
| `Jcs.SameBytesIffSameMeaning` | admina/core/jcs.py:45-86 | two accepted values have the same bytes exactly when they are the same JSON value, whatever their member order |
| `JcsForm.CanonicalHasNoBlanks` | admina/core/jcs.py:52-86 | no blank stands outside the strings of the canonical text |
| `JcsWriter.NoProblemIffAccepted` | admina/core/jcs.py:52-122 | the writer finds no problem exactly in the declared domain |
| `JcsDomain.AcceptedExactly` | admina/core/jcs.py:52-122 | a value is accepted exactly when nothing at any position of it is refused: an inexact integer, NaN or an infinity, an unpaired surrogate, a key that is no string, a value that is no JSON value |
| `JcsDomain.FirstProblem` | admina/core/jcs.py:52-122 | the exception is that of the refused position that is written first: items in order, the keys of a dict before its values, the values by the order of their names |
| `JcsWriter.PrintThen` | admina/core/jcs.py:52-86 | a value and what is written after it are concatenated |
| `JcsWriter.Write` | admina/core/jcs.py:52-86 | the recursive writer appends exactly the text of the value to the shared parts, or reports the first problem |
| `JcsWriter.WriteItems` | admina/core/jcs.py:65-71 | the loop over an array appends brackets, items and commas in order |
| `JcsWriter.WriteMembers` | admina/core/jcs.py:77-84 | the loop over the sorted members appends braces, names, values and commas in order |
| `JcsWriter.Canonicalize` | admina/core/jcs.py:45-49 | succeeds exactly on the declared domain, with the canonical bytes, and otherwise raises the first problem in writing order |
| `RequestTexts.BoundedStringsComplete` | admina/domains/governance.py:316-346 | when `_has_deep_text` is false, the bounded traversal finds the same non-empty strings as an unbounded one, keys included or not |
| `RequestTexts.DeepTextMonotone` | admina/domains/governance.py:334-346 | deep text stays deep one level further down: params inside the body count as in the body |
| `ValuePaths.DeepTextExactly` | admina/domains/governance.py:334-346 | there is deep text exactly when some path of items, keys and values leads below level 32 to a string, dict or list that is not empty |
| `ValuePaths.StringsExactly` | admina/domains/governance.py:316-331 | the strings found are those at the positions down to the limit, keys included when asked for, each once and in document order |
| `ValuePaths.StringsHas` | admina/domains/governance.py:316-331 | a text is found exactly when some path within the limit leads to it |
| `RequestTexts.ExtractTextFields` | admina/domains/governance.py:316-331 | the recursive loops compute the strings of the value down to the scan depth, in order |
| `Redaction.FreeSuffix` | admina/domains/governance.py:402-406 | a free suffix exists among finitely many used names (termination), and the smallest is found |
| `Redaction.Rename` | admina/domains/governance.py:402-406 | the while loop stops at the smallest free suffix |
| `Redaction.NoEntryDropped` | admina/domains/governance.py:393-408 | with redacted keys the output has as many members as the input, under distinct keys, its i-th value is what the recursion makes of the i-th value, and a key is renamed only when its redaction is taken |
| `Redaction.BoundedRedactionComplete` | admina/domains/governance.py:378-411 | when `_has_deep_text` is false, the bounded redaction is the unbounded one |
| `RedactionTheorems.RedactedAt` | admina/domains/governance.py:378-411 | the redacted value has the positions of the value; at each of them down to the limit a string is the engine's text for it, a container keeps its kind, size and keys (or gets the redacted keys, told apart by the first free suffix from #2 on), and everything else is unchanged |
| `RedactionTheorems.StringsRedacted` | admina/domains/governance.py:371-390 | the strings of the redacted value are, in order, the engine's texts for the strings of the value |
| `RedactionTheorems.TotalsAdd` | admina/domains/governance.py:371-375 | counts and entities are those of each text, added up in order |
| `RedactionTheorems.LookupAssigned` | admina/domains/governance.py:187-188 | replacing "params" sets that member and no other |
| `Redaction.Accumulator.DeepRedact` | admina/domains/governance.py:378-411 | the recursive redaction computes the redacted value, gives the engine exactly the strings of the value in order, and adds up their entities and counts |
| `Redaction.Accumulator.RedactString` | admina/domains/governance.py:371-375 | one text goes to the engine, and its entities and count are added |
| `Redaction.Accumulator.RedactAll` | admina/domains/governance.py:395-408 | the loop over a dict with redacted keys |
| `GovernancePipeline.RunPipeline` | admina/domains/governance.py:80-278 | the result fields, updated stage by stage, are those of the stages applied in order; with a loop breaker, firewall, PII engine and egress policy that always answer, it raises exactly when a guard fails outside its contract |
| `GovernancePipeline.GovernanceResult.CheckFirewall` | admina/domains/governance.py:161-167 | the scan loop stops at the first injection |
| `GovernancePipeline.GovernanceResult.InspectGuards` | admina/domains/governance.py:225-254 | the guard loop records every verdict and failure and stops at the first block |
| `GovernancePipeline.GovernanceResult.ApplyMode` | admina/domains/governance.py:256-270 | observe and dry-run downgrade a block and keep it as `would_action`; a block has a reason |
| `GovernanceTheorems.FirstStageDecides` | admina/domains/governance.py:139-254 | the action and risk are those of the first stage whose own condition stops the request; raising too |
| `GovernanceOutcomes.DeciderExactly` | admina/domains/governance.py:139-254 | which stage decides, by the request alone: a loop; a flagged text among those given or those of the body down to level 32; text left out of the scan, or a path below level 32 to something not empty; a refused egress; the first guard that blocks, redacts, breaks its contract in closed mode or fails |
| `GovernanceOutcomes.OutcomeExactly` | admina/domains/governance.py:139-270 | action, risk and reason for each of these, with the risk of the flagged text, of the egress decision, and of the guard (HIGH when it gives none or breaks its contract) |
| `GovernanceOutcomes.ChecksHold` | admina/domains/governance.py:139-254 | the value of every check: what the stage or the last guard of that name found |
| `GovernanceOutcomes.OrdinaryAllowed` | admina/domains/governance.py:154-179 | a request with nothing but empty texts and containers below level 32, which nothing flags, refuses or objects to, is allowed |
| `GovernanceTheorems.NoLaterCheck` | admina/domains/governance.py:139-254 | the recorded checks are exactly those of the stages up to the deciding one and of the guards up to the deciding guard |
| `GovernanceTheorems.DepthBesideInjection` | admina/domains/governance.py:154-179 | an injection in texts from which deeper text was left out: both checks are recorded, and the injection is the reason |
| `GovernanceTheorems.ReasonNamesDecider` | admina/domains/governance.py:549-567 | the reason of a BLOCK names the first stage that blocked, and the fallback is never reached |
| `GovernanceTheorems.ModesAgree` | admina/domains/governance.py:256-270 | observe and dry-run compute the checks, body and risk of enforce, never block, and set `would_action` to enforce's action exactly when it is not ALLOW |
| `GovernanceTheorems.AllowedMeansScanned` | admina/domains/governance.py:154-179 | a final ALLOW in enforce mode: every non-empty string of the body at any depth, keys included, was given to the firewall and not flagged |
| `GovernanceTheorems.AllowedMeansRedacted` | admina/domains/governance.py:181-188 | a final ALLOW in enforce mode: every non-empty string value of the params, at any depth, went through the PII engine |
| `GovernanceOutcomes.StringScanned` | admina/domains/governance.py:154-179 | the same for the string at any path of the body, keys included |
| `GovernanceOutcomes.StringRedacted` | admina/domains/governance.py:181-188 | the same for the string at any path of the params |
| `GovernanceTheorems.AllowedBodyIsRedacted` | admina/domains/governance.py:181-188 | the params sent on are redacted at every depth |
| `GovernanceOutcomes.SentBody` | admina/domains/governance.py:181-188 | the body sent on is the body that came unless PII redaction ran and counted something; then, read by key, its "params" are redacted at every position down to level 32 and every other member is unchanged |
| `GovernanceOutcomes.SentParamsRedacted` | admina/domains/governance.py:181-188 | for a request that nothing stops, at every position of any depth |
| `GovernanceOutcomes.SentMembers` | admina/domains/governance.py:187-188 | the members of the body sent on keep their order |
| `GovernanceTheorems.ScanStopsAtFirst` | admina/domains/governance.py:161-167 | the scanned texts end with the first flagged one, whose risk is kept |
| `GovernanceTheorems.GuardsDecide` | admina/domains/governance.py:225-254 | the guards end with the first that blocks or fails |
| `ForensicProbe.ForensicWriteProbe.Check` | admina/proxy/forensic_probe.py:84-97 | the locked section of a caller: cached answer, time-out or wait, and the new fields |
| `ForensicProbe.ForensicWriteProbe.Finish` | admina/proxy/forensic_probe.py:113-117 | the locked section of a check thread; a stale one changes nothing |
| `ForensicProbe.AskExactly` | admina/proxy/forensic_probe.py:84-97 | what a caller gets, from the fields alone: the cached result of its own store when younger than `interval`; else the running check of its store, or a new one, until `timeout` after its start |
| `ForensicProbe.StepKeeps` | admina/proxy/forensic_probe.py:75-142 | every step of a caller, thread, clock or waiter keeps the invariant |
| `ForensicProbe.EveryRunSound` | admina/proxy/forensic_probe.py:75-142 | the invariant holds in every interleaving |
| `ForensicProbe.ChecksSpaced` | admina/proxy/forensic_probe.py:84-97 | within one installation of a store checks never overlap, and the next starts at least `interval` after the one before finished |
| `ForensicProbe.AnswersComeFromChecks` | admina/proxy/forensic_probe.py:75-142 | an answer that is not a time-out comes from a finished check of the store asked about, a cached one is younger than `interval`, a time-out is given `timeout` after the start of the check or later |
| `ForensicProbe.StaleThreadChangesNothing` | admina/proxy/forensic_probe.py:106-118 | a thread of an earlier installation never touches the result |
| `ForensicProbe.CallsAnsweredOnce` | admina/proxy/forensic_probe.py:98-142 | answers and waiting callers add up to the calls |
| `BodyLimit.Call` | admina/proxy/body_limit.py:84-132 | what the client sees and how the call ends, for an application that receives, sends and fails in any order |
| `BodyLimit.FindDeclaredLength` | admina/proxy/body_limit.py:44-52 | the first Content-Length header decides |
| `BodyLimit.DeclaredExactly` | admina/proxy/body_limit.py:44-52 | a length is declared exactly when the first Content-Length header is that number |
| `BodyLimit.Exchange.LimitedReceive` | admina/proxy/body_limit.py:99-107 | a read that passes the limit is refused and counted |
| `BodyLimit.Exchange.GuardedSend` | admina/proxy/body_limit.py:109-121 | after a refused read before the start, the first send becomes the 413 and the others vanish |
| `BodyLimit.RunEarly` | admina/proxy/body_limit.py:94-132 | the run of the closures equals the condition on the application's actions alone |
| `BodyLimit.CountedExactly` | admina/proxy/body_limit.py:84-132 | what the client sees and how the call ends, by the number of actions before the bytes read exceed the limit and whether the response was started among them |
| `BodyLimit.DeclaredOver` | admina/proxy/body_limit.py:89-92 | a declared length over the limit is answered at once |
| `BodyLimit.HandedWithinLimit` | admina/proxy/body_limit.py:99-107 | the application is never handed more bytes than the limit |
| `BodyLimit.At413Once` | admina/proxy/body_limit.py:84-132 | never two 413 responses, and exactly one when the declared length is over the limit or the limit is passed before the response starts and the application then sends or fails |
| `BodyLimit.MixedExactly` | admina/proxy/body_limit.py:109-121 | exactly when the client sees messages of the application and a 413 |
| `BodyLimit.NeverMixed` | admina/proxy/body_limit.py:84-132 | never both for an application whose first message starts its response |
| `BodyLimit.MixedExample` | admina/proxy/body_limit.py:109-121 | an application for which both reach the client |
| `RateLimit.StepKeeps` | admina/proxy/main.py:1967-2022 | every INCR, EXPIRE, comparison and expiry keeps the counts of one key lifetime distinct |
| `RateLimit.KeyStep` | admina/proxy/main.py:1970-1976 | what every event does to a key: only INCR creates and counts, only the EXPIRE of its creator makes it expire, only an expiring key lapses |
| `RateLimit.NewTicket` | admina/proxy/main.py:1970-1974 | a request sets the expiry exactly when it created the key |
| `RateLimit.AtMostLimitPass` | admina/proxy/main.py:1967-2022 | in every interleaving and for every limit, at most `limit` of the requests whose INCR returns pass per lifetime of a key, or one when the limit is below 1 |
| `RateLimit.PassesExactly` | admina/proxy/main.py:1970-1992 | a request passes exactly when it is compared and fewer than `limit` others counted before it in its lifetime, or it created the key and its EXPIRE failed; it is refused exactly when it is compared and at least `limit` others did |
| `RateLimit.CountIsRank` | admina/proxy/main.py:1971 | what INCR returns is the place of the request among those of its lifetime |
| `RateLimit.NoLimitPassesExactly` | admina/proxy/main.py:1998-2003 | under a limit of 0 or less a request passes exactly when it created the key and its EXPIRE failed |
| `RateLimit.ZeroLimitExample` | admina/proxy/main.py:1998-2003 | a request that passes under a limit of 0 |
| `RateLimit.RefusedOverLimit` | admina/proxy/main.py:1975-1976 | a refused request counted more than the limit, and at least `limit` others counted before it in its lifetime |
| `RateLimit.EveryCountHeld` | admina/proxy/main.py:1971 | every count from 1 to that of a request is held by a request of its lifetime |
| `RateLimit.StuckForever` | admina/proxy/main.py:1971-1974 | a live key that neither expires nor has a pending EXPIRE stays in its lifetime through every continuation |
| `RateLimit.FailedExpireSticks` | admina/proxy/main.py:1971-1974 | in every run, the failed EXPIRE of a key leaves it live, without expiry and without a pending EXPIRE |
| `RateLimit.StuckExample` | admina/proxy/main.py:1971-1974 | one INCR and its failed EXPIRE lead there |
| `RateLimit.CanLapseExactly` | admina/proxy/main.py:1971-1974 | a live key has a continuation in which it lapses exactly when it expires already or its EXPIRE is pending |
| `McpExchange.McpProxy` | admina/proxy/main.py:1884-1896 | the answer and the ordered trace of effects (verdict, forensic records, sandbox run, post, counts, times, events, rows) of every exchange, recorded whatever its end |
| `McpOutcomes.ResultExactly` | admina/proxy/main.py:2285-2350 | a result is returned exactly when there is a response to govern, its redaction succeeds, and every guard accepts it or breaks its contract in open mode |
| `McpOutcomes.FirstStopDecides` | admina/proxy/main.py:2480-2553 | the first guard that does not let the response through: its block is a 403 and a BLOCK with its risk; its failure in closed mode a BLOCK of high risk, answered as its record ends; its exception is answered 502, 500 or propagates |
| `McpOutcomes.AllPassReturns` | admina/proxy/main.py:2480-2559 | with every guard passing the result is returned and the decision stays ALLOW |
| `McpOutcomes.TurnedAway` | admina/proxy/main.py:1967-2060 | 429 for either rate limit, 400 for a body that is not JSON, 413 for one that is too large, and what is counted |
| `McpOutcomes.JudgedOnly` | admina/proxy/main.py:2060-2249 | answer and decision of requests that end with the verdict of the pipeline or with its record |
| `McpOutcomes.NoResponse` | admina/proxy/main.py:2285-2420 | answer and decision of allowed requests whose sandbox run or upstream call gives no response |
| `McpOutcomes.EffectsExactly` | admina/proxy/main.py:2103-2553 | the ordered effects of an exchange: verdict, records, run or post |
| `McpOutcomes.RecordExactly` | admina/proxy/main.py:2592-2615 | the record of a decision: each metric, event and row once, in order, up to the call that raises |
| `McpExchange.Exchange` | admina/proxy/main.py:1955-2371 | the exchange: refusals, pipeline, forensic record, blocks, sandbox, upstream, with the 502 of a ConnectError wherever it is raised after the post, and the 500 of anything else |
| `McpExchange.SandboxCall` | admina/proxy/main.py:2374-2454 | a sandboxed call: one run, its record, its refusal or its governed result |
| `McpExchange.GovernResponse` | admina/proxy/main.py:2457-2559 | the response path: redaction and the guard loop, and the decision it leaves |
| `McpExchange.McpOutcome.Record` | admina/proxy/main.py:1932-1941 | a decided request is recorded with its decision up to the step that raises, whose exception is swallowed; a refused one is counted as BLOCK and timed; any other not at all |
| `McpExchange.ProxyState.RecordDecision` | admina/proxy/main.py:2592-2615 | one count, then the latency and the duration, then an event and a row unless the decision is ERROR, up to the step that raises |
| `McpExchange.ActsOnceAllowed` | admina/proxy/main.py:2103-2331 | a post or a sandbox run comes after an ALLOW verdict, in closed fail mode after the written record of the request, before the request is counted, at most once, and a sandboxed tool is never posted |
| `McpExchange.CountedOnce` | admina/proxy/main.py:1899-1941 | a request is counted at most once, and exactly when it was refused, or the pipeline ended and the counter does not raise |
| `McpExchange.CountedExactly` | admina/proxy/main.py:1899-1941 | when exactly a request is counted as BLOCK, ERROR or CIRCUIT_BREAK, or not at all |
| `McpExchange.ForbiddenIsRecordedBlock` | admina/proxy/main.py:2236-2249 | 403 is answered exactly when the pipeline blocks and its record is kept, or a response guard blocks and its own record is kept; the decision is then a BLOCK of that stage |
| `McpExchange.ResultIsRecordedAllowed` | admina/proxy/main.py:2285-2350 | a result is returned exactly when the redacted response passes every guard, and the request is then recorded as allowed |
| `McpExchange.OtherRecords` | admina/proxy/main.py:1899-1941 | refused, failed and unreadable requests: their status and their record |
| `McpExchange.UnavailableExactly` | admina/proxy/main.py:2103-2132 | 503 is answered exactly when closed fail mode loses the record of the request, of the sandbox run or of the response error, or the sandbox is not there; with an unwritten request record nothing is forwarded or run |
| `McpExchange.UnreachableExactly` | admina/proxy/main.py:2351-2363 | 502 is answered exactly when a ConnectError ends the post, the redaction of the response or its governance |
| `McpExchange.BlockRecordedWithout403` | admina/proxy/main.py:1899-1941 | the exact condition, for every exchange, of a BLOCK counted without a 403 |
| `McpExchange.BlockWithout403Examples` | admina/proxy/main.py:2103-2132 | a block whose record is lost, and a failing response guard whose record is lost: counted BLOCK, answered 503 |
| `ConfigSchema.SchemaProblems.Check` | admina/core/config_schema.py:332-362 | the checker appends exactly the problems found, the same unknown keys whether types are checked or not, and raises exactly when the search does |
| `ConfigSchema.SchemaProblems.CheckList` | admina/core/config_schema.py:365-380 | the list rules: scalars, sections, anything else |
| `ConfigSchema.SchemaProblems.CheckMembers` | admina/core/config_schema.py:354-362 | the loop over a mapping |
| `ConfigSchema.NoErrorIffTyped` | admina/core/config_schema.py:332-380 | no error exactly when the value satisfies the typing relation |
| `ConfigValues.ScalarByValue` | admina/core/config_schema.py:46-82 | which Python value each kind of scalar takes: a boolean only as a boolean, an integer as an integer, a number or, when positive, a positive number, a float as a number or, when finite and positive, a positive number, a string as a string; null leaves no error |
| `ConfigValues.ListByValue` | admina/core/config_schema.py:365-373 | a list of scalars is decided by its first item that does not fit, null among them |
| `ConfigValues.VersionByValue` | admina/core/config_schema.py:343-346 | the schema version: null, an integer, or a string of digits |
| `ConfigValues.OneMember` | admina/core/config_schema.py:354-362 | a key is looked up in the section, or else unknown, and its value is checked at its path |
| `ConfigValues.MembersInOrder` | admina/core/config_schema.py:354-362 | the problems of a mapping are those of its members in order |
| `ConfigValues.ItemsInOrder` | admina/core/config_schema.py:379-380 | the problems of a list are those of its items in order |
| `ConfigSchema.RaisesIffOverflows` | admina/core/config_schema.py:46-54 | OverflowError exactly when a positive-number field holds an integer no double can hold |
| `ConfigSchema.OverflowExample` | admina/core/config_schema.py:46-54 | 10^309 raises as a positive number and is accepted as a plain one |
| `ConfigSchema.ErrorsExactly` | admina/core/config_schema.py:332-380 | the reported errors are exactly the ill-typed values, at their paths, with what was expected |
| `ConfigSchema.UnknownExactly` | admina/core/config_schema.py:354-362 | the reported keys are exactly the unknown ones, at their paths |
| `Passwords.Shuffle` | admina/core/secrets.py:74-77 | the in-place swaps compute the shuffle of the draws |
| `Passwords.ShuffledFromKeeps` | admina/core/secrets.py:74-77 | the shuffle is a permutation of its input |
| `Passwords.DrawsArePermutations` | admina/core/secrets.py:74-77 | different draws give different permutations of the positions |
| `Passwords.EveryPermutationDrawn` | admina/core/secrets.py:74-77 | every permutation of the positions comes from some draws |
| `Passwords.ShuffleMovesPositions` | admina/core/secrets.py:74-77 | the shuffle moves positions, whatever stands on them |
| `Passwords.GeneratePassword` | admina/core/secrets.py:46-79 | for every length and every random outcome the password is the shuffle of one character of each class and the others from the whole alphabet; it has the requested length, at least 12, and meets every rule of `validate_password` |
| `Passwords.ValidatePassword` | admina/core/secrets.py:87-102 | the issues are exactly the rules that are not met, and the password is accepted when there is none |
| `Passwords.RulesExactly` | admina/core/secrets.py:87-102 | the rules, character by character |
| `SpanMerge.SortedKeeps` | admina/engines/presidio.py:287 | the sort by start, longest first, is a permutation in order |
| `SpanMerge.AcceptedIsUnion` | admina/engines/presidio.py:283-296 | the accepted spans are in order and disjoint, cover exactly the union of the detected ones, and join exactly the boundaries inside them |
| `SpanMerge.OrderIrrelevant` | admina/engines/presidio.py:283-296 | the accepted start/end pairs do not depend on the order or duplication of the language passes |
| `SpanMerge.AcceptedExtendsLeader` | admina/engines/presidio.py:283-296 | every accepted span starts where a detected one does and has the category and mask of the longest of those, the first detected on ties |
| `SpanMerge.DisjointDetermined` | admina/engines/presidio.py:283-296 | disjoint spans are determined by what they cover and join |
| `SpanMerge.ReplacedIsRewritten` | admina/domains/data_sovereignty/masking.py:135-146 | the rewritten text keeps every character outside the spans in order and has each mask in its place |
| `SpanMerge.RewrittenPlaces` | admina/domains/data_sovereignty/masking.py:135-146 | by index: every mask stands at its span's start, and every character outside the spans at its own place, each moved by the length changes of the spans before it |
| `SpanMerge.PresidioEngine.Merge` | admina/engines/presidio.py:287-296 | the merge loop computes the accepted spans |
| `SpanMerge.PresidioEngine.Replace` | admina/domains/data_sovereignty/masking.py:135-146 | the one-pass loop rewrites the text |
| `SpanMerge.PresidioEngine.CountRedactions` | admina/engines/presidio.py:310-316 | the totals in all and by type stay the numbers of redacted spans |
| `SpanMerge.PresidioEngine.Redact` | admina/engines/presidio.py:283-323 | entities, text and counters of one call |
| `SessionToken.UnpaddedRoundTrip` | admina/proxy/dashboard_session.py:99-109 | unpadded base64url, padded again and read by the lenient decoder, is the bytes |
| `SessionToken.IntRoundTrip` | admina/proxy/dashboard_session.py:118-121 | `int(str(n))` is n |
| `SessionToken.RawSplits` | admina/proxy/dashboard_session.py:112-115 | the four parts of an issued token |
| `SessionToken.TokenLength` | admina/proxy/dashboard_session.py:85-106 | a token is within 256 characters exactly when its expiry has at most 91 |
| `SessionToken.IssuedTokenExpires` | admina/proxy/dashboard_session.py:85-124 | an issued token gives now + ttl at every instant before it and None from then on |
| `SessionToken.IssueExactly` | admina/proxy/dashboard_session.py:85-100 | a token is issued exactly for a key and a lifetime of 60 to 43200 seconds, and encodes "v2", the expiry, the nonce and the signature of those three |
| `SessionToken.AcceptedIsSigned` | admina/proxy/dashboard_session.py:103-124 | an accepted token carries the signature of its expiry under the key, and the expiry is ahead |
| `SessionToken.AcceptedExactly` | admina/proxy/dashboard_session.py:103-124 | a token is accepted exactly when it is 1 to 256 ASCII characters that decode to such a payload with its signature under the key and an expiry that is still ahead |
| `SessionToken.GroupValue` | admina/proxy/dashboard_session.py:99-100 | four letters are the 24 bits of three bytes, the highest first |
| `SessionToken.LetterIs` | admina/proxy/dashboard_session.py:99-100 | the URL-safe alphabet |
| `Histograms.CumulativeIsAtMost` | admina/proxy/request_metrics.py:101-112 | the slots up to a bound hold exactly the observations at or below it |
| `Histograms.CountAndSum` | admina/proxy/request_metrics.py:101-105 | count and sum are those of the observations, and the slots hold each once |
| `Histograms.OneMoreObservation` | admina/proxy/request_metrics.py:101-105 | a negative observation counts, and adds, as 0 |
| `Histograms.Samples` | admina/proxy/request_metrics.py:107-116 | the exposed buckets: observations at or below each bound, never decreasing, ending at the count |
| `Histograms.Histogram.Observe` | admina/proxy/request_metrics.py:101-105 | one observation, negative values as 0 |
| `Histograms.EventLoopLagMonitor.Observe` | admina/proxy/loop_lag.py:63-68 | one lag sample is logged |
| `Histograms.EventLoopLagMonitor.Exposition` | admina/proxy/loop_lag.py:90-104 | the exposed lag buckets, over buckets the monitor sorts itself |
| `Histograms.SortedIncreasing` | admina/proxy/loop_lag.py:48 | the monitor's buckets are the given ones, in order |
| `RequestMetrics.RequestMetrics.Count` | admina/proxy/request_metrics.py:139-146 | a known surface and action are counted, others raise and change nothing |
| `RequestMetrics.RequestMetrics.ObserveRequest` | admina/proxy/request_metrics.py:148-153 | the duration goes to the histogram of its surface |
| `RequestMetrics.RequestMetrics.ObserveGovernance` | admina/proxy/request_metrics.py:155-160 | the decision time goes to the histogram of its surface |
| `RequestMetrics.RequestMetrics.Counters` | admina/proxy/request_metrics.py:170-172 | the counter samples of a surface equal the requests counted for it |
| `RequestMetrics.CountersAreCounts` | admina/proxy/request_metrics.py:139-200 | after any calls every action of a live surface has a counter equal to its requests, and no other counter exists |
| `RequestMetrics.RequestHistogramIsLog` | admina/proxy/request_metrics.py:148-153 | after any calls the request histogram is that of the durations observed |
| `RequestMetrics.GovernanceHistogramIsLog` | admina/proxy/request_metrics.py:155-160 | after any calls the governance histogram is that of the times observed |
| `Router.MultiUpstreamRouter.RegisterToolMapping` | admina/proxy/multi_upstream.py:118-134 | refused exactly when a tool belongs to another server, and then nothing changes; no request counter moves |
| `Router.MultiUpstreamRouter.LoadRoutes` | admina/proxy/multi_upstream.py:85-102 | the loop over the configured routes: whether it succeeds, and the fields after a success or a refusal part-way |
| `Router.MultiUpstreamRouter.Resolve` | admina/proxy/multi_upstream.py:105-110 | one request counted for a known route, nothing else changed, and the counted route returned |
| `Router.MultiUpstreamRouter.ResolveByTool` | admina/proxy/multi_upstream.py:112-116 | the route of the tool's server, without counting |
| `Router.FreshLoad` | admina/proxy/multi_upstream.py:85-134 | loading into a fresh router succeeds exactly when no tool is listed by two routes, and the index then agrees with a scan of the tool names |
| `Router.IndexIsConfig` | admina/proxy/multi_upstream.py:85-134 | the index is exactly what the configuration lists |
| `Router.LoadOrderIrrelevant` | admina/proxy/multi_upstream.py:85-102 | neither success nor index depends on the order of the routes |
| `Router.ToolResolves` | admina/proxy/multi_upstream.py:112-116 | a tool resolves to the route that lists it, unless that route is named "" |
| `Router.UnnamedRouteExample` | admina/proxy/multi_upstream.py:112-116 | a tool of a route named "" resolves to no route |
| `Router.CountersAreCalls` | admina/proxy/multi_upstream.py:85-134 | after any calls a route's counters are the numbers of its resolves and blocks since it was last loaded |

## Left out

- Networks, storage and wiring: HTTP clients, ClickHouse, S3, the file system, WebSockets, the FastAPI application. Redis is an atomic counter with expiry.
- Detection: firewall heuristics, PII recognisers, guards, egress analysis, the loop breaker and the coordination detector are parameters with arbitrary answers.
- Cryptography: HMAC is an uninterpreted function with 64 hexadecimal digits. The vault of `admina/core/secrets.py` is not modelled.
- Floating point: shortest digits, `float(n)` and rounding of sums are not modelled; a double is given by its digits, and histogram values are real numbers, so NaN observations and rounding are left out.
- Python's recursion limit, `str` and `int` subclasses, and dict keys that compare equal across types.
- `_build_gov_response`'s deciding domain, latency and serialised content; `redact_chat_params` is a parameter of the pipeline.
- The order of the checks dictionary and of the metric families' text lines.
- The detection half of `PresidioPIIEngine.redact`: categories, placeholders and word rules are in the given spans.
- The rendering of schema paths as dotted text: paths are sequences of keys and indexes, so two different paths never look alike here.
- The application inside the body-limit middleware is any sequence of receives, sends and an end; a `send` to the client that itself fails is not modelled.
- Router file reading and YAML or JSON parsing; headers, server types and the default upstream of a route.
- RequestMetrics.RequestMetrics.ObserveRequest: a surface's histogram is kept as a value in the map, not as a shared object; `Histograms.Histogram` is the object form.
- Router.MultiUpstreamRouter.Resolve: a route is kept as a value in the map, so a returned route does not change with later calls.
- ForensicProbe.EveryRunSound: all timers read one clock, and a check thread that dies without an `Exception` is a check that never finishes.
- GovernancePipeline.RunPipeline: the loop breaker, the firewall, the PII engine and the egress policy always answer; only guards fail.
- RateLimit.StepKeeps: an INCR or EXPIRE that raises has not changed the key; a reply that is lost after the operation was carried out is not modelled.
- McpExchange.McpProxy: the upstream URL, headers, tool-list merging, the `sandbox_execution` bus event and the fire-and-forget coordination task are not modelled; counting a refused request and routing a tool do not fail.
