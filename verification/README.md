# Analysis lifecycle client of the petri dashboard, in Dafny

This project models the part of the petri dashboard that has a real contract. That part is the client that starts a backend analysis job, polls it until it finishes and keeps a local index of prompts and job ids, plus the prompt list in the application sidebar. It has seven modules:

- `Common` holds `Option`, subsequences, distinctness and `Min`.
- `Records` holds the index record and the list operations behind the index: `filter` by prompt, `find` by prompt, and the newest-first stable `sort`.
- `AnalysisIndex` covers lib/storage.ts: `getStoredAnalyses`, `storeAnalysis`, `removeAnalysis` and `getStoredRequestId`. They work over an explicit browser-storage value: server side, or a key that is missing, blank, malformed JSON or a parsed array.
- `ApiTypes` holds the vocabulary both clients share: statuses, fetch replies, errors, promise outcomes, the events of a polling run, and `Settle`, the first reply that ends a polling loop.
- `Api` covers lib/api.ts: the three request wrappers with their `ApiError` contract, and `pollAnalysisCompletion` as a loop method. A recursive reference function and the lemmas about it stand next to the loop.
- `VariantApi` covers app/lib/api.ts: the `startAnalysis` that throws a plain `Error`, and the poller that uses the combined `/api/analyze/{id}` endpoint. A lemma compares it with the lib/api.ts poller.
- `Sidebar` covers components/app-sidebar.tsx: the initial prompts, the extraction of `/prompts/{segment}` from the path, the effect that records the current prompt (front of the list, ten at most), and the case-insensitive search.

The network is a script. A poller's k-th request, counting from 0, receives `statuses(k)` (or `replies(k)` in the variant), and a results fetch receives `results`. A run is a `PollRun`: how the returned promise settles, plus the trace of observable events. The events are status requests, combined requests, results requests, observer calls and sleeps. `Date.now()` is a `now` parameter, and `decodeURIComponent` is a `decode` parameter.

Behaviour worth noting:

- The variant poller resolves with `data.results` as the server sent them. The code never checks that results are present (app/lib/api.ts:154-156), so `VariantPollFrom` resolves with an `Option`.
- The variant `startAnalysis` throws a plain `Error("Failed to start analysis")` without an HTTP status (app/lib/api.ts:108-110), not an error that carries the status code.
- The lib/api.ts poller resolves only when `completed` is reached and the results request also succeeds. A failing results request rejects with that call's `ApiError`. `Api.PollResolvesIff` states both conditions.
- The index is newest-first only if it was newest-first before: `getStoredAnalyses` returns whatever array was parsed, unsorted or not. `AnalysisIndex.ReplayKeepsIndexWellFormed` proves the invariant for every sequence of stores and removals that starts from a well-formed index. An empty or missing store is well-formed.

## Model

| member | source | states |
|---|---|---|
| Records.WithoutPrompt | lib/storage.ts:29 | the filter keeps exactly the records whose prompt differs from the given one |
| Records.WithoutPromptMultiset | lib/storage.ts:29 | each record of another prompt keeps its multiplicity; records of the prompt are gone |
| Records.WithoutPromptIsSubsequence | lib/storage.ts:41 | filtering keeps the surviving records in their original order |
| Records.WithoutPromptKeepsNewestFirst | lib/storage.ts:41 | filtering a newest-first list leaves it newest first |
| Records.SortNewestFirst | lib/storage.ts:32-33 | the sort yields a permutation of its input, ordered by non-increasing timestamp |
| Records.SortIsStable | lib/storage.ts:32-33 | records with equal timestamps keep their input order (ECMAScript 2019 stable sort) |
| Records.SortIdempotent | lib/storage.ts:32-33 | sorting a sorted list changes nothing |
| Records.SortFixesNewestFirst | lib/storage.ts:32-33 | a list already newest first comes out of the sort unchanged |
| Records.FindByPrompt | lib/storage.ts:48 | `find` returns the first record for the prompt, and none exactly when no record has it |
| Records.FindUniquePrompt | lib/storage.ts:48 | with one record per prompt, `find` returns that record |
| AnalysisIndex.GetStoredAnalyses | lib/storage.ts:9-18 | server side, a missing or blank key and malformed JSON all read as the empty list; a parsed array is returned as is |
| AnalysisIndex.Upsert | lib/storage.ts:21-36 | after a store the list is newest first, holds the new record as the only one for its prompt, and holds exactly the old records of other prompts |
| AnalysisIndex.UpsertMultiset | lib/storage.ts:28-33 | a store keeps the multiplicity of every other prompt's record and holds the new record once |
| AnalysisIndex.UpsertTwice | lib/storage.ts:28-33 | upserting a prompt twice equals upserting it once with the second id and time |
| AnalysisIndex.StoreAnalysis | lib/storage.ts:20-37 | on the server it fails for lack of `localStorage`; in the browser it writes the list it returns, which is newest first, has one record for the prompt (the new one), keeps all other prompts' records, and keeps one record per prompt |
| AnalysisIndex.RemoveAnalysis | lib/storage.ts:39-44 | writes and returns exactly the other prompts' records in their order; keeps newest-first order and one record per prompt; removing an absent prompt changes nothing |
| AnalysisIndex.GetStoredRequestId | lib/storage.ts:46-50 | the id of the first record for the prompt, or null when there is none or that id is empty |
| AnalysisIndex.StoreReadsBack | lib/storage.ts:9-37 | in the browser, a read right after `storeAnalysis` returns exactly the list the store wrote and returned |
| AnalysisIndex.RemoveReadsBack | lib/storage.ts:9-44 | in the browser, a read right after `removeAnalysis` returns exactly the list the removal wrote and returned |
| AnalysisIndex.StoreTwiceLastWins | lib/storage.ts:20-37 | storing a prompt twice equals storing it once with the second id and time |
| AnalysisIndex.StoreIdempotent | lib/storage.ts:20-37 | re-storing the same pair only refreshes the timestamp; all other records are as after the first store |
| AnalysisIndex.LookupAfterStore | lib/storage.ts:20-50 | right after a store the lookup yields the stored id (null for an empty id) |
| AnalysisIndex.LookupOtherAfterStore | lib/storage.ts:20-50 | with one record per prompt, a store leaves the lookup of every other prompt unchanged |
| AnalysisIndex.LookupAfterRemove | lib/storage.ts:39-50 | after a removal the prompt is not found |
| AnalysisIndex.ReplayKeepsIndexWellFormed | lib/storage.ts:20-44 | any sequence of stores and removals keeps the index newest first with one record per prompt |
| AnalysisIndex.StoreFooTwice | lib/storage.ts:20-37 | storing foo/r1 into an empty index and then foo/r2 leaves the single record foo/r2 |
| AnalysisIndex.RemoveFoo | lib/storage.ts:39-44 | removing foo from [foo, bar] leaves [bar] |
| Api.StartAnalysis | lib/api.ts:81-95 | resolves with the body exactly when the reply is ok; otherwise rejects with an `ApiError` carrying the HTTP status and "Failed to start analysis: " plus the status text |
| Api.GetAnalysisStatus | lib/api.ts:97-105 | the same contract, with "Failed to get analysis status: " |
| Api.GetAnalysisResults | lib/api.ts:107-115 | the same contract, with "Failed to get analysis results: " |
| Api.PollAttempt | lib/api.ts:127-139 | one pass of the loop body: it leaves the loop exactly when the reply is not an in-progress status, and its events and outcome are that attempt's part of the run |
| Api.PollAnalysisCompletion | lib/api.ts:118-143 | the loop settles and acts exactly as the reference run; with no attempts allowed it times out without any request |
| Api.PollOutcome | lib/api.ts:126-142 | the run settles as the first stopping reply dictates: timeout, the status call's `ApiError`, "Analysis failed", or the results call's outcome |
| Api.PollCounts | lib/api.ts:126-142 | one status request per attempt up to the stopping one, one sleep per in-progress status, one results request exactly when stopped on completed, no combined request |
| Api.PollObservations | lib/api.ts:127-128 | the observer, if given, sees the status of every ok reply in request order |
| Api.PollResolvesIff | lib/api.ts:126-143 | resolves iff completed arrives within maxAttempts after only in-progress statuses and the results fetch succeeds, with that body; reaching completed is exactly when one results request is made, as the last event |
| Api.CompletedRunEndsWithFetch | lib/api.ts:130-132 | a run that stops on completed ends with the results request for the same id |
| Api.PollFailsAtFirstFailed | lib/api.ts:134-136 | the first failed status rejects with "Analysis failed" with no further status request and no results request |
| Api.PollPropagatesStatusError | lib/api.ts:126-127 | a non-ok status reply is not retried: the run rejects with its `ApiError` right after that request |
| Api.PollTimesOutIff | lib/api.ts:126-142 | times out iff all of the first maxAttempts statuses are in progress, after maxAttempts requests and as many sleeps |
| Api.PollObservesEachStatus | lib/api.ts:127-128 | with an observer it is called once per answered status request, in order; without one nothing is observed |
| Api.DefaultPollOptions | lib/api.ts:118-123 | omitted arguments default to a 2000 ms interval and 30 attempts |
| Api.PollWithDefaultsIsBounded | lib/api.ts:121-142 | with the defaults a run makes at most 30 status requests and sleeps at most 60000 ms |
| Api.CompletesOnThirdAttempt | lib/api.ts:126-142 | pending, processing, completed with interval 10 and 3 attempts: three status requests, two sleeps, one results fetch, resolved |
| Api.TimesOutAfterTwoPending | lib/api.ts:126-142 | two pending statuses with 2 attempts: timeout after two status requests and no results fetch |
| VariantApi.VariantStartAnalysis | app/lib/api.ts:99-113 | resolves with the body exactly when the reply is ok; otherwise rejects with the plain error "Failed to start analysis" |
| VariantApi.VariantPollAttempt | app/lib/api.ts:145-163 | one pass of the variant loop body: it leaves the loop exactly when the reply is not an in-progress status, with that attempt's events and outcome |
| VariantApi.VariantPollAnalysisCompletion | app/lib/api.ts:136-167 | the variant loop settles and acts exactly as its reference run; with no attempts allowed it times out without any request |
| VariantApi.VariantPollOutcome | app/lib/api.ts:144-166 | the run settles as the first stopping reply dictates: timeout, "Failed to fetch analysis status", "Analysis failed", or the reply's results as sent |
| VariantApi.VariantPollCounts | app/lib/api.ts:144-164 | one combined request per attempt up to the stopping one, one sleep per in-progress status, no separate status or results request |
| VariantApi.VariantPollObservations | app/lib/api.ts:151-152 | the observer is called with the status of every ok reply, in request order |
| VariantApi.PollersAgree | app/lib/api.ts:136-167 | on the same statuses both pollers make as many requests, sleep as often, observe the same statuses, and time out or fail together; the variant never fetches results, resolves exactly when the other reaches completed, and turns HTTP failures into a plain error |
| Sidebar.InitialRecentPromptsWellFormed | components/app-sidebar.tsx:24-30 | the five initial prompts are distinct, non-empty and within the cap |
| Sidebar.ExtractPromptSegment | components/app-sidebar.tsx:39 | the capture group of the leftmost "/prompts/" followed by a non-slash character, extended over all following non-slash characters; none when there is no such match or no pathname |
| Sidebar.ExtractFromPromptLink | components/app-sidebar.tsx:39 | a path of the form /prompts/{segment}/… yields exactly that segment |
| Sidebar.NoPromptOutsidePromptPages | components/app-sidebar.tsx:39 | a path without "/prompts/" names no prompt |
| Sidebar.CurrentPrompt | components/app-sidebar.tsx:39-40 | the decoded segment when the pattern matches, null otherwise |
| Sidebar.AddCurrentPrompt | components/app-sidebar.tsx:43-47 | a truthy prompt not yet listed goes to the front and the list is cut to min(10, n+1) entries; otherwise the list is unchanged |
| Sidebar.AddCurrentPromptBounds | components/app-sidebar.tsx:43-47 | afterwards a truthy prompt is listed, the list has at most ten entries unless it already had more, and nothing is lost from a list shorter than ten |
| Sidebar.AddCurrentPromptEvictsOldest | components/app-sidebar.tsx:45 | with ten entries, a new prompt pushes out exactly the last one |
| Sidebar.AddCurrentPromptKeepsDistinct | components/app-sidebar.tsx:43-47 | the effect never introduces a duplicate |
| Sidebar.AddCurrentPromptIdempotent | components/app-sidebar.tsx:43-47 | when the effect re-runs after its own update it changes nothing |
| Sidebar.AfterVisitsWellFormed | components/app-sidebar.tsx:35-47 | after any sequence of visited paths the list has at most ten distinct non-empty prompts |
| Sidebar.Includes | components/app-sidebar.tsx:51 | `includes` holds exactly when the term occurs at some position |
| Sidebar.FilterPrompts | components/app-sidebar.tsx:50-52 | an empty term keeps the whole list; otherwise exactly the prompts containing the term, ignoring case |
| Sidebar.FilterPromptsIsSublist | components/app-sidebar.tsx:50-52 | the matches keep their order and multiplicity; distinct input gives distinct output |
| Sidebar.FilterIgnoresCase | components/app-sidebar.tsx:51 | terms that lower-case alike select the same prompts |

## Left out

- JSON: `JSON.parse` of text that is valid JSON but not an array of records (it would be returned as is) is not modelled; the slot is either malformed or a parsed list of records. `JSON.stringify` is the identity on the list.
- `response.json()` rejecting on an ok response with an unparsable body is not modelled; an ok reply carries its decoded body.
- The HTTP request itself: URLs, methods, headers and the request body of `startAnalysis` (prompt, `use_cache`, `num_completions`) are not modelled; each call is reduced to the reply it gets.
- The `status` field of a reply outside the four known values is not modelled; such a value would keep the loop polling.
- The `timestamp` field of a status reply is not modelled; the client does not use it.
- Sleeps are recorded as `Slept(interval)` events; time does not pass, and a negative or fractional interval is not interpreted.
- `maxAttempts` is an integer; a fractional value (where `attempts < maxAttempts` rounds up the attempt count) is not modelled.
- Exceptions thrown by the observer callback are not modelled; the observer only records the status.
- Concurrency: several tabs writing the index (last writer wins per write), and two poll loops on one id, are not modelled; each call runs alone.
- The `getAnalysisStatus` and `getAnalysisResults` of app/lib/api.ts are the same code as in lib/api.ts and are modelled once, by `Api.GetAnalysisStatus` and `Api.GetAnalysisResults`.
- Browser storage calls are assumed not to throw: a `localStorage.getItem` outside the `try` (a SecurityError when storage is blocked) and a `localStorage.setItem` that exceeds the quota (QuotaExceededError) are not modelled.
- `decodeURIComponent` is a parameter and is not interpreted, so the `URIError` it throws on a malformed escape is not modelled.
- `toLowerCase` is modelled for ASCII letters only; other Unicode case mappings are not modelled.
- React: state batching, re-rendering and the sidebar's markup (links, the "No prompts found" text) are not modelled. The effect is a function from the current prompt and list to the new list.
- The page-level orchestration in app/page.tsx and app/prompts/[prompt]/ (lookup, submit, store, poll, change broadcast), the settings page, the history page and the layouts are not part of this model.
