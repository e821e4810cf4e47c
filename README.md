# ai-img-gen pipeline core, modelled in Dafny

ai-img-gen is a two-phase batch pipeline that turns example prompts into generated images.

- **Phase 1** asks the Gemini text API, `NUM_PROMPTS_TO_GENERATE` times, for a new prompt. Each request is inspired by an example prompt taken from a persisted, shuffled queue. Every non-empty result is stored as a `pending` record in a TinyDB table.
- **Phase 2** runs up to `NUM_IMAGES_TO_CREATE` iterations. Each iteration takes the first pending record and hands its text to the image tool. The record is marked `completed` only when the tool reports at least one new file.

The model has four modules beside `Wrappers` (which holds `Option`):

- `Database` (database.dfy): the record table of `src/database_handler.py`.
  - `Record` keeps TinyDB's document id (`docId`) apart from the application's `promptId`.
  - `get_next_id` and `get_pending_prompt` are functions over the table.
  - The module-level `db` is the class `Table`. Its methods `AddPrompt` and `MarkPromptCompleted` update the `records` field in place.
  - `Table.Valid` holds four invariants of the table:
    - `completed_at` is absent exactly for pending records;
    - prompt ids strictly increase in table order;
    - document ids are unique;
    - no document id exceeds the last one assigned (`lastDocId`), which is what makes each new document id fresh.
- `Gemini` (gemini.dfy): `generate_creative_prompt` of `src/gemini_handler.py`, as the class `PromptGenerator`.
  - Its `queue` field stands for the state file.
  - `shuffle(k)` is the order that `random.shuffle` gives at the k-th refill. `Valid` requires it to be a permutation of the pool's keys.
  - `api(k)` is the outcome of the k-th API call: a reply text, no text, a transient error or any other error.
  - `trace` records, in order, the queue writes, the API calls and the sleeps.
  - Pure specification functions describe each part:
    - `DrawFrom` and `DrawMany` describe the queue;
    - `RunAttempts` over `Window` describes the retry loop;
    - `Attempted` describes the events the retry loop emits;
    - `Strip` is Python's `str.strip`, and `BuildPool` is the dict comprehension of `load_example_prompts`.
- `Populate` (populate.dfy): `populate_prompts` of `src/main.py`.
  - `Generations` is the specification of the generator's results over the loop: n retry loops in a row, each starting where the previous one's API calls ended.
  - `Stored` says what the loop appends to the table, prompt ids included.
  - `Traced` is the specification of the generator's trace over the loop: one save and one retry loop's events per call, on the example that call drew.
  - `NumPromptsToGenerate` is the count the driver passes; `PopulatePrompts` takes it as the parameter `n`.
- `Process` (process.dfy): `process_pending_prompts` of `src/main.py`.
  - `dispatch(i, text)` is the list of paths the image tool returns in iteration `i`.
  - `DrainFrom` is the specification of the whole loop.
  - `NumImagesToCreate` is the iteration bound the driver passes; `ProcessPendingPrompts` takes it as the parameter `m`.
  - The loop is proved equal to `DrainFrom`, and the phase-2 properties are lemmas about `DrainFrom`.

## Model

| member | source | states |
|---|---|---|
| Database.NextId | src/database_handler.py:14-19 | 1 for an empty table; otherwise strictly greater than every prompt id, and equal to one more than some existing prompt id, i.e. `max + 1` |
| Database.FirstPendingFromSpec | src/database_handler.py:52 | the index-based lookup finds nothing exactly when no record from the start position on is pending, and no pending record precedes what it finds |
| Database.FirstPending | src/database_handler.py:52 | a found position is in the table and holds a pending record |
| Database.GetPendingPromptSpec | src/database_handler.py:45-57 | `get_pending_prompt` gives None exactly when no record is pending, and otherwise the first pending record in table order; as a function of the table it changes nothing |
| Database.CompleteSpec | src/database_handler.py:66-72 | the update sets status `completed` and a present `completed_at` on the documents with the given id; their ids, text and creation time, and every other document, stay unchanged |
| Database.CompleteKeepsInvariants | src/database_handler.py:66-72 | the update keeps the lifecycle rule (`completed_at` absent iff pending), increasing prompt ids and unique document ids |
| Database.Table.constructor | src/database_handler.py:11 | a new table is empty and valid |
| Database.Table.AddPrompt | src/database_handler.py:21-43 | an empty text returns None and changes nothing; otherwise exactly one pending record without completion time is appended, with prompt id `get_next_id()` computed beforehand and a fresh document id that is returned; earlier records are unchanged, and the table invariants hold afterwards, so ids from any sequence of adds are unique and strictly increasing |
| Database.Table.MarkPromptCompleted | src/database_handler.py:59-73 | the table becomes exactly the table updated for that document id, and its invariants still hold |
| Gemini.TrimStartSpec | src/gemini_handler.py:111 | `lstrip` removes exactly a whitespace prefix, and the result leaves no leading whitespace |
| Gemini.TrimEndSpec | src/gemini_handler.py:111 | `rstrip` removes exactly a whitespace suffix, and the result leaves no trailing whitespace |
| Gemini.StripSpec | src/gemini_handler.py:111 | `strip` gives a substring of the reply with only whitespace cut off on both sides, and no whitespace at either end; it is empty exactly when the reply is all whitespace |
| Gemini.BuildPoolSpec | src/gemini_handler.py:33 | every id in the example file is a key of the pool, and each key maps to the prompt of its last occurrence |
| Gemini.DrawFrom | src/gemini_handler.py:79-89 | a draw refills exactly when the stored queue is empty; the drawn id followed by the saved queue is the queue that was used, so the id is its head and the saved queue is its tail, in order |
| Gemini.DrawStaysInPool | src/gemini_handler.py:79-86 | when the stored queue holds only pool keys and the refill is a permutation of the keys, the drawn id and every saved id are pool keys |
| Gemini.DrawMany | src/gemini_handler.py:79-89 | k consecutive draws yield k ids, and the refill count never decreases |
| Populate.DrawManyPrefix | src/gemini_handler.py:79-89 | the ids of the first j draws are the first j ids of any longer run of draws from the same queue |
| Gemini.DrawsWithoutRefill | src/gemini_handler.py:79-89 | while the stored queue has at least k ids, k draws take its first k ids in order, leave the rest, and do not refill |
| Gemini.DrawsAfterRefill | src/gemini_handler.py:79-89 | from an empty queue, the first k draws (k at most the pool size) refill once and take the first k ids of that shuffle |
| Gemini.PermutationSize | src/gemini_handler.py:81-82 | a permutation of the pool's keys has one entry per key |
| Gemini.CycleCoverage | src/gemini_handler.py:79-89 | from an empty queue over K ids, K draws yield the shuffled pool, each id exactly once, and leave the queue empty after one refill; draw K+1 refills again and yields the head of the next shuffle |
| Gemini.RunAttempts | src/gemini_handler.py:100-127 | at most `retries` calls, and at least one whenever there is an attempt; every call but the last met a transient error; a result is present only when the last call gave a non-empty reply, and then it is that reply stripped |
| Gemini.FirstDecisiveOutcome | src/gemini_handler.py:110-124 | after k transient errors, the first other outcome ends the loop at k+1 calls: a non-empty reply gives its stripped text, and no text or a non-transient error gives None |
| Gemini.AllTransient | src/gemini_handler.py:118-127 | when every attempt is transient, the loop uses all `retries` calls and gives None |
| Gemini.Rounds | src/gemini_handler.py:118-121 | k transient rounds emit 2k events |
| Gemini.Attempted | src/gemini_handler.py:100-124 | a loop that made c calls emits 2c-1 events, or none when c is 0 |
| Gemini.RoundsAlternate | src/gemini_handler.py:118-121 | in k transient rounds, calls and sleeps of `delay` alternate, starting with a call |
| Gemini.AttemptedAlternates | src/gemini_handler.py:100-124 | calls and sleeps alternate, starting and ending with a call: one sleep between each two attempts and none after the last, so `retries-1` sleeps when every attempt is transient |
| Gemini.PromptGenerator.ShufflesNonEmpty | src/gemini_handler.py:73-82 | with a truthy, non-empty pool, every refill has an id to pop |
| Gemini.PromptGenerator.constructor | src/gemini_handler.py:38-67 | the generator starts from the given model status, pool, oracles and stored queue, with no calls, refills or events |
| Gemini.PromptGenerator.Generate | src/gemini_handler.py:69-127 | without a model or a non-empty example pool: None, and no queue change, refill, API call or event. Otherwise: one draw from the stored queue, with an empty queue refilled from the next shuffle. The remaining queue is saved before the first call. Then the retry loop runs on the input built from the example's text, or `"um belo dia"` for an id missing from the pool. Its result and its number of calls are those of `RunAttempts` |
| Gemini.PromptGenerator.DrawExample | src/gemini_handler.py:77-89 | the queue and the refill count become those of `DrawFrom`; a save of the remaining queue is recorded; the text is the pool's entry for the drawn id, or the fallback |
| Gemini.PromptGenerator.RetryLoop | src/gemini_handler.py:100-127 | the result and the number of API calls are those of `RunAttempts` over the next `retries` oracle outcomes, and the events are `Attempted` for that count |
| Populate.AcceptedSpec | src/main.py:44-46 | the accepted texts are non-empty and at most as many as the results; there are as many exactly when every result is truthy, and none when no result is |
| Populate.NextIdAfterNext | src/database_handler.py:14-19 | appending a record that carries the next prompt id moves the next id on by exactly one |
| Populate.StoredIdsConsecutive | src/database_handler.py:36 | records stored by phase 1 get consecutive prompt ids starting at the table's next id; from an empty table they are 1, 2, 3, ... in insertion order |
| Populate.GenerationsCalls | src/main.py:41-43 | the n generator calls together make between n and `retries`·n (3n) API calls |
| Populate.ResultFromReply | src/gemini_handler.py:110-115 | when one generator call gives a result, it made at least one API call, and its result is the stripped text of the non-empty reply to its last call |
| Populate.GenerationsFromReplies | src/main.py:43 | every result of the n generator calls is the stripped text of a non-empty reply among the API calls they made |
| Populate.GenerationsAllTransient | src/main.py:41-43 | when every API call meets a transient error, the n generator calls use 3n API calls and give no result, so nothing is stored |
| Populate.PopulateOnce | src/main.py:43-46 | one generator call with the default arguments: one draw from the stored queue, then the retry loop over the next outcomes on the drawn example, whose result and API calls it returns; the trace gains the save of the remaining queue, then the calls and sleeps of that loop on the drawn example's text. A truthy result is appended as one pending record with the next prompt id, and any other result stores nothing |
| Populate.PopulatePrompts | src/main.py:37-47 | the generator is called exactly n times, and its results and API calls are those of `Generations`: n retry loops in a row over the API outcomes. The example queue advances by exactly n draws (`DrawMany`), and the trace is `Traced`: for each call, the save of the queue its draw left, then its retry loop on the example it drew. The store gains one pending record per truthy result, in order, each with the next prompt id, and nothing else; `generatedCount` is their number. With no model or examples at all, no result, no record, no queue change and no event |
| Populate.TracedUsesDrawnExamples | src/gemini_handler.py:79-100 | every API call the n generator calls make is on the input built from the text of an id among those the n draws yield (the fallback text for an id missing from the pool); `Gemini.CycleCoverage` says which ids those are |
| Process.PendingDocsFromLookup | src/database_handler.py:52 | the pending list is empty exactly when the lookup finds nothing, and it starts with the document the lookup finds |
| Process.DrainFrom | src/main.py:60-82 | the loop makes at most M dispatches; stores at most one completion per dispatch; keeps the table's length |
| Process.StopsOnlyWhenNothingPending | src/main.py:60-66 | the loop ends before its M iterations only when no record is left pending |
| Process.DrainIsMonotone | src/main.py:74-78 | phase 2 only turns pending records into completed ones |
| Process.FailureRepeats | src/main.py:62-82 | a failed dispatch that has another iteration after it is followed by a dispatch of the same document: the second dispatched document equals the first |
| Process.FailedDispatchIsRetried | src/main.py:62-82 | along the whole run, every failed dispatch that is not in the last iteration is followed by a dispatch of the same document |
| Process.CompleteOne | src/database_handler.py:66-72 | completing a pending record whose document id is unique turns exactly one record from pending to completed |
| Process.ProcessedCountsCompletions | src/main.py:59-78 | `processed_count` is exactly the number of records turned from pending to completed |
| Process.CompleteFirstPending | src/main.py:62-77 | completing the first pending record removes exactly the head of the pending list |
| Process.AllDispatchesSucceed | src/main.py:60-78 | when every dispatch succeeds, with P pending records: the first min(P, M) pending documents are dispatched in table order and completed, the rest stay pending in the same order, and the count is min(P, M) |
| Process.ProcessPendingPrompts | src/main.py:49-85 | without a cookie: no lookup, no dispatch, no store change, count 0. Otherwise the final table, the count and the dispatched documents are exactly those of `DrainFrom` for M iterations, so every property above applies; the store's invariants are kept |

## Left out

- `src/imagefx_handler.py` is not part of this model. Image generation is the `dispatch` oracle, which returns a possibly empty list of paths. Its subprocess, its directory listings and its use of the cookie are left out.
- The Gemini client and its configuration are left out. This covers initialisation from environment variables (src/gemini_handler.py:57-67), the system instruction and the sampling settings. Only whether a model exists (`modelReady`) is modelled.
- File I/O is left out: reading and writing the JSON files, TinyDB's persistence, and the `dotenv` loading.
  - The example pool is a parameter, and `BuildPool` models how it is built.
  - The state file is the `queue` field. Each write is a `Saved` event.
  - A missing or corrupt state file, which reads as an empty queue, is modelled by passing `[]` as the stored queue.
- `setup_directories` and all `print` output are left out, because they do not affect the modelled state.
- `random.shuffle` is an oracle that gives any permutation of the pool's keys. The random number generator is not modelled.
- `time.sleep(delay)` is recorded as a `Slept(delay)` event. No time passes.
- `datetime.now(...)` is the `now` parameter. Only its presence in `created_at` and `completed_at` matters.
- Database.Table.MarkPromptCompleted requires the document id to exist, because TinyDB raises an error for an unknown id in `update(doc_ids=...)`. The driver only passes ids it has just looked up.
- Database.Table.AddPrompt: promises only that the new document id is fresh, not TinyDB's exact numbering.
- Gemini.PromptGenerator.Generate: an error raised while reading `response.text` is treated as a response without text. An unexpected exception inside the call is treated as `Fatal`. Both end the loop with None, as in the source.
- Process.ProcessPendingPrompts: `process_pending_prompts` returns None and only prints its count. The count is modelled as an output of the method.
  - The `break` on "nothing pending" is modelled as a `return` of the same state.
  - The cookie is a parameter, not an environment variable.
- Populate.PopulatePrompts: `populate_prompts` returns None and only prints its count. The count is modelled as an output of the method. It uses the generator's default `retries=3` and `delay=5`. Its contract does not state the table's new `lastDocId`; the invariant in `Table.Valid` keeps the next document id fresh.
- Concurrency is left out: there is none in the source.

A failed record is dispatched again in the same run: the next iteration looks up the first pending record, which is still the failed one, so the same record is re-dispatched until it succeeds or the iterations run out (see `Process.FailedDispatchIsRetried`).

A whitespace-only reply ends as no stored record. `strip()` can return an empty string for such a reply. The generator returns that empty string, and `populate_prompts` then drops it because the string is falsy. The model keeps both steps: see `Gemini.StripSpec` and `Populate.Truthy`.
