# Nenya gateway: a verified model

A model, in Dafny, of the parts of the Nenya LLM gateway whose correctness does not show in any one
function body: the account scheduler, the drain gate, the JSONC configuration editor and its loader-side
counterpart, the configuration merge, the thought-signature cache, two message-sequence rewriters, the
per-key limits, the model catalog and the peak window.

Code that changes state is written as classes and loops (one method per source method or helper) and each
method is proved equal to a function of the old state; the promises are then proved about those functions,
over every run, every document or every conversation. Every function the source computes by loops is
stated once as a specification and once as the loop that refines it.

## The modules

| module | source | subject |
|---|---|---|
| `Common` | | `Option` |
| `Accounts`, `AccountPool`, `PoolRuns`, `Fairness`, `Starvation`, `PoolHealth` | `internal/auth/pool.go`, `internal/auth/errors.go` | virtual clocks, the rotated minimum scan, cooldowns and locks, and their behaviour over runs |
| `DrainGate` | `internal/gateway/drain.go` | requests, any number of closers and context expiry as interleaved steps |
| `JsonScanner`, `JsoncGrammar`, `JsoncTree`, `ConfigSplice`, `SpliceLaws`, `SpliceTheorems` | `cmd/nenya/config_splice.go` | the byte scanner, the documents it reads, and the one-splice editor |
| `StripComments`, `ConfigMerge` | `config/loading.go` | the loader's comment stripper, and the drop-in merge |
| `LoaderView` | `config/loading.go`, `cmd/nenya/config_splice.go` | what the loader makes of the documents the editor writes |
| `SignatureCache` | `internal/infra/cache.go` | LRU with TTL, and scoped views |
| `ToolPairing` | `internal/adapter/anthropic_request.go` | OpenAI messages to Anthropic turns |
| `ZaiMessages` | `internal/adapter/zai.go` | Z.AI normalisation |
| `KeyLimits` | `internal/auth/keylimits.go` | request rate and token budgets |
| `ModelCatalog`, `CatalogMerge` | `internal/discovery/discovery.go`, `internal/discovery/merge.go` | the two indexes, and the merge with static and overridden models |
| `PeakWindow` | `config/entry.go` | daily windows against a timeline |

Conventions: time is an `int` number of nanoseconds handed to every operation (minutes in `PeakWindow`);
runs are sequences of events at non-decreasing times; text is a sequence of characters standing for bytes;
errors are results, never preconditions.

## What the model shows about the code

- **Fairness.** While two accounts are available at every selection and never pinned, the ticks charged to one
  and to the other differ by at most twice the full tick plus the wall time since the first selection,
  whatever happens to all other accounts; in the configured weights, their picks stand in the proportion of
  the weights up to that bound and the rounding of a nanosecond per pick. The elapsed-time term is needed:
  when selections are a full tick or more apart, clamping ties all clocks and the accounts are simply picked
  in turn, whatever their weights, so that with weights 1 and 2 the difference exceeds every bound.
- **Starvation.** An available account is picked after at most one round plus, for every other available
  account, `ceil(weightTick / tick)` picks, by a ranking on the clock leads of the others and then the cyclic
  distance from the last pick.
- **Drain.** Until it is armed the gate admits every request, and once armed none. Only an expired context can
  close resources under running requests, and it can: the model has the four-step run. Without expiry the gate
  never closes while a request is in flight, and the only thing a blocked closer waits for is a request.
- **Editor.** Files with comments only and roots other than objects are refused, and in any text, well-formed
  or not, an edit leaves all bytes up to the root's brace alone, and a value it replaces stands after its key
  and a colon. The value scanner's scalar branch does not stop at `/`, and the insertion scan re-reads every
  `:` as the beginning of a scalar. What follows from that is stated exactly where a simple condition exists:
  - Lookups pass comments glued to a scalar as long as these hold no stop byte (blank, comma or closing
    bracket); a stop byte sends the search into the comment, so that `b` reads 7 in
    `{"a":1/*,"b":7 */,"b":2}`. Where they pass, a lookup returns the exact bytes of a scalar if and only if
    no comment is glued to it.
  - Replacing a value changes that value and nothing else if and only if it is no scalar with a comment glued
    to it: in `{"a": 1/* c */}` the opening mark of the comment goes with the 1.
  - Inserting a member is right when the scan keeps in step with the members (after each colon it halts before
    the value, or reads through the value scalar by scalar, and no comment it reads as part of a scalar holds
    a stop byte), if and only if the last value is not read together with a line comment glued to it. In
    `{"a": 1//c` followed by a line break and `}`, the separating comma goes into the comment and the file is
    no longer well-formed. A blank after each colon is thus not enough. Out of step, the offset falls inside a
    tight nested object that comes first and whose inside has no stop byte (`{"x":{"a":1}}`) or opens with a
    line break, as in the usual layout but for the blank; and a tight array that comes first and has no stop
    byte inside (`{"x":["a"]}`) makes the scan fail, so that the edit is refused.
  - The inserted value reads back exactly if and only if it is no scalar put in front of a comment: setting
    `b` to 2 in `{"a": "s"/*c*/}` makes it read `2/*c*/`. If such a comment holds a stop byte, a key that was
    not there can be read out of it.
- **Comment stripper.** Its backward backslash test agrees with a forward lexer exactly when no string is
  opened after an odd run of backslashes. Stripping twice is stripping once if and only if one forward walk
  that carries the flags of both passes meets no comment mark that is in a string for the first pass only;
  that holds whenever there is no backslash outside strings and comments.
- **Loader and editor.** They end a block comment at the same place if and only if no slash comes directly
  after its opening mark (the loader closes `/*/` at once), and a line comment if and only if no carriage
  return comes before its end. On documents with such comments only, and no backslash outside strings, what
  the loader strips is exactly the comments of the parsed document; so a value the editor has set is what is
  read at its path after stripping, even where the editor's own lookup would read a comment with it.
- **Merge.** Associative exactly, idempotent exactly, right identity exactly; the left identity holds if and
  only if no empty non-nil map is reached through structs and pointers, and otherwise gives the value with
  those maps nil.
- **Rate limit.** Sharper than the documented worst case of twice the limit: a window is opened by a request,
  so any half-open minute admits at most `2·limit − 1`, and a run reaches that.
- **Tool pairing.** The result is left unsanitised when it has fewer than two turns; that is exactly when a
  call may stay unanswered. Every tool result answers the turn before it if and only if no kept system or
  trailer message separates a batch from its assistant turn.
- **Z.AI.** Change is detected by comparing lengths, which misses exactly the rewrites that bridge as often as
  they merge, and the conversations of which nothing is left.
- **Catalog pricing.** A peak or cache rate carried over from one variant is kept in the loop variable, so it
  leaks to the later variants of the model; the exact carried rate and when a variant keeps its own are
  stated. When the primary provider of a static or overridden model fails a filter, all other variants of the
  model are dropped with it.

## Model

| member | source | states |
|---|---|---|
| Accounts.ContainsToken | internal/auth/errors.go:108-126 | the search loop finds the token exactly when it occurs somewhere with no identifier byte on either side, over every later occurrence |
| Accounts.IndexFrom | internal/auth/errors.go:108-126 | the first occurrence at or after an index, or none |
| Accounts.Classify | internal/auth/errors.go:135-174 | levels stay within 0..5, cooldowns within 0..300000 ms and at least 1000 ms exactly for the statuses that ask for a fallback |
| Accounts.ClassifyTable | internal/auth/errors.go:135-174 | the whole table of statuses: cooldowns of 1, 2, 4, 8, 16 s for rate limits in a row, 5 s for 5xx, 300 s for 401, 403 and billing signals, and no fallback otherwise |
| Accounts.ScopedTable | internal/auth/errors.go:81-126 | which errors concern one model only, in terms of the words and whole words that the message holds in any case of letters |
| Accounts.CaseIsIgnored | internal/auth/errors.go:81-174 | messages and models that differ in the case of letters only are treated alike |
| Accounts.ErrorEffects | internal/auth/pool.go:274-329 | an error is always noted; then exactly the lock and level of one model change, or exactly the level, cooldown and status of the account, or nothing |
| Accounts.SuccessRevives | internal/auth/pool.go:343-358 | after a success an account is healthy for every model not locked, unless it is disabled, and its locks stay |
| Accounts.PurgeExactly | internal/auth/pool.go:409-425 | a purge forgets exactly the locks that ended before now and exactly their levels |
| AccountPool.PickIsLeast | internal/auth/pool.go:157-199 | selection refuses exactly when no account passes every gate; otherwise it takes the least clamped clock, first in rotation from the last pick among ties |
| AccountPool.PickIsUnique | internal/auth/pool.go:162-181 | those conditions determine the pick, so no other scan order or tie break meets them |
| AccountPool.SelectionServes | internal/auth/pool.go:136-199 | what a selection picks passes each gate, and it refuses, changing nothing, only if every account fails one; the gates are spelled out |
| AccountPool.PinReasons | internal/auth/pool.go:213-244 | the reason a pin is refused for is the first that applies |
| AccountPool.UnknownIdDoesNothing | internal/auth/pool.go:213-405 | an id nobody has changes nothing, whatever the operation |
| AccountPool.OthersUntouched | internal/auth/pool.go:274-405 | errors, successes and locks touch the first account with the id and no other |
| AccountPool.LockIsLocal | internal/auth/pool.go:391-405 | an explicit lock keeps the account out for that model until it ends, and for no other model |
| AccountPool.ScanPrefix | internal/auth/pool.go:166-181 | every prefix of the rotated scan holds the best account of that prefix, ties going to the earlier place |
| AccountPool.AccountPool.AvailabilityMask | internal/auth/pool.go:136-155 | the loop clamps exactly the accounts it marks available and changes nothing else |
| AccountPool.AccountPool.RotatedMinScan | internal/auth/pool.go:164-181 | the modular loop from the account after the last pick computes the scan specification |
| AccountPool.AccountPool.LeastAvailableClock | internal/auth/pool.go:184-192 | the loop computes the least clock of the available accounts, no later than its bound |
| AccountPool.AccountPool.RenormalizeVirtualClocks | internal/auth/pool.go:93-99 | the loop translates every clock by the same non-negative shift |
| AccountPool.AccountPool.SelectAccountExcluding | internal/auth/pool.go:157-199 | the in-place steps yield the selection's new pool and return the picked account's credential, or refuse and change nothing |
| AccountPool.AccountPool.SelectAccountByID | internal/auth/pool.go:213-244 | the pin's refusals in the source's order, and the pinned account's clock raised to now |
| AccountPool.AccountPool.ApplyErrorForModel | internal/auth/pool.go:274-315 | the error is applied to the first account with the id, scoped to the model or to the whole account; unknown ids change nothing |
| AccountPool.AccountPool.ReportSuccess | internal/auth/pool.go:343-358 | the named account is active again with no cooldown and no backoff; its model locks stay |
| AccountPool.AccountPool.LockModel | internal/auth/pool.go:391-405 | the lock is set, and the id reported found exactly when some account has it |
| AccountPool.AccountPool.ExpiredLocks | internal/auth/pool.go:409-425 | the nested loops purge every account's expired locks and return how many there were in all |
| AccountPool.PurgeAccount | internal/auth/pool.go:409-425 | the inner loop removes exactly the locks that ended strictly before now, with their levels, and counts them |
| PoolRuns.SelectClocks | internal/auth/pool.go:63-99 | a selection changes only clocks: clamped, plus the tick for the pick, minus one common shift |
| PoolRuns.PickFacts | internal/auth/pool.go:157-199 | in a run, the pick is available, least and first in rotation among the least |
| PoolRuns.SelectWindow | internal/auth/pool.go:183-193 | after a successful selection every available clock lies in [now − weightTick, now] and the least is exactly now − weightTick |
| PoolRuns.StepNoneAhead | internal/auth/pool.go:63-99 | no operation leaves a clock ahead of wall time |
| PoolRuns.ClocksStayBehind | internal/auth/pool.go:56-99 | over any run of all operations no clock is ahead of wall time and ids, weights and credentials never change |
| PoolRuns.SelectKeepsOrder | internal/auth/pool.go:85-99 | renormalisation keeps the clock differences of all accounts not picked |
| PoolRuns.OtherEventsKeepClock | internal/auth/pool.go:274-358 | errors, successes, locks and purges leave clocks and rotation alone |
| Fairness.SelectLead | internal/auth/pool.go:157-199 | one selection moves the lead between two available accounts by exactly the ticks charged, up to the wall time elapsed |
| Fairness.FairFromWindow | internal/auth/pool.go:50-99 | from clocks within one window, charges differ by at most one full tick plus elapsed time, after accounting for the initial lead |
| Fairness.WeightedFairness | internal/auth/pool.go:50-99 | over any run, picks × tick of two accounts in rotation differ by at most 2 × weightTick + time since the first selection, whatever other accounts do |
| Fairness.PickMoves | internal/auth/pool.go:77-99 | a pick moves its clock by a full tick divided by the configured weight, rounded down, and by exactly one nanosecond above a full tick of weight |
| Fairness.PicksFollowWeights | internal/auth/pool.go:50-99 | in the weight fields alone: over any run, picks of two accounts in rotation stand in the proportion of their weights, up to two ticks, the time since the first selection and a nanosecond for each pick |
| Fairness.SparsePicksRotate | internal/auth/pool.go:56-67 | when selections are at least one full tick apart, the accounts of any pool are picked in turn, whatever their weights |
| Fairness.ElapsedTimeIsNeeded | internal/auth/pool.go:50-99 | for every bound there is a run of two accounts in rotation whose picks × tick differ by more |
| Starvation.CatchUpIsCeiling | internal/auth/pool.go:77-83 | the number of ticks needed to catch up is the rounded-up quotient |
| Starvation.ClampRank | internal/auth/pool.go:63-67 | the passing of wall time (clamping) never raises an account's rank |
| Starvation.SelectRank | internal/auth/pool.go:157-199 | every selection that passes an account over lowers its rank |
| Starvation.RankBoundsWait | internal/auth/pool.go:136-199 | an account not yet picked has seen fewer selections than its initial rank |
| Starvation.RankAtSelection | internal/auth/pool.go:136-199 | at a selection the rank is within n + Σ ceil(weightTick / tick) |
| Starvation.NoStarvation | internal/auth/pool.go:136-199 | with a steady set of available accounts, each is picked within n + Σ over the other available ones of ceil(weightTick / tick) selections |
| PoolHealth.RunsStayBounded | internal/auth/pool.go:274-329 | over any run backoff levels stay in 0..5 and cooldowns within 300 s of now; model locks too, unless a longer one is asked for explicitly, and then within the longest asked for |
| PoolHealth.ScopedErrorIsLocal | internal/auth/pool.go:274-329 | a model-scoped 429 changes availability only for that account and model, where it lasts exactly the cooldown for that model's level |
| PoolHealth.UnscopedErrorBenches | internal/auth/pool.go:290-315 | any other error benches the account exactly for 429, 5xx, 401 and 403 |
| PoolHealth.ErrorBenchesUntilSuccess | internal/auth/pool.go:136-155 | an account in error is neither selected nor pinned in any run without a success for it |
| PoolHealth.PinPassesTheGates | internal/auth/pool.go:213-244 | a pin succeeds exactly when the account exists and is healthy for the model; it then raises only that clock |
| PoolHealth.BackoffDoubles | internal/auth/errors.go:135-174 | any account-scoped rate limits in a row, at any times and with any messages, reach level min(n, 5) and a cooldown of 1000 ms doubled per level, or the longest after a billing signal; a success undoes them |
| PoolHealth.PurgeIsInvisible | internal/auth/pool.go:409-425 | purging expired locks changes no account's health for any model, now or later |
| PoolHealth.AlikeRuns | internal/auth/pool.go:248-254 | pools that differ only in expired locks make the same picks in any later run |
| PoolHealth.ExpiryChangesNoPick | internal/auth/pool.go:409-425 | ExpiredLocks changes no later pick, whatever follows but model-scoped errors (whose level a purge resets) |
| PoolHealth.PurgeShortensNextLockIff | internal/auth/pool.go:409-425 | what a purge does change: the next model-scoped 429 locks the model for less, exactly when an expired lock with a positive level was purged and the error is no billing signal |
| DrainGate.DrainGate.EnterRequest | internal/gateway/drain.go:39-47 | admits exactly when the gate is not draining, and then adds one to the count |
| DrainGate.DrainGate.ExitRequest | internal/gateway/drain.go:51-61 | takes one off the count, and the last one out of a draining gate closes the channel and clears it |
| DrainGate.DrainGate.Arm | internal/gateway/drain.go:78-92 | the gate drains from now on; the first closer with requests in flight makes the channel, later ones share it |
| DrainGate.NextKeepsInv | internal/gateway/drain.go:39-107 | every step of every process keeps the protocol's invariant |
| DrainGate.DrainSafety | internal/gateway/drain.go:39-107 | in every interleaving resources close at most once, the channel is made and closed at most once, the counter is the number of requests being served, and without expiry nothing is served from the close on |
| DrainGate.NothingAdmittedAfterArming | internal/gateway/drain.go:39-47 | once armed, every later run serves the same requests minus those that exit |
| DrainGate.OpenGateAdmitsAll | internal/gateway/drain.go:39-47 | over any run without arming, from any state not draining, every request is admitted: those served are those that came minus those that left |
| DrainGate.NothingRefusedBeforeArming | internal/gateway/drain.go:39-47 | so the counter of a gate never armed is the requests that came minus those that left |
| DrainGate.ReturnedMeansClosed | internal/gateway/drain.go:71-107 | a closer that returns finds the resources closed |
| DrainGate.ExpiryClosesUnderRequests | internal/gateway/drain.go:94-107 | the run in which an expired context closes resources while a request is served |
| DrainGate.BlockedOnlyByRequests | internal/gateway/drain.go:51-61 | a closer waits on an open channel only while a request is served: no lost wake-up |
| DrainGate.FinishingLowersRank | internal/gateway/drain.go:51-107 | every exit, wake-up, expiry and close lowers the ranking |
| DrainGate.StuckMeansFinished | internal/gateway/drain.go:78-107 | a draining system with no such step left has every closer returned and no request served |
| DrainGate.FinishingRunsAreShort | internal/gateway/drain.go:51-107 | no schedule of such steps is longer than the ranking |
| DrainGate.DrainCompletes | internal/gateway/drain.go:78-107 | from every reachable draining state, admitted requests finishing leads to the close without any expiry |
| JsonScanner.Scanner.SkipIgnorable | cmd/nenya/config_splice.go:34-47 | the cursor lands past every blank and comment |
| JsonScanner.Scanner.SkipComment | cmd/nenya/config_splice.go:51-70 | the cursor lands at the newline or past the closing pair; it stays where it was when neither kind opens or a block never closes |
| JsonScanner.Scanner.SkipStringLiteral | cmd/nenya/config_splice.go:74-93 | the cursor lands past the first unescaped quote and the literal is decoded |
| JsonScanner.Scanner.SkipOneValue | cmd/nenya/config_splice.go:96-120 | the span of one value, and failure exactly where the specification fails |
| JsonScanner.Scanner.SkipCompositeValue | cmd/nenya/config_splice.go:124-155 | the span of a bracketed value, strings and comments skipped whole |
| JsonScanner.ObjectKeySpan | cmd/nenya/config_splice.go:159-190 | the span of a key's value, or not found |
| JsonScanner.ObjectInsertOffset | cmd/nenya/config_splice.go:195-219 | the offset after the last value the scan believes in, and whether it saw none |
| JsoncGrammar.CommentSkipped | cmd/nenya/config_splice.go:51-70 | the comment scan consumes exactly one printed comment |
| JsoncGrammar.IgnorableSkipsTrivia | cmd/nenya/config_splice.go:34-47 | any blanks and comments are skipped, whatever follows |
| JsoncGrammar.StringSkipped | cmd/nenya/config_splice.go:74-93 | a string literal is consumed exactly, escapes included, and yields its text |
| JsoncGrammar.CompositePastValue | cmd/nenya/config_splice.go:124-155 | bracket counting crosses any well-formed nested value with its depth unchanged, brackets in strings and comments included |
| JsoncGrammar.ValueSkipped | cmd/nenya/config_splice.go:96-120 | a well-formed value is consumed exactly if it is no scalar or a delimiter follows; a scalar followed by anything else is over-read |
| JsoncGrammar.ScalarSwallows | cmd/nenya/config_splice.go:96-120 | a scalar with glued comments that hold no stop byte is read up to the first blank, line break or delimiter after them |
| JsoncGrammar.BytesThatCount | cmd/nenya/config_splice.go:34-47 | the blanks, and the bytes that end a scalar, are exactly those of JSON |
| JsoncTree.KeySpanFinds | cmd/nenya/config_splice.go:159-190 | when no comment glued to a scalar before the wanted key holds a stop byte, the key search finds the first member of that name in the parsed object, or none |
| JsoncTree.LookupIsGet | cmd/nenya/config_splice.go:236-297 | under that condition on every object of the path, following it in the bytes fails exactly when the parsed document lacks it, and yields its exact text if and only if no comment is glued to a scalar there |
| JsoncTree.LookupReads | cmd/nenya/config_splice.go:96-120 | under that condition, the exact bytes read: the text of the value, and of a scalar what is glued to it up to the first stop byte |
| JsoncTree.LookupReadsComment | cmd/nenya/config_splice.go:96-120 | without that condition a lookup can read a member out of a comment, whatever else the document holds |
| JsoncTree.PostAtDelimits | cmd/nenya/config_splice.go:96-120 | "no comment glued" is the same as a delimiter byte following the value |
| JsoncTree.PutBytes | cmd/nenya/config_splice.go:262-279 | changing one value of the parsed document changes exactly its span in the text |
| JsoncTree.GetPut | cmd/nenya/config_splice.go:236-297 | reading below a changed value reads the new value |
| JsoncTree.PutReadableApart | cmd/nenya/config_splice.go:236-297 | paths apart from the changed one read the same values and stay readable, if a new scalar has no comment with a stop byte glued behind it |
| ConfigSplice.NestRemaining | cmd/nenya/config_splice.go:301-318 | the two loops build the nested member text |
| ConfigSplice.InsertMember | cmd/nenya/config_splice.go:321-336 | the member goes to the insertion offset, with a comma exactly when the object had a member |
| ConfigSplice.BuildNestedDocument | cmd/nenya/config_splice.go:339-347 | the fresh document for an empty file |
| ConfigSplice.SpliceConfigKey | cmd/nenya/config_splice.go:236-297 | empty documents, refusals, replacement and insertion in the source's order |
| SpliceLaws.NestTextIsNested | cmd/nenya/config_splice.go:301-318 | the generated text is the printed form of nested single-member objects, for any depth and indent |
| SpliceLaws.RepeatIs | cmd/nenya/config_splice.go:301-318 | indentation is the unit repeated |
| SpliceLaws.NestedGet | cmd/nenya/config_splice.go:301-318 | in that nest the wanted path holds the leaf and every path apart from it is absent |
| SpliceLaws.InsertPointFinds | cmd/nenya/config_splice.go:195-219 | when the scan keeps in step with the members, it ends after the last value and what is glued to it |
| SpliceLaws.ScanEndIsAfterLast | cmd/nenya/config_splice.go:195-219 | that is where a new member belongs, unless the last value is read together with a line comment; then it is at the end of that comment |
| SpliceLaws.LineCommentSwallowsComma | cmd/nenya/config_splice.go:321-336 | in that case the comma is commented out: after the last value the new key is the next token |
| SpliceLaws.TightObjectMisplacesInsertion | cmd/nenya/config_splice.go:195-219 | for every object whose first member is a tight nested object without stop bytes inside, the offset falls inside that nested object, before its closing brace |
| SpliceLaws.TightBlockMisplacesInsertion | cmd/nenya/config_splice.go:195-219 | for every object whose first member is a tight nested object that opens with a blank or a line break and whose members keep the scan in step, the offset is that for a new member of the nested object |
| SpliceLaws.TightArrayStopsInsertion | cmd/nenya/config_splice.go:195-219 | for every object whose first member is a tight array without stop bytes inside, the scan fails |
| SpliceLaws.ExtendedFinds | cmd/nenya/config_splice.go:321-336 | a member added to an object is found under its key, exactly readable if and only if no comment follows a new scalar; present keys find what they found before, and so do absent ones if no stop byte is in such a comment |
| SpliceTheorems.SpliceReplaces | cmd/nenya/config_splice.go:262-279 | replacing a present path gives the document with that value changed if and only if the old value is no scalar with a comment glued to it; that document differs in the value's span only and is well-formed |
| SpliceTheorems.ReplaceThenRead | cmd/nenya/config_splice.go:236-297 | looking the path up again yields exactly the encoded bytes if and only if the new value is no scalar with a comment glued behind |
| SpliceTheorems.TopLevelReplaceThenRead | cmd/nenya/config_splice.go:262-279 | for a top-level key, also where the comment glued to the old scalar is damaged: it reads back exactly if and only if the old value is a scalar or the new one has no comment glued behind it |
| SpliceTheorems.ReplaceKeepsOthers | cmd/nenya/config_splice.go:236-297 | every path neither above nor below yields the same bytes as before, glued comments included, if a new scalar has no comment with a stop byte glued behind it |
| SpliceTheorems.ReplaceUncoversComment | cmd/nenya/config_splice.go:262-279 | without that an absent key is read out of the comment behind the new scalar |
| SpliceTheorems.DescendsTo | cmd/nenya/config_splice.go:256-290 | the loop reaches the deepest existing object with the remaining keys |
| SpliceTheorems.SpliceInserts | cmd/nenya/config_splice.go:280-336 | when the scan keeps in step with the parent's members, setting an absent path gives the document with the path added if and only if the last value is not read together with a line comment; that document has one run of bytes inserted, all others in order, and is well-formed |
| SpliceTheorems.InsertThenRead | cmd/nenya/config_splice.go:280-336 | after a right insertion, looking the new path up yields exactly the encoded bytes if and only if it is no scalar put in front of a comment |
| SpliceTheorems.InsertKeepsOthers | cmd/nenya/config_splice.go:280-336 | all lookups of other paths that are present yield the same bytes, glued comments included, and of absent ones too if no comment behind a new scalar holds a stop byte |
| SpliceTheorems.InsertUncoversComment | cmd/nenya/config_splice.go:321-336 | without that an absent key is read out of the comment behind the new scalar |
| SpliceTheorems.SpliceRefuses | cmd/nenya/config_splice.go:256-290 | a path through a value that is no object is refused, naming the depth of that value |
| SpliceTheorems.SpliceRefusesTightArray | cmd/nenya/config_splice.go:321-336 | so a missing path is not added to an object that starts with such an array, and nothing is written |
| SpliceTheorems.FreshThenRead | cmd/nenya/config_splice.go:339-347 | on a blank file the result is a well-formed document in which the path reads the encoded bytes |
| SpliceTheorems.WhiteSpaceIsEmpty | cmd/nenya/config_splice.go:236-252 | any file of white space only becomes the fresh document |
| SpliceTheorems.EmptyComponentRefused | cmd/nenya/config_splice.go:236-252 | an empty path component is refused on every document |
| SpliceTheorems.CommentsOnlyRefused | cmd/nenya/config_splice.go:253-257 | a file that holds comments and no value is refused, so no comment is lost |
| SpliceTheorems.OtherRootsRefused | cmd/nenya/config_splice.go:253-257 | so is every document whose root is no object |
| SpliceTheorems.EditsStayInsideRoot | cmd/nenya/config_splice.go:236-297 | on any text that is not all white space, well-formed or not, an edit that succeeds keeps every byte up to and including the brace that opens the root |
| SpliceTheorems.FoundFollowsKey | cmd/nenya/config_splice.go:159-190 | in any text, the value found for a key stands after a literal that decodes to that key and a colon, and ends where a value read there ends |
| SpliceTheorems.ValueIsClosed | cmd/nenya/config_splice.go:96-155 | in any text, what is taken for a value is a literal that decodes, whole tokens up to a closing bracket of its kind, or bytes that end no scalar |
| StripComments.SkipLineComment | config/loading.go:381-386 | the index of the line's end |
| StripComments.SkipBlockComment | config/loading.go:388-396 | the index past the closing pair, or the end |
| StripComments.IsUnescapedQuote | config/loading.go:398-404 | true exactly after an even run of backslashes |
| StripComments.StripCommentBytes | config/loading.go:357-379 | the cursor loop computes the stripped text |
| StripComments.LexPartitions | config/loading.go:357-379 | the forward lexer's pieces are the input's bytes, in order |
| StripComments.StripFollowsLexer | config/loading.go:357-404 | loop and lexer visit the same bytes in the same mode if and only if no string opens after an odd run of backslashes |
| StripComments.StripRemovesComments | config/loading.go:357-404 | then exactly the comment bytes are removed, string bytes verbatim |
| StripComments.StripTwiceIff | config/loading.go:357-404 | for every input, stripping twice is stripping once if and only if no comment mark is in a string for the first pass and outside strings for the second, decided by one forward walk |
| StripComments.StripIdempotent | config/loading.go:357-404 | without a backslash outside strings and comments, exactly the comments are removed and stripping twice is stripping once |
| StripComments.LooseBackslashBreaksIdempotence | config/loading.go:398-404 | an input with such a backslash that a second pass changes |
| LoaderView.BlockCommentsAgree | config/loading.go:388-396 | editor and loader end a block comment at the same place if and only if it is no longer than three bytes or no slash follows its opening mark |
| LoaderView.LineCommentsAgree | config/loading.go:381-386 | they end a line comment at the same place if and only if no carriage return comes before the editor's end of it |
| LoaderView.CommentsDisagree | config/loading.go:381-396 | an input for each disagreement |
| LoaderView.StrippedIsErased | config/loading.go:357-379 | on well-formed documents whose comments both end alike, without a backslash outside strings, stripping yields the parsed document printed without its comments |
| LoaderView.LoaderReads | config/loading.go:357-379 | in the stripped document every path reads exactly its value, whatever comments were glued to what, and absent paths nothing |
| LoaderView.ReplaceThenLoad | cmd/nenya/config_splice.go:262-279 | after a replacement the stripped document has the new value at the path |
| LoaderView.InsertThenLoad | cmd/nenya/config_splice.go:280-336 | after a right insertion too, without any condition on comments behind the new value |
| ConfigMerge.MergeValue | config/loading.go:246-273 | the type-directed dispatch computes the merge |
| ConfigMerge.MergePointer | config/loading.go:277-289 | pointers to structs merge through, others are replaced |
| ConfigMerge.MergeStruct | config/loading.go:292-305 | the loop merges field by field |
| ConfigMerge.MergeMap | config/loading.go:319-352 | the loop over the overlay's keys merges entry by entry and keeps the base's others |
| ConfigMerge.MergeDropIns | config/loading.go:181-189 | the drop-in loop is the fold from the base |
| ConfigMerge.MergeZero | config/loading.go:238-273 | an empty drop-in changes nothing |
| ConfigMerge.MergeIdempotent | config/loading.go:238-352 | merging a config into itself changes nothing |
| ConfigMerge.MergeAssociative | config/loading.go:238-352 | on all well-typed values of all types, merging associates |
| ConfigMerge.ZeroMerge | config/loading.go:238-352 | merging into the zero config gives the overlay with reachable empty maps nil, and the overlay itself exactly when there is none |
| ConfigMerge.FoldIsOneMerge | config/loading.go:181-189 | folding drop-ins one by one is one merge of the drop-ins folded beforehand |
| ConfigMerge.MergeSettings | config/loading.go:246-352 | at every path the overlay's explicit setting wins, else the base's is kept; what a setting is follows the shape of the types alone |
| ConfigMerge.SharedStructsMerge | config/loading.go:319-352 | a key that both files have in a map of structs or of pointers to structs merges field by field, each setting being the overlay's if it makes one |
| ConfigMerge.OtherEntriesReplaced | config/loading.go:319-352 | in maps of anything else the overlay's entry stands whole, and a key that one file has is taken from it |
| ConfigMerge.FoldSettings | config/loading.go:181-189 | after all drop-ins each path has the last explicit setting |
| SignatureCache.ThoughtSignatureCache.Store | internal/infra/cache.go:51-76 | the new map and recency list, eviction only for a new key in a full cache |
| SignatureCache.ThoughtSignatureCache.Load | internal/infra/cache.go:80-98 | hits move the key to the front and renew nothing else; expired entries are removed and missed |
| SignatureCache.ThoughtSignatureCache.EvictLocked | internal/infra/cache.go:102-119 | expired entries go first, then the least recent until there is room |
| SignatureCache.StoreIsSeen | internal/infra/cache.go:51-119 | a store is seen for exactly the time to live and costs at most one other key its entry: with a new key, a full cache and nothing expired, the least recently touched |
| SignatureCache.LoadOnlyLooks | internal/infra/cache.go:51-98 | a lookup changes no later answer for any key, leaves under its key only a live entry at the head of the list, and removes nothing else; storing nothing does nothing |
| SignatureCache.DefaultsApply | internal/infra/cache.go:34-47 | sizes and times that are not positive mean 1000 entries and ten minutes |
| SignatureCache.RunKeepsValid | internal/infra/cache.go:51-119 | over any run map and list hold the same keys, without repetition, within the maximum size |
| SignatureCache.HitsAreLastAndLive | internal/infra/cache.go:80-98 | after any run a hit returns the key's last stored value, within its TTL |
| SignatureCache.StepRetains | internal/infra/cache.go:51-119 | with few enough distinct other keys touched, no operation drops a live key |
| SignatureCache.TouchHeadsList | internal/infra/cache.go:51-98 | a store or a hit puts its key at the head of the list |
| SignatureCache.RecentKeyHits | internal/infra/cache.go:51-119 | a key touched last with fewer than the maximum of distinct other keys touched since must hit with its last stored value until its time to live after that store has passed |
| SignatureCache.ScopesCollideIff | internal/infra/cache.go:157-182 | two scopes can build the same key exactly when one followed by the separator begins the other |
| SignatureCache.ScopesAreIsolated | internal/infra/cache.go:157-182 | without the separator in scopes, a hit through a view returns the last value stored through that same scope |
| ToolPairing.CollectToolMessages | internal/adapter/anthropic_request.go:793-809 | the batch is the run of tool messages, and the index is left on its last one or on the element that stopped it |
| ToolPairing.BuildValidatedToolResults | internal/adapter/anthropic_request.go:832-851 | one result per message whose id is among the open calls |
| ToolPairing.ConvertMessages | internal/adapter/anthropic_request.go:562-642 | the loop with its moved index computes the conversion |
| ToolPairing.SanitizeOrphanedToolUse | internal/adapter/anthropic_request.go:649-688 | the in-place pass computes the sanitised turns |
| ToolPairing.SanitizeTurnFacts | internal/adapter/anthropic_request.go:649-787 | a sanitised assistant turn calls exactly what the next turn answers, keeps all else, and is given a placeholder only when emptied |
| ToolPairing.IdsAre | internal/adapter/anthropic_request.go:691-734 | the ids called are those of the tool-use blocks, and those answered are those of the result blocks of a user turn that follows |
| ToolPairing.SanitizedBlocks | internal/adapter/anthropic_request.go:756-787 | an assistant turn keeps its blocks in order but for the unanswered calls, and says `...` exactly if that empties it; all other turns stay |
| ToolPairing.SanitizedTurns | internal/adapter/anthropic_request.go:649-688 | every turn of several is cut by the turn right after it, a single turn by none |
| ToolPairing.ResultsAreAnswers | internal/adapter/anthropic_request.go:832-851 | the results of a batch are its answers to open calls, in order, with their text |
| ToolPairing.EveryCallIsAnswered | internal/adapter/anthropic_request.go:562-787 | spelled out in blocks: every call with an id is answered in the next turn, a user turn, if and only if the result is not a single assistant turn that calls something |
| ToolPairing.EveryResultAnswers | internal/adapter/anthropic_request.go:562-851 | every tool result answers a call of the turn just before, if and only if no kept system or trailer message separates an answering batch from its assistant |
| ToolPairing.KeptReminderSeparates | internal/adapter/anthropic_request.go:562-642 | a conversation with a kept system message in which it does |
| ToolPairing.ConvertKeepsSpeech | internal/adapter/anthropic_request.go:562-642 | leaving out result turns, conversion yields one turn per spoken message, in order; which system messages are spoken, and as what, is spelled out |
| ToolPairing.WithoutToolsAllSpoken | internal/adapter/anthropic_request.go:562-642 | without tool messages the turns are just the spoken ones |
| ToolPairing.DirectAnswersAreKept | internal/adapter/anthropic_request.go:793-851 | answers directly after an assistant turn all reach the user turn that follows it |
| ZaiMessages.CollectValidToolCallIDs | internal/adapter/zai.go:161-197 | the ids of all calls of assistant messages |
| ZaiMessages.ShouldDrop | internal/adapter/zai.go:231-266 | the three reasons to drop a message |
| ZaiMessages.FilterMessages | internal/adapter/zai.go:205-229 | exactly the messages not dropped, in order |
| ZaiMessages.StaysUnlessDropped | internal/adapter/zai.go:231-266 | whom the filter keeps, listed by role: all raw elements and system messages, assistants with text or calls, tool messages that answer some assistant's call, others with text |
| ZaiMessages.FilterIsStaying | internal/adapter/zai.go:205-266 | filtering leaves the in-order subsequence of those |
| ZaiMessages.MergeSequentialMessages | internal/adapter/zai.go:271-315 | the loop computes the merge stage |
| ZaiMessages.Sanitize | internal/adapter/zai.go:109-159 | the payload changes exactly when tools are absent and a length differs |
| ZaiMessages.NormalizedShape | internal/adapter/zai.go:271-342 | no adjacent users, no adjacent assistants, no leading user |
| ZaiMessages.ToolsAnswerCalls | internal/adapter/zai.go:161-266 | every tool message kept answers a call still present |
| ZaiMessages.MergeKeepsText | internal/adapter/zai.go:271-315 | all other messages survive in order, and user text survives in order with the bridges' text between |
| ZaiMessages.NormalizedKeepsText | internal/adapter/zai.go:109-342 | of the whole rewrite: filtering drops no user text, all of it survives in order with the bridges' text between, and every other message the filter keeps survives in order after the system bridge, if there is one |
| ZaiMessages.RewriteKeeps | internal/adapter/zai.go:109-342 | the same from the input, without naming the filter: of the messages other than a user's exactly those that stay by their role, text, calls and ids survive, in order |
| ZaiMessages.NormalizeIdempotent | internal/adapter/zai.go:109-342 | normalising again changes nothing |
| ZaiMessages.MergeLength | internal/adapter/zai.go:271-315 | the merge stage's length change is bridges minus merges |
| ZaiMessages.MissedExactlyWhenBalanced | internal/adapter/zai.go:109-159 | length comparison misses a rewrite exactly when everything is filtered, or when nothing is filtered or prepended and bridges equal merges, both positive |
| ZaiMessages.ChangeIsDetected | internal/adapter/zai.go:109-159 | from the input: a rewrite is put in place exactly when some message stays, and one is dropped, a user leads, or pairs of users and of assistants differ in number |
| KeyLimits.KeyUsageTracker.AllowRequest | internal/auth/keylimits.go:56-81 | window, count and verdict of one request |
| KeyLimits.KeyUsageTracker.ChargeKeyTokens | internal/auth/keylimits.go:86-107 | day, total and verdict of one charge |
| KeyLimits.KeyUsageTracker.AllowProviderTokens | internal/auth/keylimits.go:114-139 | provider total and verdict, by tier |
| KeyLimits.RateBound | internal/auth/keylimits.go:56-81 | over any run with limit r, any half-open minute admits at most 2r − 1 requests of a key |
| KeyLimits.RateBoundIsReached | internal/auth/keylimits.go:56-81 | for every r a run admits 2r − 1 |
| KeyLimits.RefusedOnlyWhenFull | internal/auth/keylimits.go:56-81 | a request under a limit is refused only if the limit was used up within the last minute |
| KeyLimits.NeverRefused | internal/auth/keylimits.go:56-139 | without a positive limit or budget everything is admitted and nothing recorded, the always tier is admitted whatever the budget, and a call touches no other key and no other record |
| KeyLimits.DailyBudgetBound | internal/auth/keylimits.go:86-107 | tokens charged to a key in one UTC day never exceed its budget |
| KeyLimits.KeyRecordIsSum | internal/auth/keylimits.go:86-107 | a key's record is the sum of its admitted charges of the day |
| KeyLimits.KeyWithinBudget | internal/auth/keylimits.go:86-107 | a charge is admitted exactly when the key's total of that UTC day with it is within budget |
| KeyLimits.DaysAre | internal/auth/keylimits.go:172-178 | a day runs from one UTC midnight to the next |
| KeyLimits.RecordIsSum | internal/auth/keylimits.go:114-139 | the provider's record is the sum of the day's admitted charges |
| KeyLimits.ProviderWithinBudget | internal/auth/keylimits.go:114-139 | a charge outside the always tier is admitted exactly when the day's admitted total with it is within budget |
| ModelCatalog.ModelCatalog.Add | internal/discovery/discovery.go:101-112 | both indexes after adding an entry |
| ModelCatalog.ModelCatalog.GetModelsForProvider | internal/discovery/discovery.go:67-85 | the nested loops gather a provider's entries |
| ModelCatalog.ModelCatalog.Remove | internal/discovery/discovery.go:135-164 | both indexes after removing matching entries |
| ModelCatalog.ModelCatalog.AttachPricing | internal/discovery/discovery.go:166-182 | pricing of every model in the feed |
| ModelCatalog.ProviderLookupIsScan | internal/discovery/discovery.go:67-99 | the provider index finds exactly what a scan filtered by provider finds |
| ModelCatalog.AddAgrees | internal/discovery/discovery.go:101-112 | adding keeps the indexes in agreement and adds exactly that entry |
| ModelCatalog.RemoveAgrees | internal/discovery/discovery.go:135-164 | removing keeps them in agreement and removes exactly the matching entries |
| ModelCatalog.RemoveLeavesNothing | internal/discovery/discovery.go:135-164 | after a removal no slot is empty, and each provider lists exactly those of its ids that still have entries |
| ModelCatalog.AttachAgrees | internal/discovery/discovery.go:166-182 | attaching prices keeps them in agreement |
| ModelCatalog.FeedPricesItsModels | internal/discovery/discovery.go:166-182 | a feed prices every entry of the ids it lists with its own baseline rates, leaves all others alone, and changes nothing but prices |
| ModelCatalog.LookupAfterChanges | internal/discovery/discovery.go:67-182 | after any sequence of changes lookup by provider is the filtered scan |
| ModelCatalog.AttachedPeak | internal/discovery/discovery.go:166-203 | each of a variant's peak and cache rates afterwards is the feed's, else the first one among the variants up to it |
| ModelCatalog.AttachedBaseline | internal/discovery/discovery.go:166-203 | the baseline rates are the feed's for every variant |
| ModelCatalog.KeepsOwnPeakIff | internal/discovery/discovery.go:184-203 | without a rate of the feed's, a variant keeps its own peak or cache rate exactly when no earlier variant has set a different one |
| ModelCatalog.PeakLeaks | internal/discovery/discovery.go:166-182 | one variant's peak rate reaching another that had none |
| CatalogMerge.AddVariants | internal/discovery/merge.go:227-372 | the variant loops, adding to the merged catalog, compute entries and drops |
| CatalogMerge.MergeOne | internal/discovery/merge.go:227-372 | overridden, static and discovered models in that order of precedence |
| CatalogMerge.MergeCatalogWithDrops | internal/discovery/merge.go:47-69 | the loop over all model ids, in any order, yields the merged catalog and drop report |
| CatalogMerge.VariantsFacts | internal/discovery/merge.go:227-372 | the variants added have distinct providers, pass both filters and are all that should be there |
| CatalogMerge.VariantsMade | internal/discovery/merge.go:227-372 | each variant is made of the first discovered entry of its provider, and exactly the allowed non-chat pairs are reported as dropped |
| CatalogMerge.MergeModelWell | internal/discovery/merge.go:227-372 | the same for a whole model, its primary entry included |
| CatalogMerge.DiscoveredModelMade | internal/discovery/merge.go:227-372 | a model that is neither static nor overridden is taken over as discovered |
| CatalogMerge.PrimaryModelMade | internal/discovery/merge.go:227-372 | any other has its primary entry first and completed variants of other providers after it, with the precedence of every field spelled out; or nothing, if the primary provider is filtered out |
| CatalogMerge.MergedCatalogIsFiltered | internal/discovery/merge.go:47-69 | the catalog has the entries made for each known model and no others: one per provider, let through by both filters, of exactly the expected providers; the drop report is exactly that of the models and names no pair kept |
| PeakWindow.ParseClockComponent | config/entry.go:99-111 | one or two digits and their number, or nothing |
| PeakWindow.ParseClockMinutes | config/entry.go:82-96 | the minute of day, or nothing |
| PeakWindow.ClockShape | config/entry.go:82-111 | a time parses to a minute exactly when it is one or two digits up to 23, a colon, and one or two up to 59 |
| PeakWindow.ClockRoundTrip | config/entry.go:82-111 | every valid time printed in two digits each parses to its minute |
| PeakWindow.InsideIsTimeline | config/entry.go:26-59 | the case split on wrap-around and weekdays is membership of some day's interval |
| PeakWindow.ContainsIsTimeline | config/entry.go:26-59 | for every minute of an unbounded timeline, Contains holds exactly when some (week)day's window covers it |
| PeakWindow.WeekendsAre | config/entry.go:26-59 | weekends are 3 and 4 January 1970 and every seven days from them |
| PeakWindow.ComplementPartitions | config/entry.go:26-59 | without the weekday restriction, (s, e) and (e, s) partition time |

## Left out

- SpliceTheorems.SpliceInserts: nothing is stated when the scan is out of step with the members, but for the three tight families of SpliceLaws (two misplaced, one refused), each for the first member. What is left are tight strings, arrays and objects in which a closing bracket comes up, or in which a quote, an opening bracket or a comment mark comes first after a blank or comma: the scan then reads on from inside the value, and where it ends depends on the text that follows.
- SpliceLaws.InsertPointFinds: the same.
- JsoncTree.LookupIsGet: one direction in its condition on comments glued to passed scalars. A search that enters a comment can come out in step, as when the comment holds a whole member of another name.
- JsoncTree.KeySpanFinds: the same.
- SpliceTheorems.ReplaceThenRead: requires the old value to be read exactly. Otherwise the replacement damages the comment behind it (SpliceTheorems.SpliceReplaces); a top-level key still reads back (SpliceTheorems.TopLevelReplaceThenRead), but below an object whether it does depends on how the damaged comment closes.
- SpliceTheorems.ReplaceKeepsOthers: one direction in its condition on a comment behind the new scalar (SpliceTheorems.ReplaceUncoversComment shows a failing family), and in its conditions on passed scalars.
- SpliceTheorems.InsertKeepsOthers: one direction in the same conditions (SpliceTheorems.InsertUncoversComment).
- LoaderView.StrippedIsErased: documents with a slash right after a block comment's opening mark, a carriage return in a line comment or a backslash in a scalar are outside it. Reading the stripped text with `encoding/json` is not part of this model; the editor's own lookup stands for it.
- ModelCatalog.ModelCatalog.Add: the hasMetadata flag and the fetch time of the catalog are left out.
- PoolHealth.ExpiryChangesNoPick: later model-scoped errors are excluded, because a purge forgets the model's backoff level; exactly when that shortens the next lock is PoolHealth.PurgeShortensNextLockIff.
- Fairness.WeightedFairness: clocks loaded from disk are required not to lie in the future, which the source does not enforce.
- KeyLimits.RateBound: assumes the clock starts at least a minute after Go's zero time, and one fixed limit per key.
- AccountPool.AccountPool.SelectAccountExcluding: one instant per call; the context argument, the lock and logging are not modelled, and accounts are values in a field, so aliasing of account pointers is not captured.
- SignatureCache.ThoughtSignatureCache.Store: one instant per call where the source reads the clock again while evicting; the value copy of interface values is not modelled.
- JsonScanner.Scanner.SkipStringLiteral: decoding a literal (`encoding/json`) is a parameter, as are the encodings of keys and of the leaf value.
- SpliceTheorems.OtherRootsRefused: white space is that of ASCII. A root that is a bare run of vertical tabs and form feeds counts as white space, so the file is taken for empty, as in the source.
- ConfigSplice.SpliceConfigKey: splitting the dotted key and detecting the indent unit are left out; the unit is any blank text.
- JsoncGrammar.ValueSkipped: scalars are any run of bytes without stop bytes, quotes, brackets or slashes, which includes every scalar of section 3 of RFC 8259; string bodies include every string of its section 7.
- ConfigMerge.MergeValue: reflection, unexported fields and the sorting of drop-in files are left out; a config type is a datatype.
- ToolPairing.ConvertMessages: block construction (text, images, `convertToolCallToUse`) is an input; what is modelled is which blocks go where.
- ZaiMessages.Sanitize: messages are values. The source joins user text into the original message objects, so when it then reports no change the payload it leaves holds user text twice; only its caller MutateRequest, which then keeps the request body as it was, discards that. The extraction of text from multi-part content is an input.
- CatalogMerge.MergeCatalogWithDrops: metadata and the regular expressions are left out (filters are predicates); the drop report is a set of pairs, unsorted.
- Accounts.ContainsToken: lower-casing and trimming are those of ASCII.
- Integer widths, Duration saturation and floating point: counters and times are unbounded integers; prices are integers.
- Mutexes: only the drain gate is modelled step by step; every other method is one atomic step, as its lock makes it.
- The reverse Anthropic-to-OpenAI walk, usage conversion, billing, the Gemini adapter, provider wrappers, validators, secrets lookup: other components, or single-branch facts.
- Snapshots, listings and plain lookups (`AccountSnapshot`, `ListAccountIDs`, `Snapshot`, `Lookup`, `LookupAll`): they would add only easy members.
