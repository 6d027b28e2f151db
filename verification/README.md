# Trustay: a verified model of the stateful core

Trustay is a room-rental back end (NestJS) with a multi-agent chat that answers questions by generating SQL. This
project models, in Dafny, the parts of it whose correctness is a matter of whole runs, interleavings, graph
traversals or round trips, and proves what they keep. `dafny verify dfyconfig.toml` checks everything.

| module | models |
|---|---|
| `Realtime` | the connection index of the realtime gateway: two mirrored maps, the heartbeat sweep, and queued writes of the online flag |
| `Stringify` | the logger's cycle-safe JSON printer over an arbitrary object graph |
| `SqlText`, `SqlRetry` | the SQL agent: guarded reuse of a stored query, then the bounded self-correcting loop |
| `SqlSafety` | how the SQL safety check rewrites a statement it accepts, and what of its scope that keeps |
| `Decimal`, `Sanitizer` | the rewriting of any JavaScript value before it is stored, with the decimal rebuild |
| `Approval` | approving and rejecting pending knowledge, with all awaited calls interleaved, over the table of stored questions with its searches, upserts and unique indexes |
| `ChatSequence` | numbering, counting and clearing chat messages, and the title and summary jobs |
| `RefreshTokens` | refresh-token rotation, one operation at a time and with the database calls of all requests interleaved |
| `Apportion` | the sharing of rooms among landlords: shuffle, rounding, correction, hand-out |
| `PageContext` | entity to URL path, to page context, to `[CONTEXT]` message, and back |
| `IntentHints` | the `[INTENT]` messages one service writes and another reads |
| `Orchestrator` | the reader of `MISSING_PARAMS` and the readiness decision |
| `ChatRun` | one chat turn across all agents, with the real SQL agent and hint readers inside |
| `Text`, `Session` | string operations and chat messages shared by the others |

Code that works in place is modelled as classes and loops (`RealtimeService`, `Replacer`, `PendingKnowledgeService`,
`ChatSessionService`, `AuthService`, `ChatSession`, `AiService`, the shuffle and the retry loop). Each method is
proved equal to a function of the old state, and the lemmas prove what that function keeps over every run. The
language model, the SQL safety check, the database answers, vector searches, clocks and random draws are inputs, so
every statement holds for all their behaviours.

## Where the code does not do what one might expect

Each of these is a theorem below, with the exact condition where the behaviour depends on one.

- A socket that registers again under another user stays in the first user's set, and after it has gone that user
  stays online for as long as the socket id does not come back (`RegisterMirrorsIff`, `ReregisteredSocketLeaks`).
- The stored online flag is right exactly when the value that landed last is the value issued last
  (`FlagIsTruthfulIff`): it goes wrong when writes land out of order (`SwappedWritesLeaveStaleFlag`) or fail, and a
  user whose flag was true when the process started keeps it until some handler writes it.
- A sanitised value is not always plain JSON: an invalid Date passes through, and the copy of an Error without a
  stack keeps an undefined field (`SanitizedIsJsonIff`). One pass is not idempotent (`PassIsNotIdempotent`).
- A rejection that read the row before an approval was committed overturns that approval, and nothing else does
  (`OverturnedIff`, `ApprovalCanBeOverturned`).
- An approval may store nothing although its question is unknown: exactly when a near question is reused, a near
  question has the same SQL, or a stored question has the same SQL template, which answers for any question
  (`QuestionStoredIff`). An upsert by template overwrites only what was stored after its own template lookup, unless that lookup
  ignored an error (`OverwritesOnlyLater`): of two approvals that race for one template both succeed, and the second
  overwrites the question of the first (`RacedUpsertOverwrites`).
- The exact search may miss a stored question that normalises alike, and then a twin of it can be stored
  (`ExactFindsIff`, `TwinStoredIff`).
- Interleaved adds number messages too low (`NumberLagsByCreatesBetween`). A clear keeps the counter right exactly
  when as many increments fall between its deletion and its reset as there were uncounted rows at the deletion
  (`ClearKeepsCountIff`, `OneAddOneClear`, `OverlappingClearLosesCount`).
- With interleaved logins and refreshes a user can hold several accepted refresh tokens, and one token can be
  accepted twice: exactly when nothing has cleared its user or removed it in between (`OneRowIff`,
  `AcceptedTwiceIff`, `InterleavedIssuesLeaveTwo`, `TwoRefreshesLeaveTwo`).
- With the shipped table, whose percentages add up to 150, the first landlord receives nothing once there are three
  rooms or more (`FirstLandlordStarves`).
- The route of a post is not known to the page parser; a `$` pattern in an identifier is expanded; an identifier that
  contains `Type:` is read back with a wrong type (`PathRoundTripIff`, `MessageRoundTripIff`, `TypeInIdentifierMisleads`).
- When SQL generation fails, the logged token total leaves out what its attempts used (`FailedSqlForgetsTokens`).
  When it succeeds and the response generator, the validator or the assembly of the reply then throws, the catch
  block (src/ai/ai.service.ts:2088-2125) logs no tokens at all, not even the orchestrator's
  (`ServedSqlCountsAllIff`). The log status "partial" cannot occur (`PartialNeverHappens`).
- The owner filter of a personal question is normalised for the SQL agent, but the agent's check enforces only the
  first slug or id filter of a hint, so any query passes it (`HintEnforcedIff`, `FirstFilterIsRequired`,
  `OwnerHintIsNotEnforced`).
- The reuse guard looks for UUIDs before it fills in the user's id, so a UUID can be formed across the edge of the
  inserted id (`FilledCanFormUuid`); in the text it lets pass there is none elsewhere (`ReuseIsScoped`).
- That is not yet the text that runs: the safety check strips the comments afterwards. An id in a comment satisfies
  the guard and is gone when the query runs (`CommentHidesScope`), and a comment inside an id hides it from the guard
  and is then taken out (`CommentHidesId`). The executed text is scoped exactly when the check does not rewrite it or
  it is scoped without its comments (`ExecutedReuseIsScopedIff`).
- The comment at src/ai/ai.service.ts:107 says that the SQL agent reads the first `[INTENT]` message; the code reads
  the last one, and the model follows the code.

## Model

| member | source | states |
|---|---|---|
| Realtime.RunKeepsIndex | src/realtime/realtime.service.ts:33-161 | In every state reachable by registers, unregisters, pongs, sweeps and landing writes, each mapped socket sits in its user's set and has a health entry and no set is empty; while sockets keep their user the two maps are exact inverses |
| Realtime.RegisterMirrorsIff | src/realtime/realtime.service.ts:33-53 | A register keeps the maps exact inverses if and only if the socket is unmapped or already mapped to that user |
| Realtime.UnregisterKeepsIndexed | src/realtime/realtime.service.ts:73-95 | Unregistering any socket, known or not, keeps the index invariant and keeps exact inverses exact |
| Realtime.SweepRemovesExactlyTheSilent | src/realtime/realtime.service.ts:204-223 | A heartbeat tick removes exactly the sockets silent for more than 60 s, from the health map, the forward map and their user's set, whatever the visiting order, and touches nothing else |
| Realtime.NoLongSilence | src/realtime/realtime.service.ts:190-231 | With a tick at least every 30 s, no registered socket has been silent for more than 90 s at any moment before the next tick is due |
| Realtime.WhoAnswersStaysMapped | src/realtime/realtime.service.ts:135-231 | A socket that registers, or is mapped and pongs, stays mapped and counted as heard for the next 60 s, whatever else happens and whatever is swept, unless it is unregistered |
| Realtime.PongWritesOnline | src/realtime/realtime.service.ts:135-161 | A pong refreshes the socket's health and writes the flag true for the user the socket is mapped to, and for nobody else |
| Realtime.FlagIsTruthfulIff | src/realtime/realtime.service.ts:54-161 | For every interleaving, in whatever order writes land and whether they succeed or fail: the stored flag says whether the user has a socket if and only if the value that landed last is the value issued last, or else the initial ones agree |
| Realtime.SettledFlagIsTruthful | src/realtime/realtime.service.ts:54-112 | So when a user's writes land in issue order and none fails, then once none is pending the flag is right if and only if it started false or some handler wrote it |
| Realtime.SwappedWritesLeaveStaleFlag | src/realtime/realtime.service.ts:54-112 | The order is needed: swapped writes of one connect and one disconnect leave the flag true for a user without sockets |
| Realtime.ReregisteredSocketLeaks | src/realtime/realtime.service.ts:44-47 | After a socket re-registers under another user and is unregistered, it stays in the first user's set, who stays online, through every later run in which that socket id does not register again |
| Realtime.RealtimeService.RegisterConnection | src/realtime/realtime.service.ts:33-71 | The new state of all maps and of the queued write is the one the run theorems are about |
| Realtime.RealtimeService.UnregisterConnection | src/realtime/realtime.service.ts:73-112 | Likewise: both maps, health and the queued write, also for an unknown socket |
| Realtime.RealtimeService.HandlePong | src/realtime/realtime.service.ts:135-161 | Likewise: a pong refreshes health even for an unregistered socket, and queues a write only for a mapped one |
| Realtime.RealtimeService.CheckConnectionHealth | src/realtime/realtime.service.ts:204-212 | The tick visits every health entry in some order, while it deletes from the map, and reaches the state of a sweep in that order |
| Realtime.RealtimeService.LandWrite | src/realtime/realtime.service.ts:55-70 | A queued write lands on the user's row, or is dropped when the row is missing or the update fails |
| Realtime.RealtimeService.IsUserOnline | src/realtime/realtime.service.ts:269-271 | Answers whether the user has a socket in the index |
| Stringify.ExpandsExactlyTheReachable | src/logger/logger.service.ts:25-36 | On any finite graph, cyclic or shared, the printer terminates and, unless it gives up, expands exactly the objects reachable from the root, each exactly once |
| Stringify.FallsBackIff | src/logger/logger.service.ts:37-39 | The printer falls back to String(value) if and only if a BigInt is reachable |
| Stringify.EveryReferenceIsAnswered | src/logger/logger.service.ts:28-36 | Conservation: an object referred to n times from the reachable part is expanded once and answered "[Circular]" n - 1 times |
| Stringify.CircularIffShared | src/logger/logger.service.ts:28-36 | "[Circular]" appears if and only if some object is referred to more than once |
| Stringify.OutputShowsGraph | src/logger/logger.service.ts:25-36 | Every printed tree shows the graph from the root: each printed object has exactly its printable slots in order, and nothing but a reference is cut |
| Stringify.SameAsPlainIffUnshared | src/logger/logger.service.ts:25-36 | The output equals that of a plain serialiser, which then ends, if and only if nothing reachable is shared |
| Stringify.SafeStringifyAnswers | src/logger/logger.service.ts:22-40 | A whole call falls back if and only if a BigInt is reachable, answers undefined if and only if the root cannot be printed, and otherwise prints a tree that shows the graph and is the plain serialiser's if and only if nothing is shared |
| Stringify.Replacer.Replace | src/logger/logger.service.ts:28-36 | The replacer answers a string for an object met before and otherwise remembers it |
| Stringify.Replacer.SerializeValue | src/logger/logger.service.ts:25-36 | The traversal with the mutated `seen` set ends with the tree and the set the graph theorems are about |
| Stringify.Stringify | src/logger/logger.service.ts:25-40 | One whole call: JSON, undefined for an unprintable root, or the fallback |
| SqlRetry.EveryRunIsObserved | src/ai/agents/sql-generation-agent.ts:541-817 | For every model, safety check and database: the loop returns or throws within 5 attempts and never falls out; adjacent failures have different keys except the last two of an early stop; a statement is executed if and only if it comes from a select, passed the safety check, contains the required literal and differs up to white space from the SQL recorded before; each log entry carries the tokens and SQL of its own model call, and a failed one the described text of what stopped it (the model's error, the first test that refused its SQL, or the database's message) under the key of that text; the next prompt is told the last error; and the token total is the sum |
| SqlRetry.EarlyStopIff | src/ai/agents/sql-generation-agent.ts:738-789 | A run stops early if and only if its last two attempts failed with the same key |
| SqlRetry.ExecutedFailuresStopIff | src/ai/agents/sql-generation-agent.ts:684-789 | A run whose last two attempts were executed and failed stops early if and only if the two database messages have the same key, so different database errors never stop it |
| SqlRetry.SameSqlIff | src/ai/agents/sql-generation-agent.ts:655-657 | Two statements count as the same if and only if they have the same words, whatever white space stands between them |
| SqlRetry.RepeatedTextStopsByThird | src/ai/agents/sql-generation-agent.ts:654-662 | A model that repeats one text is stopped by attempt 3 after at most one execution, for any safety check and database; only its first attempt can succeed |
| SqlRetry.SumUsageAddsUp | src/ai/agents/sql-generation-agent.ts:610-626 | The accumulated total holds, part by part, the sums of prompt, completion and total tokens over all attempts, and is missing exactly when no attempt reported any |
| SqlRetry.CountTokens | src/ai/agents/sql-generation-agent.ts:611-620 | A reported usage is never lost, and its total is 0 only if both parts are |
| SqlRetry.ReuseIsScoped | src/ai/agents/sql-generation-agent.ts:389-457 | A stored query runs only without a filter hint and as a safe select; for a personal question the text handed to the safety check names the current user, and every UUID in it overlaps an occurrence of the user's id |
| SqlRetry.ExecutedReuseIsScopedIff | src/ai/agents/sql-generation-agent.ts:389-460 | For a personal question the stored query that is executed is scoped like that if and only if the safety check does not rewrite it or its text without comments is; so it is whenever it opens no comment |
| SqlRetry.CommentHidesScope | src/ai/agents/sql-generation-agent.ts:413-459 | The stored query `select 1 -- USER_ID` passes the guard for every user id and runs as `select 1 LIMIT 50`, which names no user |
| SqlSafety.CommentHidesId | src/ai/utils/sql-safety.ts:143-148 | Any UUID cut anywhere by a comment is found by no search for UUIDs and is put together again when the comments are stripped |
| SqlSafety.LineCommentGoes | src/ai/utils/sql-safety.ts:143-148 | A line comment goes up to the end of its line, which stays |
| SqlSafety.BlockCommentGoes | src/ai/utils/sql-safety.ts:143-148 | A block comment goes up to its first closing mark |
| SqlSafety.LimitKeepsScope | src/ai/utils/sql-safety.ts:497-510 | Putting a limit at the end of a statement, and cutting off the one it ends with, neither adds to its scope nor takes from it |
| SqlSafety.LimitIsReplaced | src/ai/utils/sql-safety.ts:497-510 | The limit a statement ends with, whatever its number, gives way to the enforced one, and a final semicolon is lost with it |
| SqlSafety.SemicolonStaysLast | src/ai/utils/sql-safety.ts:497-510 | A final semicolon stays behind the limit that is put on |
| SqlText.FilledCanFormUuid | src/ai/agents/sql-generation-agent.ts:413-422 | The overlap need not be the whole id: filling can form a UUID that the scan before it could not see |
| SqlRetry.ProcessAccounts | src/ai/agents/sql-generation-agent.ts:541-732 | The reported tokens are exactly those of the logged attempts, the database is asked at most six times, and a reported query is the last one executed |
| SqlRetry.ExecutedMeetsHint | src/ai/agents/sql-generation-agent.ts:664-669 | Every statement of a call meets the filter hint, or is the stored query of a session without one |
| SqlRetry.GenerateWithRetries | src/ai/agents/sql-generation-agent.ts:541-818 | The loop with its mutated counters, logs and token total ends as the loop the theorems are about |
| SqlText.ErrorKey | src/ai/agents/sql-generation-agent.ts:89-103 | Every error, even an empty one, gets a non-empty key, so an early stop is never missed for want of a key |
| SqlText.PgCodeIsKey | src/ai/agents/sql-generation-agent.ts:89-94 | Failures with the same PostgreSQL code have the same key whatever their messages say |
| SqlText.PgCodeAtIff | src/ai/agents/sql-generation-agent.ts:93-94 | After the phrase a code is read exactly where blanks, five digits or letters, blanks and a colon stand; the leftmost counts (`FirstPgCode`, `NoPgCodeIff`) |
| SqlText.PhraseNamesError | src/ai/agents/sql-generation-agent.ts:96-102 | Without a code the first known phrase in an error names it, and an unknown error is named by its first line |
| SqlText.PrismaErrorIsShortened | src/ai/agents/sql-generation-agent.ts:131-148 | A Prisma error is shortened to its code and message, and its key is then its code |
| SqlText.TickedAtIff | src/ai/agents/sql-generation-agent.ts:138-139 | After a tag exactly a non-empty closed quotation is read; the leftmost counts (`FirstTicked`, `NothingTickedIff`) |
| SqlText.OtherErrorsAreKept | src/ai/agents/sql-generation-agent.ts:146-147 | An error that quotes nothing is kept as it is |
| SqlText.FirstFilterIsRequired | src/ai/agents/sql-generation-agent.ts:69-87 | Of several filters in a hint only the first slug or id filter counts, however it is spelled or spaced: a query meets the hint if and only if it contains that literal in quotes |
| SqlText.HintEnforcedIff | src/ai/agents/sql-generation-agent.ts:69-87 | A hint rules out some query if and only if it is neither blank nor "none" and holds a slug or id filter |
| SqlText.QuotedAfterEqualsIff | src/ai/agents/sql-generation-agent.ts:74 | After a slug or id column exactly an equals sign and a closed, non-empty literal are read, with any blanks between |
| SqlText.KeyIsShort | src/ai/agents/sql-generation-agent.ts:89-103 | A key is never longer than 120 characters, and one that is no name is the start of the message's first line |
| SqlText.FilledNamesUser | src/ai/agents/sql-generation-agent.ts:419-422 | Wherever the placeholder stands, in any case, the filled query names the user |
| SqlText.FillReplacesFirst | src/ai/agents/sql-generation-agent.ts:419-422 | The leftmost placeholder, in any case, gives way to the id, what is before it stays, and the rest is filled in the same way; a text without one is unchanged (`FillLeavesRest`) |
| SqlRetry.PlaceholderIsEnough | src/ai/agents/sql-generation-agent.ts:419-433 | A stored personal query with the placeholder is never refused for not naming the user |
| SqlRetry.ReuseRunsIff | src/ai/agents/sql-generation-agent.ts:389-459 | A stored query is run if and only if, for a personal question, there is a user, no UUID in it is another's and it holds the user's id or the placeholder, and the text with the placeholder filled in is a safe select; the database's answer is then its result |
| SqlRetry.ReuseRefusedFor | src/ai/agents/sql-generation-agent.ts:402-457 | A stored query that is not run is refused by the guard (`GuardRefusesFor`: no user, no scope, or another user's id), or for not being a select, or with the violations of the safety check |
| SqlRetry.ProcessReports | src/ai/agents/sql-generation-agent.ts:404-732 | A stored query that is answered is the whole call; otherwise the loop runs, and the report is its outcome, with the failed reuse logged before it under its own error |
| SqlText.UuidsCover | src/ai/agents/sql-generation-agent.ts:413-417 | No UUID is missed: one that is not found itself overlaps an earlier one that is |
| SqlText.UuidsAreFound | src/ai/agents/sql-generation-agent.ts:413-417 | The reuse guard finds UUIDs of the text only, and finds none if and only if the text holds none |
| SqlText.UuidPatternIff | src/ai/agents/sql-generation-agent.ts:413-414 | The guard's pattern is a UUID of version 1 to 5 with a usual variant |
| SqlText.FenceMakesNoDifference | src/ai/agents/sql-generation-agent.ts:627-634 | A fenced and a plain answer yield the same SQL |
| SqlText.Clean | src/ai/agents/sql-generation-agent.ts:627-634 | Whatever the model answers, the SQL taken from it is not empty |
| SqlText.SelectIff | src/ai/agents/sql-generation-agent.ts:634-641 | A statement passes as a select if and only if its first six characters after white space spell it, in any case |
| Decimal.NumeralHasValue | src/ai/services/ai-processing-log.service.ts:151-160 | In all three decimal-point cases the numeral written for a digit string and any integer exponent denotes sign * digits * 10^e |
| Decimal.RebuiltDecimalIsExact | src/ai/services/ai-processing-log.service.ts:122-162 | The same for any non-empty digit list, joined without padding |
| Sanitizer.StoredDecimalIsExact | src/ai/services/ai-processing-log.service.ts:122-167 | A stored {d, e, s} object is sanitised to exactly the number it stands for, for digits that print without an exponent |
| Sanitizer.StoredNumberIsExact | src/ai/services/ai-processing-log.service.ts:137-166 | Some decimals are stored with one number in place of the digits; they come back exactly, too |
| Sanitizer.SuchHostsExist | src/ai/services/ai-processing-log.service.ts:161-173 | The assumptions made about number printing and `Number()` can be met together |
| Sanitizer.SanitizedStandsIff | src/ai/services/ai-processing-log.service.ts:70-224 | A pass returns exactly what stands for its input, node by node: numbers for equal numbers, numeric texts and decimals, texts for themselves, dates, symbols and functions, arrays item by item, objects field by field without the skipped ones; and it throws exactly when nothing can |
| Sanitizer.ItemsAreJoined | src/ai/services/ai-processing-log.service.ts:168-180 | The text by which an array is tested for a number is the texts of its items with the separator between them |
| Sanitizer.MethodsAreFound | src/ai/services/ai-processing-log.service.ts:112-174 | toNumber and toString are looked for among the object's own fields first and then in its prototype, and an own field that is no function hides the prototype's method |
| Sanitizer.DecimalObjectBecomesNumber | src/ai/services/ai-processing-log.service.ts:112-118 | A Decimal object becomes the number its toNumber gives, whatever its fields hold |
| Sanitizer.BrokenDecimalIsZero | src/ai/services/ai-processing-log.service.ts:131-166 | A stored decimal that cannot be rebuilt becomes 0 |
| Sanitizer.SanitizedIsJsonIff | src/ai/services/ai-processing-log.service.ts:70-224 | One pass leaves no constructor key anywhere, and its result is plain JSON if and only if no invalid Date and no Error without a stack survives in the input |
| Sanitizer.TameTreeBecomesJson | src/ai/services/ai-processing-log.service.ts:70-224 | Every finite tree without these two and without a throwing toNumber sanitises, without throwing, to plain JSON |
| Sanitizer.FieldsReadBack | src/ai/services/ai-processing-log.service.ts:187-212 | In an object that stays an object every field but the skipped ones reads back as its own sanitised value, and none is made up |
| Sanitizer.ItemsReadBack | src/ai/services/ai-processing-log.service.ts:183-185 | An array that stays an array keeps its length and each item its place |
| Sanitizer.ErrorIsKept | src/ai/services/ai-processing-log.service.ts:90-106 | An Error keeps its name and message, and its stack if it has one, through all later passes, and is plain JSON from the second pass on |
| Sanitizer.SingletonCollapses | src/ai/services/ai-processing-log.service.ts:168-185 | An array of one number becomes that number, because the text of an array is read before its items |
| Sanitizer.PassShrinks | src/ai/services/ai-processing-log.service.ts:112-224 | On plain JSON, and on anything else an earlier pass can leave behind, a pass does not throw and returns the identical tree, exactly when it is settled, or a strictly smaller one; JSON stays plain JSON |
| Sanitizer.PassesReachFixedPoint | src/ai/services/ai-processing-log.service.ts:70-224 | Repeated passes over plain JSON, or over anything else a pass can leave behind, reach a fixed point of the same kind after fewer passes than the tree has nodes |
| Sanitizer.AnyPassesReachFixedPoint | src/ai/services/ai-processing-log.service.ts:70-224 | Repeated passes reach a fixed point from every value on which the first pass does not throw, and it is plain JSON if the first pass lets nothing else through |
| Sanitizer.PassIsNotIdempotent | src/ai/services/ai-processing-log.service.ts:168-185 | An array holding a stored decimal needs two passes |
| Sanitizer.SanitizeForDatabase | src/ai/services/ai-processing-log.service.ts:70-224 | The recursion with its map and its loop that fills a fresh object computes the pass the theorems are about, with every early return and throw |
| Approval.OneBackedApproval | src/ai/services/pending-knowledge.service.ts:118-263 | Over every interleaving of requests about any rows at most one approval of a row succeeds; it has SQL, and when it settled the store held an entry for its question, one judged similar by its score, one with the same SQL, or merely one with the same SQL template |
| Approval.NeverPendingAgain | src/ai/services/pending-knowledge.service.ts:118-319 | A decided row never becomes pending again |
| Approval.DecidesIff | src/ai/services/pending-knowledge.service.ts:118-304 | A request that reaches its transaction approves its row if and only if the transaction succeeds and the row is still pending; a request begins, and a rejection goes on to write, only for a pending row |
| Approval.OverturnedIff | src/ai/services/pending-knowledge.service.ts:207-304 | In every reachable state a step turns an approved row rejected if and only if it is the successful write of a rejection of that row, which had read it before the approval was committed; nothing else changes it, and a rejected row is final |
| Approval.ApprovalCanBeOverturned | src/ai/services/pending-knowledge.service.ts:272-304 | This interleaving exists |
| Approval.UpsertStores | src/ai/vector-store/supabase-vector-store.service.ts:291-352 | An upsert fails if and only if another row has the question; otherwise the new row is at its place, no other is touched, and both unique indexes hold |
| Approval.UpsertKeepsUniqueIff | src/ai/vector-store/supabase-vector-store.service.ts:319-347 | It keeps normalised questions unique if and only if no row but the one it overwrites matches |
| Approval.RunKeepsIndexes | src/ai/vector-store/supabase-vector-store.service.ts:291-352 | No interleaving ever stores one question or one template twice |
| Approval.OverwritesOnlyLater | src/ai/vector-store/supabase-vector-store.service.ts:291-352 | While all SQL under review has a template: whatever happens between an approval's template lookup and its upsert, the upsert overwrites an entry if and only if the database carries it out and the entry has its template and other content; and that entry was stored after the lookup, unless the lookup ignored an error |
| Approval.StepKeepsUniqueIff | src/ai/knowledge/knowledge.service.ts:253-365 | In any state a step keeps normalised questions unique if and only if it is no upsert or finds no matching row but the one it overwrites |
| Approval.TemplatesAreKept | src/ai/vector-store/supabase-vector-store.service.ts:291-352 | Over every interleaving of requests whose SQL has a template, stored entries keep their templates for ever |
| Approval.RacedUpsertOverwrites | src/ai/vector-store/supabase-vector-store.service.ts:297-347 | Two approvals of one template that both look it up before either writes both succeed, and only the second question stays stored |
| Approval.QuestionStoredIff | src/ai/knowledge/knowledge.service.ts:253-365 | An undisturbed save that succeeds, whatever its calls answer, leaves its question in the store if and only if it was there already or nothing answers for it: no reused near question, no near question with the same SQL, no known template |
| Approval.SaveSettlesIff | src/ai/knowledge/knowledge.service.ts:253-365 | An undisturbed save settles if and only if its searches answer and either find something that stands for the question or its writes succeed, and it settles on the first thing found: the same question, a near one with a score of 0.95 or none, a near one with the same SQL, the same template, or a new row |
| Approval.TwinStoredIff | src/ai/knowledge/knowledge.service.ts:253-365 | An undisturbed save stores a twin of a normalised question if and only if the question is known, the exact search misses it, and neither its template nor its text is stored |
| Approval.NormalizeIsWords | src/ai/knowledge/knowledge.service.ts:584-594 | A normalised question is the words of the folded question, the maximal runs without white space and punctuation, with single blanks between them |
| Approval.MatchesIff | src/ai/knowledge/knowledge.service.ts:263-272 | A stored question matches if and only if its folded words are the same in the same order |
| Approval.NormalizeIsStable | src/ai/knowledge/knowledge.service.ts:584-594 | A normalised question has no punctuation, no blank at an end or next to another, and normalises to itself |
| Approval.ExactFindsIff | src/ai/vector-store/supabase-vector-store.service.ts:360-395 | The exact search finds a row if and only if it normalises alike, contains the normalised question, and no newer row contains it |
| Approval.PendingKnowledgeService.SaveQAInteraction | src/ai/knowledge/knowledge.service.ts:253-365 | The save, whatever its calls answer, ends as the undisturbed run of the protocol does, with the same store and basis |
| Approval.PendingKnowledgeService.SaveSqlQA | src/ai/vector-store/supabase-vector-store.service.ts:291-352 | Uses an entry with the template as it is, and otherwise upserts the row |
| Approval.PendingKnowledgeService.ApprovePendingKnowledge | src/ai/services/pending-knowledge.service.ts:118-263 | Success approves a pending row with SQL and leaves in the store the entry it relies on; failure leaves the row alone |
| Approval.PendingKnowledgeService.RejectPendingKnowledge | src/ai/services/pending-knowledge.service.ts:272-319 | Rejects exactly a pending row when no call throws |
| ChatSequence.SequentialRuns | src/ai/services/chat-session.service.ts:180-325 | One call at a time, sequence numbers are exactly 1..n and the counter is n after any adds and clears, and without stored system messages the title job is queued at most once between clears |
| ChatSequence.SessionHoldsAdds | src/ai/services/chat-session.service.ts:180-325 | One call at a time, the session holds exactly the messages added since the last clear, numbered from 1, and its counter counts them; a summary job has been queued for every assistant message after the tenth message, and the title job once if the session began with a non-empty question and its answer |
| ChatSequence.TitleDueIff | src/ai/ai.service.ts:439-459 | Without system messages a title is due exactly at two messages with a non-empty user message |
| ChatSequence.RecentIsNewest | src/ai/services/chat-session.service.ts:129-140 | The recent messages come with strictly falling numbers and leave out nothing newer |
| ChatSequence.SystemMessagesRetitle | src/ai/ai.service.ts:442-450 | Eight stored system messages would hide the conversation, and the next exchange would queue a title again; no caller stores one today |
| ChatSequence.CounterAccountsForRows | src/ai/services/chat-session.service.ts:186-209 | For every interleaving of adds, the counter plus the rows created but not yet counted is the number of rows |
| ChatSequence.NumberLagsByCreatesBetween | src/ai/services/chat-session.service.ts:186-201 | The k-th row created carries k minus the creates that fell between its count and its create |
| ChatSequence.ClearKeepsCountIff | src/ai/services/chat-session.service.ts:186-319 | For every interleaving of adds and clears, from any state: the counter accounts for the rows if and only if exactly as many increments fall between the last deletion and the last reset as there were uncounted rows at the deletion |
| ChatSequence.OneAddOneClear | src/ai/services/chat-session.service.ts:186-319 | One add and one clear, in any order of their calls, leave the counter right if and only if the row is created before the deletion exactly when it is counted before the reset |
| ChatSequence.OverlappingClearLosesCount | src/ai/services/chat-session.service.ts:305-319 | A clear that overlaps an add can leave one row and a counter of 0 |
| ChatSequence.ChatSessionService.Add | src/ai/services/chat-session.service.ts:180-218 | Appends one message with the next number and raises the counter |
| ChatSequence.ChatSessionService.Clear | src/ai/services/chat-session.service.ts:305-325 | Leaves no message and a counter of 0 |
| ChatSequence.ChatSessionService.GetRecentMessages | src/ai/services/chat-session.service.ts:129-140 | Returns the newest messages, newest first |
| ChatSequence.ChatSessionService.TriggerJobs | src/ai/ai.service.ts:433-471 | Queues the title and summary jobs exactly when they are due |
| ChatSequence.ChatSessionService.AddMessageToSession | src/ai/ai.service.ts:374-427 | Only an assistant message triggers the jobs |
| RefreshTokens.AcceptedExactlyWhenHeld | src/auth/auth.service.ts:530-649 | Over every sequential run, told from the operations alone: a token is accepted for a user at a moment exactly when the user was given it, by a login or a valid refresh, at most 7 days before, and has since neither logged in again, nor used it, nor had it or all tokens revoked |
| RefreshTokens.RevokedStaysInvalid | src/auth/auth.service.ts:627-649 | A token revoked by itself or with all of its user's tokens is refused for ever, whatever follows |
| RefreshTokens.TouchedStaysInvalid | src/auth/auth.service.ts:530-649 | The same of a token ended by a newer login of its user or by its own use |
| RefreshTokens.UntouchedStaysAccepted | src/auth/auth.service.ts:552-587 | A token that nothing of this kind has touched is accepted until it expires, and then is reported as expired |
| RefreshTokens.OneTokenPerUser | src/auth/auth.service.ts:530-550 | Each user has at most one token in the table |
| RefreshTokens.AcceptedOnlyOnce | src/auth/auth.service.ts:552-625 | A token once accepted is never accepted again, whatever follows |
| RefreshTokens.TableHoldsTheLiving | src/auth/auth.service.ts:530-649 | However the calls of logins, refreshes and revocations interleave, the table holds exactly the tokens created since their user's last clear and not removed since |
| RefreshTokens.OneRowIff | src/auth/auth.service.ts:530-550 | After any interleaved writes a user has at most one token if and only if of any two created for the user a later write has ended one |
| RefreshTokens.AcceptedTwiceIff | src/auth/auth.service.ts:552-625 | After any steps, a second refresh of an accepted token is accepted if and only if the token has not expired and no write in between has cleared its user or removed it |
| RefreshTokens.DeletedIsRefused | src/auth/auth.service.ts:530-649 | With all database calls interleaved: once a login, refresh, purge or revocation has made the call that deletes a token, the token is refused for ever |
| RefreshTokens.RevocationDeletes | src/auth/auth.service.ts:627-641 | A revocation goes on to delete the token exactly when it finds it |
| RefreshTokens.RefreshGoesOn | src/auth/auth.service.ts:552-600 | A refresh goes on to clear and create when it finds a valid token, to delete an expired one, and to nothing else |
| RefreshTokens.EachCallWrites | src/auth/auth.service.ts:530-649 | What each database call of a login, refresh or revocation writes, and what the request does next |
| RefreshTokens.RefusedAfterOwnClear | src/auth/auth.service.ts:552-610 | Once the first refresh has made its own clear, every later refresh of the token is refused, whatever else interleaves |
| RefreshTokens.TwoRefreshesLeaveTwo | src/auth/auth.service.ts:552-610 | Two refreshes that both find one token before either clears are both accepted and leave two live tokens |
| RefreshTokens.InterleavedIssuesLeaveTwo | src/auth/auth.service.ts:535-547 | Two logins of one user whose calls go in step leave two accepted tokens, from any table |
| RefreshTokens.AuthService.GenerateRefreshToken | src/auth/auth.service.ts:530-550 | Deletes the user's rows and creates one, as the run theorems assume |
| RefreshTokens.AuthService.RefreshToken | src/auth/auth.service.ts:552-625 | Answers invalid, expired (and purges) or accepted (and rotates) exactly as the run theorems assume |
| RefreshTokens.AuthService.RevokeRefreshToken | src/auth/auth.service.ts:627-641 | Removes that token and reports whether it was there |
| RefreshTokens.AuthService.RevokeAllRefreshTokens | src/auth/auth.service.ts:643-649 | Removes all tokens of that user and no others |
| Apportion.ShufflePermutes | scripts/import-default-users.js:221-228 | Whatever the draws, the shuffle is a permutation |
| Apportion.DrawsAreDetermined | scripts/import-default-users.js:221-228 | On distinct items different draws give different orders |
| Apportion.EveryOrderIsReached | scripts/import-default-users.js:221-228 | Every order is reached by some draws; with the row above, each by exactly one |
| Apportion.CorrectedCounts | scripts/import-default-users.js:241-256 | After the correction the counts sum to the number of rooms; every landlord but the first is within 1/2 of its share, the first within (n-1)/2 of what the others' shares leave |
| Apportion.RoomsAreConserved | scripts/import-default-users.js:230-270 | For any rooms, draws and percentages the landlords' lists end to end are the shuffled rooms, hence a permutation of the input, even when the correction is negative |
| Apportion.FirstLandlordStarves | scripts/import-default-users.js:24-184 | With the shipped percentages the first landlord receives a room if and only if there are one or two rooms |
| Apportion.ShuffleArray | scripts/import-default-users.js:221-228 | The in-place swaps compute the shuffle of the draws |
| Apportion.CountRooms | scripts/import-default-users.js:241-256 | The rounding loop and the in-place correction compute the corrected counts |
| Apportion.PushRooms | scripts/import-default-users.js:261-264 | The inner loop pushes exactly the rooms the count and the rest allow |
| Apportion.DistributeRooms | scripts/import-default-users.js:230-270 | The whole script gives each landlord its list of the assignment |
| PageContext.PathRoundTripIff | src/ai/utils/entity-route.ts:3-15 | A built path parses back to its entity and identifier if and only if the entity is not a post and the identifier is one non-empty path segment without a `$` replacement pattern |
| PageContext.PathsAreRoutes | src/ai/utils/entity-route.ts:3-15 | The path of an entity is its route with the identifier in it, unless that holds a `$` pattern |
| PageContext.MessageRoundTripIff | src/ai/agents/orchestrator-agent.ts:200-216 | A printed `[CONTEXT]` message is read back unchanged if and only if the identifier is one token and shows no other type of its own |
| PageContext.ContextRoundTripIff | src/ai/ai.service.ts:1063-1178 | The whole chain of path, parser, message and reader returns the original entity, identifier and type if and only if both of its round trips do, from any session that does not remember that very context already |
| PageContext.PlainIdentifierRoundTrip | src/ai/ai.service.ts:1164-1178 | In particular for every non-empty identifier free of `/ ? # $`, white space, commas and `Type:` |
| PageContext.OtherPagesParse | src/ai/ai.service.ts:1083-1100 | Roommate posts and the singular spellings, which no path is built for, are read as well |
| PageContext.TypeInIdentifierMisleads | src/ai/agents/orchestrator-agent.ts:208-216 | An identifier that is excluded and is read back with a wrong type |
| IntentHints.ReadersFindTheirs | src/ai/ai.service.ts:109-149 | From any session, after the hints are set each of the four readers finds the message just written for its key or none, so no stale hint survives |
| IntentHints.HintsRoundTrip | src/ai/agents/sql-generation-agent.ts:911-981 | The readers return the hints just set: filters in normalised form, the action itself, and of a hint of several lines the first |
| IntentHints.SingleLineHintsRoundTrip | src/ai/agents/sql-generation-agent.ts:911-981 | Trimmed single-line hints come back exactly and absent ones as undefined |
| IntentHints.NormalizedIsStable | src/ai/ai.service.ts:130-142 | Normalising filters that are normalised already changes nothing |
| IntentHints.OwnerIdIff | src/ai/ai.service.ts:130-142 | An owner id is read from a hint exactly when the hint is nothing but owner_id in any case, an equals sign with any blanks around it, and a UUID |
| IntentHints.OtherFiltersAreRead | src/ai/ai.service.ts:130-149 | Any other one-line filter hint reaches the SQL agent as it was given, but for blanks around it |
| IntentHints.LastSetWins | src/ai/ai.service.ts:109-149 | Whatever hints were set before, setting new ones leaves the session as if they had been the first |
| IntentHints.OtherMessagesKept | src/ai/ai.service.ts:118-120 | All other messages are kept in their order |
| IntentHints.EachIsKeptInOrder | src/ai/ai.service.ts:118-120 | Before hints are set, exactly the system messages with the intent mark are removed; every other message is kept, behind those kept before it |
| IntentHints.ChatSession.SetIntentSystemMessages | src/ai/ai.service.ts:109-149 | The in-place filter and pushes write the session the round trips are about and return the normalised filters |
| Orchestrator.MissingParamsRoundTripIff | src/ai/agents/orchestrator-agent.ts:376-436 | Any non-empty list of trimmed, delimiter-free parameters printed as name:reason:examples is recovered exactly if and only if the text holds no role tag, no `RESPONSE:` and no line that starts with RESPONSE |
| Orchestrator.ReadPrintsNoLonger | src/ai/agents/orchestrator-agent.ts:392-436 | On any text, what is read prints no longer than the section it was read from: the parser invents nothing |
| Orchestrator.ReturnedParamsAreClean | src/ai/agents/orchestrator-agent.ts:398-436 | On any text, every returned parameter has a non-empty, trimmed, tag-free name and reason and trimmed, bracket-free examples |
| Orchestrator.ReadyIff | src/ai/agents/orchestrator-agent.ts:336-454 | A question is ready exactly when it is named a query, nothing is missing, and it is not personal or the user is logged in; what is missing is handed on of an unready query alone |
| ChatRun.ExecutedSqlObeysCurrentHint | src/ai/agents/sql-generation-agent.ts:664-669 | Across orchestrator, session and SQL agent: every statement run in a turn obeys the filter hint of that very turn, whatever hints earlier turns left, and no stored query runs when there is one |
| ChatRun.IntentIsCurrent | src/ai/agents/sql-generation-agent.ts:964-981 | The SQL agent's intent is the action the orchestrator gives in this very turn |
| ChatRun.PersonalReuseIsGuarded | src/ai/agents/sql-generation-agent.ts:402-438 | Hence a stored query that runs for a personal question has passed the reuse guard for the current user |
| ChatRun.TurnRunsSqlIff | src/ai/ai.service.ts:1375-1556 | A turn runs the SQL agent exactly when the question is ready, and otherwise replies with the orchestrator's message |
| ChatRun.TurnRepliesIff | src/ai/ai.service.ts:1793-2125 | A turn that runs SQL is completed exactly when the SQL, both parallel agents and the assembly succeed, and replies with the generated text, else with the error of the first that failed |
| ChatRun.AgentFailureIsLogged | src/ai/ai.service.ts:1629-1820 | If the SQL agent fails before it starts, nothing is run and the failure is logged as the one attempt, with number 0 |
| ChatRun.OrchestratorSeesPage | src/ai/ai.service.ts:1160-1187 | The orchestrator reads the page of this very turn whatever the question says; without a readable page it still sees the one the session remembers |
| ChatRun.OwnerHintIsNotEnforced | src/ai/ai.service.ts:130-142 | A personal owner_id filter, in any accepted spelling, is written out with its table and holds no slug or id filter, so the SQL agent's check lets every query pass |
| ChatRun.DataPathCountsAllTokens | src/ai/ai.service.ts:1944-1961 | A completed turn on the data path logs the sum over orchestrator, every logged SQL attempt, validator and response generator |
| ChatRun.ServedSqlCountsAllIff | src/ai/ai.service.ts:1821-2125 | Once the SQL of a turn has succeeded, the logged total is all that was used if and only if neither the two agents nor the assembly of the reply throws, or nothing was used at all |
| ChatRun.FailedSqlForgetsTokens | src/ai/ai.service.ts:1793-1820 | After a failed SQL generation the logged total is the full sum if and only if the attempts used no tokens |
| ChatRun.PartialNeverHappens | src/ai/ai.service.ts:2048-2088 | No decision of the orchestrator leads to the edge case of a query that is neither ready nor incomplete |
| ChatRun.AnonymousPersonalQuestionRunsNoSql | src/ai/agents/orchestrator-agent.ts:336-454 | A personal question without a login runs no SQL and is answered by a clarification, whatever the model says |
| ChatRun.AiService.Process | src/ai/ai.service.ts:1259-2088 | The try block writes exactly one reply and one log, or throws having written neither |
| ChatRun.AiService.ProcessChatQuery | src/ai/ai.service.ts:1150-2128 | Whatever the agents answer or throw, one turn saves exactly the question and one reply and writes exactly one processing log |

## Left out

- Realtime: emission to sockets, logging, and `lastActiveAt`; the existence check and the update of a user are one landing step; users are neither created nor deleted while writes are pending; handlers get the socket id and the time as values.
- Stringify: escaping and spacing of the JSON text, `toJSON` (Dates), getters, and the text `String(value)` falls back to.
- SqlRetry: whether `validateSqlSafety` accepts a statement, and whether it rewrites it, is an arbitrary function of the SQL (how it rewrites one is in `SqlSafety`); retrieval, prompt building, previews, durations and the legacy `generateAndExecuteSql` are not modelled; `$` patterns in the user id that replaces USER_ID are not expanded.
- SqlText: regular expressions are written as direct searches; lower-casing is ASCII; the key of an error is cut to 120 characters, not UTF-16 units.
- ExecutedReuseIsScopedIff: takes a user id with a hyphen and without white space or semicolon, as every UUID is; what the query means to the database, such as a UUID inside a string, is not modelled.
- Sanitizer: numbers are exact reals, so NaN, the infinities and rounding are absent, and number formatting and `Number()` are parameters; a throwing host other than `toNumber` and `toString`, `__proto__` keys, custom `valueOf`, cyclic input and a repeat count beyond the string limit are not modelled.
- Decimal: reads `d` as the digits the source's comment describes; the base-10^7 words of decimal.js are joined without padding just as the code does, so their own value is not restored.
- Approval: ILIKE, with its wildcards, is an arbitrary test of a question against a term, and the SQL template an arbitrary function of the SQL; vector scores and embeddings are arbitrary; stored entries are written by approvals only, not by the teaching calls, and not deleted; contexts and admin fields are left out; the transaction is one step, and so is an upsert.
- OverwritesOnlyLater: for SQL with a template, as the table's lookup needs one; an upsert without a template overwrites the entry with the very same question, whenever that was stored (`OverwrittenIff`).
- ChatSequence: failing database calls, message metadata, titles and summaries themselves, and deleting a session.
- RefreshTokens.AcceptedExactlyWhenHeld: is about sequential runs; for interleaved ones `TableHoldsTheLiving` and `AcceptedTwiceIff` say what holds instead. Random tokens are fresh; seven days are exactly 7 * 24 hours, without daylight saving; the access token and the user row are left out.
- Apportion: console output and the other steps of the import script; rounding is exact, not floating point.
- PageContext: `buildEntityPath` for an entity without a route, which yields an empty path.
- IntentHints.HintsRoundTrip: takes the table and relationship hints trimmed, as the orchestrator hands them over.
- Orchestrator: classification, the other hints, the wording of messages, and logging; the answer text is taken trimmed.
- ChatRun: question expansion, payloads and charts, the wording of apologies and clarifications, the saving of pending knowledge (its failure is caught), and background jobs (modelled in `ChatSequence`); when both parallel agents throw, the generator's error is the one reported; saving messages and logs succeeds.
- Controllers, authentication other than refresh tokens, bookings, rooms, billing, notifications and the other import scripts: database plumbing and finite tables.
