# SyftHub: a verified model of its concurrent protocols, codecs and iterators

SyftHub connects AI endpoints that run on their owners' nodes with the people who use
them. Most of its code is plumbing; this project models the parts whose correctness does
not show in any one body.

| modules | part of SyftHub |
|---|---|
| `SessionProtocol`, `SessionManager` | agent sessions on a node: the session map behind its lock, the external registrar, the handler goroutines, the reaper and the shutdown sweep, as a state machine over all interleavings and as the object whose methods take its steps |
| `AgentStream`, `AgentSession` | one session's bounded channels, sequence counter, cancellation and terminal event |
| `OneShot` | a session driven without a user: the collector that concatenates messages and cancels on an input request |
| `Text`, `SseParser`, `SseAgreement` | the event-stream parsers of the TypeScript and the Go SDK, and when they agree |
| `KeyCase`, `KeyCodec` | the TypeScript SDK's snake_case/camelCase codec over JSON trees, with its caches |
| `TokenFetch` | the Go SDK's parallel token fetch: semaphore, WaitGroup, result channel |
| `Scaffold` | merging connector templates and renaming conflicting steps |
| `Pagination`, `TsPagination` | the lazy page iterators of the two SDKs |
| `EndpointRegistry`, `RegistryRuns` | endpoint registration and hot reload, with the lifetime of executors, call by call and over whole programs |
| `Base64Url` | base64url without padding (RFC 4648, section 5) and JWK integers (RFC 7518, section 2) |
| `OAuth` | the MCP server's authorization codes and tokens (RFC 6749, section 4.1) |
| `Sorting`, `LogTail` | the request log: one file a day, read back newest first with an early stop |
| `Grid` | the CLI's column-major listing |
| `Wrappers`, `Numbers`, `Selection` | Option and Result, small arithmetic, filtering a list |

Concurrency is modelled as a function from a state and a step to the next state; a step
that would block changes nothing, and theorems quantify over every sequence of steps.
Where the source updates an object in place there is a class whose methods are tied to
the state machine or to a specification function.

Some promises hold only under a condition. Each is stated as an equivalence, and a
concrete case shows the failing side: a session stays listed in the external registry
(`RegistryLeakWitness`), a bare `Receive` hangs a one-shot invocation (`BareReceiveHangs`),
the two event-stream parsers differ on data without an event (`DisagreementWitness`), a
connector selected three times repeats step IDs (`DuplicateWitness`), a `_Proto__` key does
not survive the key codec (`ProtoWitness`), zero has an empty JWK text (`RfcExactly`), an
authorization code whose scope is null is consumed by a request that fails
(`NullScopeWitness`), a hot reload closes an executor that a code-based endpoint shares
(`SharedExecutorWitness`), and the log reader misses the newest entry when the node's clock
moves to another zone backwards over midnight (`ZoneChangeWitness`); a clock that is merely
set back within its zone does no harm, because file name and sort key come from the same
timestamp (`FixedZoneShows`). The contract of the Go iterator's `Take` says that zero gives
one item.

Three promises of the source's own documentation are false of its code. The model follows
the code:

- The TypeScript parser is documented to yield after any data line that has no event line
  before it. A data line never yields its own data, only what waited before it
  (`LineYieldsExactly`, with the one case where the two look alike); `DataLineWaits` is a
  stream whose data comes out only when it ends.
- The token endpoint is documented to require the redirect URI given at login. It reads
  `redirect_uri` and compares it with nothing (`RedirectUncheckedExactly`);
  `RedirectWitness` exchanges a code issued for another one.
- The token endpoint is documented to validate the pair of PKCE challenge and verifier. It
  does so only when a verifier is sent (`VerifierOptionalExactly`); `NoVerifierWitness` is a
  run without one.

## Model

| member | source | states |
|---|---|---|
| SessionProtocol.ReachableInv | sdk/golang/syfthubapi/session_manager.go:154-335 | in every interleaving the map respects `maxSessions`, every tracked entry is a session whose OnDone has not run, and every insertion is accounted for exactly once, whatever IDs clients choose |
| SessionProtocol.StepKeepsTracked | sdk/golang/syfthubapi/session_manager.go:155-162 | no single step breaks the limit or leaves an entry in the map past its OnDone |
| SessionProtocol.StepConserves | sdk/golang/syfthubapi/session_manager.go:188-199 | no single step loses or doubles an insertion: tracked, about to be deregistered, deregistered or overwritten |
| SessionProtocol.ExactlyOnce | sdk/golang/syfthubapi/session_manager.go:184-199 | with IDs never reused each session is at every moment in exactly one of map, pending deregistration, deregistered, and is deregistered exactly once when its channels close |
| SessionProtocol.ConservationExactly | sdk/golang/syfthubapi/session_manager.go:155-199 | insertions equal tracked plus pending plus deregistered for all IDs if and only if no session ever started under an ID that was tracked at that moment |
| SessionProtocol.AllClosedMeansAllDeregistered | sdk/golang/syfthubapi/session_manager.go:184-202 | when every handler has closed, the map is empty and deregistrations are the insertions not overwritten |
| SessionProtocol.ReaperFindsNoClosedSession | sdk/golang/syfthubapi/session_manager.go:311-328 | the reaper never meets a session whose done channel is closed; what it drops was cancelled |
| SessionProtocol.LeavesMapOnly | sdk/golang/syfthubapi/session_manager.go:188-335 | an entry leaves the map only by its own OnDone, or cancelled by the reaper's condition or by the shutdown sweep |
| SessionProtocol.SweepEmpties | sdk/golang/syfthubapi/session_manager.go:291-301 | after the shutdown sweep, whatever interleaved, the map is empty |
| SessionProtocol.StepKeepsSession | sdk/golang/syfthubapi/session_manager.go:154-335 | no step removes, renames or un-cancels a session or takes it anywhere but to the next point of its life: registered, launched, returned, off the map, deregistered, closed |
| SessionProtocol.CancelSticks | sdk/golang/syfthubapi/session_manager.go:227-239 | a session is cancelled from the step that cancels it on, whatever happens before and after |
| SessionProtocol.CancelledIsReaped | sdk/golang/syfthubapi/session_manager.go:306-336 | a reaper pass that begins after a session was cancelled leaves it untracked, whatever interleaves with the pass |
| SessionProtocol.Progress | sdk/golang/syfthubapi/session_manager.go:154-335 | until the lock is free and every session is closed, a step of the lock holder, or with the lock free a step of a session that has not closed, changes the state |
| SessionProtocol.WorkDrops | sdk/golang/syfthubapi/session_manager.go:154-335 | every effective step other than a start, a cancellation or a new sweep leaves less to do |
| SessionProtocol.EveryRunEnds | sdk/golang/syfthubapi/session_manager.go:154-335 | over any interleaving a start accounts for at most six effective steps and a sweep for at most `maxSessions + 1` |
| SessionProtocol.EverySessionCloses | sdk/golang/syfthubapi/session_manager.go:154-335 | from every reachable state the steps that are due lead to one with every session closed, the map empty and every insertion deregistered or overwritten |
| SessionProtocol.RegistryLeakExactly | sdk/golang/syfthubapi/session_manager.go:161-182 | with IDs never reused, and registrar calls that may fail, a closed session is still listed externally if and only if its RegisterSession call succeeded, and a sweep had removed it before that call or its DeregisterSession call failed |
| SessionProtocol.RegistryLeakWitness | sdk/golang/syfthubapi/session_manager.go:161-182 | a concrete run in which that happens |
| SessionManager.AgentSessionManager.constructor | sdk/golang/syfthubapi/session_manager.go:53-64 | a manager starts empty, in the protocol's initial state, with a limit of 100 sessions for a non-positive one |
| SessionManager.AgentSessionManager.StartSession | sdk/golang/syfthubapi/session_manager.go:105-205 | it starts exactly when the checks pass and there is room, adding one running session under the ID, also when the registrar refuses or is absent; a missing endpoint, one that is no agent, a failed check, a denial, a missing handler and a full map are each answered by their own error and change nothing |
| SessionManager.AgentSessionManager.OnDone | sdk/golang/syfthubapi/session_manager.go:188-199 | the ID leaves the map, and it is deregistered, once, if and only if it was still there, whatever the registrar answers; nothing else changes |
| SessionManager.AgentSessionManager.CancelSession | sdk/golang/syfthubapi/session_manager.go:227-239 | exactly the session tracked under the ID becomes cancelled, and nothing else changes; an unknown ID is reported and changes nothing |
| SessionManager.AgentSessionManager.CancelAllSessions | sdk/golang/syfthubapi/session_manager.go:291-301 | whatever order the map is walked in, the result is a run of the protocol that cancels every tracked session, deregisters each once, touches no other and empties the map |
| SessionManager.AgentSessionManager.ReapStaleSessions | sdk/golang/syfthubapi/session_manager.go:306-336 | exactly the tracked sessions that are cancelled or done leave the map, each deregistered once and counted, by a run of the protocol; the others stay as they are |
| SessionManager.AgentSessionManager.DropEntry | sdk/golang/syfthubapi/session_manager.go:295-299 | cancel, deregister and delete, field by field, act as the protocol's one drop |
| AgentStream.ReachableInv | sdk/golang/syfthubapi/agent.go:129-148 | over every run: channel contents, delivered events and accepted sends agree, sequence numbers are call positions, and the life cycle is consistent |
| AgentStream.StreamPrefix | sdk/golang/syfthubapi/agent.go:139-148 | the consumer has always received, in order, a prefix of what was accepted, with strictly increasing numbers |
| AgentStream.StreamComplete | sdk/golang/syfthubapi/agent.go:302-362 | once the channel is closed and drained the consumer has every accepted event and then at most one terminal event, of the kind given by the step in which the running handler finished, missing only if the buffer could have been full |
| AgentStream.TerminalKind | sdk/golang/syfthubapi/agent.go:304-360 | completed if and only if the handler returned nil, failed otherwise, a panic included; dropped if and only if the buffer is full |
| AgentStream.TerminalIsLast | sdk/golang/syfthubapi/agent.go:304-360 | nothing follows the terminal event |
| AgentStream.OnDoneBeforeClose | sdk/golang/syfthubapi/agent.go:322-328 | OnDone runs at most once, after the handler and before the single close |
| AgentStream.InputPrefix | sdk/golang/syfthubapi/agent.go:129-136 | the handler receives, in order, a prefix of the delivered user messages |
| AgentStream.AskWaits | sdk/golang/syfthubapi/agent.go:243-258 | over every run a RequestInput call is left only once a user message has been received since, or the session is cancelled; until then it sends its event or waits |
| AgentStream.LeavesReceiving | sdk/golang/syfthubapi/agent.go:234-241 | a waiting receive ends only by taking the oldest message or by cancellation |
| AgentStream.CancelSticks | sdk/golang/syfthubapi/agent.go:112-115 | the context stays cancelled, whatever follows |
| AgentSession.Channels.constructor | sdk/golang/syfthubapi/agent.go:95-108 | a new session is the initial state of the stream |
| AgentSession.Channels.Send | sdk/golang/syfthubapi/agent.go:139-148 | a send is numbered; then it is accepted or aborted, or it waits exactly when the channel is full and the session not cancelled |
| AgentSession.Channels.TrySend | sdk/golang/syfthubapi/agent.go:142-147 | each look of a waiting send at its select is the matching step of the stream, or no step |
| AgentSession.Channels.Receive | sdk/golang/syfthubapi/agent.go:234-241 | it takes the oldest message or fails when cancelled, or waits exactly when there is no message and no cancellation |
| AgentSession.Channels.TryReceive | sdk/golang/syfthubapi/agent.go:235-240 | each look of a waiting receive at its select is the matching step of the stream, or no step |
| AgentSession.Channels.RequestInput | sdk/golang/syfthubapi/agent.go:243-258 | the event with the prompt takes the next number; once accepted the handler waits until the oldest message is taken or the session is cancelled, and if the send is aborted it returns without receiving |
| AgentSession.Channels.Cancel | sdk/golang/syfthubapi/agent.go:112-115 | the context is cancelled and nothing else changes |
| AgentSession.Channels.ReadEvent | sdk/golang/syfthubapi/agent.go:122-125 | the consumer reads the oldest event first, and sees the close only when the channel is drained |
| AgentSession.Channels.DeliverMessage | sdk/golang/syfthubapi/agent.go:129-136 | it never blocks and refuses exactly when the channel is full |
| AgentSession.Channels.EmitTerminal | sdk/golang/syfthubapi/agent.go:304-360 | the terminal event takes the next number and is enqueued if there is room |
| AgentSession.Channels.CleanUp | sdk/golang/syfthubapi/agent.go:322-328 | OnDone, then both closes, in that order |
| OneShot.CollectResponse | sdk/golang/syfthubapi/processor.go:370-406 | the collector's loop computes the response: the message contents in order, then the note if input was asked for, or the fallback if there is neither |
| OneShot.MessagesExactly | sdk/golang/syfthubapi/processor.go:370-381 | a message with a content puts exactly that content in its place of the response; any other event, thinking and tool calls included, makes no difference wherever it stands |
| OneShot.FinalResponse | sdk/golang/syfthubapi/processor.go:365-406 | in every interleaving with the handler the response depends only on the accepted messages and requests, cancellation notwithstanding |
| OneShot.FinalShape | sdk/golang/syfthubapi/processor.go:365-405 | for every finished invocation: the accepted content comes first; the response ends with the note if and only if an input request was accepted or the content itself ends with it, and is the fallback if and only if there was no request and no content or that very content |
| OneShot.StuckExactly | sdk/golang/syfthubapi/processor.go:371-392 | an invocation is stuck if and only if the handler waits, nothing is left to collect, and there was neither a cancellation nor an accepted input request |
| OneShot.NeverStuck | sdk/golang/syfthubapi/agent.go:244-258 | a handler that only waits through RequestInput never hangs the invocation |
| OneShot.BareReceiveHangs | sdk/golang/syfthubapi/agent.go:263-280 | a handler that waits without requesting input does |
| OneShot.EveryRunEnds | sdk/golang/syfthubapi/processor.go:365-392 | at most 8 + 5n moves change the state when the handler makes n calls |
| Text.SplitContinue | sdk/typescript/src/utils.ts:160-162 | splitting buffer plus chunk continues the split of everything received before |
| Text.SplitExactly | sdk/typescript/src/utils.ts:160-162 | the parts have no newlines, and joined by newlines they are the text again |
| Text.TrimExactly | sdk/typescript/src/utils.ts:165 | trimming removes white space at the two ends, all of it and nothing else |
| Text.SpacesListed | sdk/typescript/src/utils.ts:165 | the white space of each language, code by code |
| Text.TrimsAlike | sdk/golang/syfthub/chat.go:371 | the two languages trim alike on text without U+FEFF and U+0085 |
| SseParser.ReadSSEEvents | sdk/typescript/src/utils.ts:136-201 | the chunked loop yields the events of the concatenated text, so nothing depends on how it was cut |
| SseParser.TakeLine | sdk/typescript/src/utils.ts:164-182 | one turn of the loop is one step of the reference fold: a blank line closes the block, an event line and a data line set their field, any other line changes nothing |
| SseParser.IgnoredLine | sdk/typescript/src/utils.ts:164-182 | a line that is not blank and starts with neither field, such as a keep-alive comment, may stand between any two lines: the stream yields the same without it |
| SseParser.LineYieldsExactly | sdk/typescript/src/utils.ts:128-182 | what each line yields is data that came before it; the documented yield of a data line's own data comes out right if and only if it repeats the data that waits |
| SseParser.DataLineWaits | sdk/typescript/src/utils.ts:128-197 | a stream of one data line has yielded nothing when the line is complete, and yields it at its end |
| SseParser.PrintParse | sdk/typescript/src/utils.ts:147-182 | printing and parsing returns a list if and only if its pairs are trimmed, newline-free and have data |
| SseParser.ParseIsPrintable | sdk/typescript/src/utils.ts:147-197 | every pair parsed from any text has that form |
| SseParser.ParsePrintParse | sdk/typescript/src/utils.ts:147-197 | printing what was parsed and parsing again gives the same pairs |
| SseAgreement.StreamEvents | sdk/golang/syfthub/chat.go:366-393 | the Go loop computes the fold that the comparison is about |
| SseAgreement.GoLineExactly | sdk/golang/syfthub/chat.go:370-393 | what each line makes the Go loop do: only a blank line yields, and only data under a non-empty event; an ignored line changes nothing |
| SseAgreement.ScannedExactly | sdk/golang/syfthub/chat.go:366-371 | the scanned lines are all the lines of the text but an empty last one |
| SseAgreement.RunSideBySide | sdk/golang/syfthub/chat.go:370-393 | line by line both loops hold the same open block, and TypeScript has yielded at least as many pairs |
| SseAgreement.Agreement | sdk/golang/syfthub/chat.go:370-393 | on text that both languages read alike line by line, the two SDKs yield the same pairs if and only if data is always closed by a blank line under a non-empty event and never pushed out by later data |
| SseAgreement.PlainReadsAlike | sdk/golang/syfthub/chat.go:371 | text without U+FEFF and U+0085 is read alike |
| SseAgreement.AgreementOfReadings | sdk/golang/syfthub/chat.go:370-393 | on any text each SDK yields what its own reading of the lines opens and closes, so they agree if and only if these lists are equal |
| SseAgreement.UnlikeWitness | sdk/golang/syfthub/chat.go:371 | a text read unlike on which Go yields a pair and TypeScript none |
| SseAgreement.DisagreementWitness | sdk/golang/syfthub/chat.go:373-386 | a data line without an event gives a message in TypeScript and nothing in Go |
| KeyCase.KeyRoundTrips | sdk/typescript/src/utils.ts:14-35 | each rewriter undoes the other exactly on keys without the other's pattern |
| KeyCase.CamelExactly | sdk/typescript/src/utils.ts:14-20 | wherever an underscore stands before a lower-case letter the two become its upper case, and a key without such a place stays as it is |
| KeyCase.SnakeExactly | sdk/typescript/src/utils.ts:29-35 | every upper-case letter becomes an underscore and its lower case, and a key without one stays as it is |
| KeyCase.LettersListed | sdk/typescript/src/utils.ts:17-32 | the twenty-six letters and their other case, one by one |
| KeyCase.KeyExamples | sdk/typescript/src/utils.ts:10-27 | the documented examples |
| KeyCase.KeyCaches.constructor | sdk/typescript/src/utils.ts:4-5 | the caches start consistent |
| KeyCase.KeyCaches.SnakeToCamel | sdk/typescript/src/utils.ts:14-20 | after any history of calls the cached rewriter answers as the plain one |
| KeyCase.KeyCaches.CamelToSnake | sdk/typescript/src/utils.ts:29-35 | after any history of calls the cached rewriter answers as the plain one |
| KeyCodec.CodecRoundTrips | sdk/typescript/src/utils.ts:57-110 | on every tree, dates included, the round trip in either direction succeeds if and only if all keys and leaves are safe for it |
| KeyCodec.DateFreeRoundTrips | sdk/typescript/src/utils.ts:100-110 | without dates it succeeds if and only if the keys are safe |
| KeyCodec.LeafExactly | sdk/typescript/src/utils.ts:62-93 | a date is written as text, on the way to camelCase a text that starts like an ISO date is read as one, and every other leaf stays as it is |
| KeyCodec.IsoDateExactly | sdk/typescript/src/utils.ts:40-47 | the date pattern, character by character |
| KeyCodec.CollisionOverwrites | sdk/typescript/src/utils.ts:84-89 | what one more property does to the rewritten object: `__proto__` is lost, a new key is appended, a key already there has its value replaced where it stands |
| KeyCodec.EntriesOneByOne | sdk/typescript/src/utils.ts:84-89 | when rewritten keys do not collide an object is rewritten entry by entry, in order |
| KeyCodec.SafeKeysStayDistinct | sdk/typescript/src/utils.ts:84-89 | distinct safe keys of an object never collide |
| KeyCodec.ProducedKeyIsSafe | sdk/typescript/src/utils.ts:84-89 | any key that comes out of a round trip is safe, so an unsafe key is always lost |
| KeyCodec.ProtoKeys | sdk/typescript/src/utils.ts:87 | the two spellings of the prototype accessor rewrite to each other |
| KeyCodec.ProtoWitness | sdk/typescript/src/utils.ts:84-89 | an object with the key `_Proto__` comes back empty |
| TokenFetch.ReachableInv | sdk/golang/syfthub/auth.go:371-403 | in every interleaving the semaphore, WaitGroup and channel counts match the goroutines and every result is sent once |
| TokenFetch.BoundedAndSafe | sdk/golang/syfthub/auth.go:371-394 | at most ten workers fetch at a time, and a worker with a result finds the channel open and with room |
| TokenFetch.AcquireExactly | sdk/golang/syfthub/auth.go:373-380 | a worker starts fetching if and only if fewer than ten are between taking the semaphore and giving it back |
| TokenFetch.ScheduleIndependent | sdk/golang/syfthub/auth.go:375-405 | when the call returns, whatever the schedule, the map holds exactly the audiences whose fetch gave a non-empty token, each with that token |
| TokenFetch.MeasureDrops | sdk/golang/syfthub/auth.go:375-403 | every effective step lowers a measure, so every run ends |
| TokenFetch.NeverStuck | sdk/golang/syfthub/auth.go:375-403 | until the call returns some step can be taken |
| TokenFetch.UniqueAudiences | sdk/golang/syfthub/auth.go:350-358 | the audiences once each, at the positions of their first occurrences, in order |
| TokenFetch.FetchSatelliteTokens | sdk/golang/syfthub/auth.go:345-406 | the whole call gives the promised map for the audiences as passed, duplicates included |
| Scaffold.ScaffoldSpec | cli/internal/connectors/registry.go:108-194 | the loops compute the merge, or fail with the first unknown connector |
| Scaffold.AddConnector | cli/internal/connectors/registry.go:120-180 | one connector extends the merge and keeps the set of used IDs exact |
| Scaffold.ChoosePrefix | cli/internal/connectors/registry.go:126-136 | the scan prefixes exactly when several connectors were asked for and a raw ID is taken |
| Scaffold.AppendSteps | cli/internal/connectors/registry.go:138-168 | the step loop appends the renamed steps, each seeing those before it |
| Scaffold.UpdateDeps | cli/internal/connectors/registry.go:144-156 | the dependency loop renames exactly the names not in use |
| Scaffold.MergedInOrder | cli/internal/connectors/registry.go:126-168 | the merged steps are the templates' steps in order, renamed at most by their connector's prefix |
| Scaffold.MergedFields | cli/internal/connectors/registry.go:126-168 | every merged step field by field: its prefix, given by the connector and the earlier steps alone, on its ID and on the dependencies that name no earlier step, and everything else copied |
| Scaffold.RefreshInOrder | cli/internal/connectors/registry.go:170-179 | the refresh list is the templates' refresh entries in order, each with its connector's prefix, and nothing else |
| Scaffold.SingleUnrenamed | cli/internal/connectors/registry.go:126-136 | a connector merged on its own keeps its steps and its refresh list |
| Scaffold.MergeKeepsOrder | cli/internal/connectors/registry.go:138-168 | if every template lists dependencies before dependents, so does the merged spec |
| Scaffold.RefreshNamesStep | cli/internal/connectors/registry.go:170-179 | a refresh entry drawn from its template's steps names a merged step |
| Scaffold.UniqueExactly | cli/internal/connectors/registry.go:126-168 | merged IDs are distinct if and only if each template's are and no renamed ID was already taken |
| Scaffold.UniqueByPlan | cli/internal/connectors/registry.go:126-168 | in terms of connector and template IDs alone: with the renamings worked out from first to last, merged IDs are distinct if and only if each template's are and no new ID of a renamed connector is one that an earlier connector's step gets |
| Scaffold.PlanIsFollowed | cli/internal/connectors/registry.go:126-136 | the merge renames exactly the connectors of the plan, so there is only one |
| Scaffold.PlanExists | cli/internal/connectors/registry.go:126-136 | every selection has such a plan |
| Scaffold.UniqueWhenClean | cli/internal/connectors/registry.go:126-168 | a static condition on connector and step IDs that guarantees it |
| Scaffold.DuplicateWitness | cli/internal/connectors/registry.go:126-168 | the same connector three times gives a repeated ID |
| Scaffold.OwnDependencyExactly | cli/internal/connectors/registry.go:147-154 | a renamed connector's dependency points at its own step if and only if the raw name is not taken earlier |
| Pagination.PageIterator.constructor | sdk/golang/syfthub/pagination.go:46-55 | a new iterator has handed out nothing, with page size 20 for a non-positive one |
| Pagination.PageIterator.Reset | sdk/golang/syfthub/pagination.go:57-65 | from any state, FirstPage's leftovers included, iteration starts afresh |
| Pagination.PageIterator.FetchPage | sdk/golang/syfthub/pagination.go:67-91 | one request, and a short page marks the end |
| Pagination.PageIterator.Next | sdk/golang/syfthub/pagination.go:93-129 | it hands out the next item of the backing list, or ends exactly at its end or at a failing page; after a failure, with the server up again or not, nothing is skipped or repeated and the error stays |
| Pagination.PageIterator.FirstPage | sdk/golang/syfthub/pagination.go:142-145 | the first page of the backing list, unless its request fails |
| Pagination.PageIterator.All | sdk/golang/syfthub/pagination.go:147-159 | the whole list with floor(n/p) + 1 requests, if and only if those pages answer |
| Pagination.PageIterator.Take | sdk/golang/syfthub/pagination.go:161-175 | the first n items with the fewest requests that show them; one item when n is zero |
| Pagination.PageIterator.ForEach | sdk/golang/syfthub/pagination.go:182-191 | items are visited in order with the fewest requests; every visit succeeds if and only if all pages answer and no callback fails, and otherwise it is known where it stopped |
| Pagination.PageIterator.Filter | sdk/golang/syfthub/pagination.go:193-206 | the items of the whole list that satisfy the predicate, as often as the list has them and in its order, and no other |
| Pagination.Server.FetchExactly | sdk/golang/syfthub/pagination.go:67-71 | what a request gets: the items from its offset on, at most a page and none past the end, unless it fails |
| Pagination.PagesExact | sdk/golang/syfthub/pagination.go:85-128 | the closed form of the number of pages needed is exact |
| TsPagination.PageIterator.constructor | sdk/typescript/src/pagination.ts:26-42 | a new iterator has yielded and requested nothing, for any page size |
| TsPagination.PageIterator.NextItem | sdk/typescript/src/pagination.ts:47-62 | the generator yields the next item; a page is requested if and only if the last one is used up and was not short; a page size of zero or less yields nothing |
| TsPagination.PageIterator.FetchNextPage | sdk/typescript/src/pagination.ts:110-117 | fetching neither skips nor repeats an item |
| TsPagination.PageIterator.Take | sdk/typescript/src/pagination.ts:98-105 | it continues where the last call stopped, mid-page or at a boundary |
| TsPagination.PageIterator.All | sdk/typescript/src/pagination.ts:84-90 | everything not yet yielded of the backing list |
| TsPagination.PageIterator.FirstPage | sdk/typescript/src/pagination.ts:69-74 | the page fetched last, which is the first page before iteration goes on; iteration is unaffected |
| TsPagination.PageIterator.TakesThenAll | sdk/typescript/src/pagination.ts:84-117 | any takes followed by `all` give every remaining item once, in order, and no page is requested twice |
| EndpointRegistry.Registry.constructor | sdk/golang/syfthubapi/endpoint.go:289-294 | an empty registry is safe |
| EndpointRegistry.Registry.Register | sdk/golang/syfthubapi/endpoint.go:297-311 | a taken slug is refused and changes nothing; no registered endpoint holds a closed executor afterwards if and only if none did before and the one added does not |
| EndpointRegistry.Registry.Remove | sdk/golang/syfthubapi/endpoint.go:335-344 | exactly the slug goes; open executors and their separation are kept |
| EndpointRegistry.Registry.SetEnabled | sdk/golang/syfthubapi/endpoint.go:400-409 | only the flag of that endpoint changes; safety and separation are as before |
| EndpointRegistry.Registry.ReplaceFileBased | sdk/golang/syfthubapi/endpoint.go:356-395 | both executors of each old file-based endpoint are closed unless an incoming endpoint uses them; code-based entries with other slugs stay and the last incoming one of each slug wins; no registered endpoint holds a closed executor if and only if the winners and the entries that stay were open and no entry that stays uses an executor that is dropped |
| EndpointRegistry.Registry.SeparationSuffices | sdk/golang/syfthubapi/endpoint.go:356-395 | while code-based and file-based endpoints share no executor and all are open, a reload with open executors is safe |
| EndpointRegistry.Registry.Reload | sdk/golang/syfthubapi/endpoint.go:356-395 | every executor of old and incoming endpoints is open afterwards if and only if it was and is not a dropped one |
| EndpointRegistry.Registry.SafeExactly | sdk/golang/syfthubapi/endpoint.go:373-394 | the condition for safety after a reload, from the entries and the executors open before it |
| EndpointRegistry.Registry.SeparateAfter | sdk/golang/syfthubapi/endpoint.go:390-394 | if incoming endpoints share nothing with code-based entries that stay, the two kinds share no executor afterwards |
| EndpointRegistry.Registry.WinnerOrStays | sdk/golang/syfthubapi/endpoint.go:390-394 | every entry after the reload is the last incoming one of its slug or an untouched code-based one |
| EndpointRegistry.Registry.CloseStale | sdk/golang/syfthubapi/endpoint.go:373-388 | whatever order the map is walked in, the same entries go and the same executors close |
| EndpointRegistry.Registry.CloseUnused | sdk/golang/syfthubapi/endpoint.go:375-385 | the executor and the policy executor of a dropped endpoint are each closed unless still used |
| EndpointRegistry.Registry.AddIncoming | sdk/golang/syfthubapi/endpoint.go:390-394 | the incoming endpoints become file-based entries; no executor changes |
| EndpointRegistry.LastWins | sdk/golang/syfthubapi/endpoint.go:390-394 | the last incoming endpoint of a slug is registered, entries with other slugs stay, nothing else appears |
| RegistryRuns.Perform | sdk/golang/syfthubapi/endpoint.go:297-409 | after any program of Register, Remove, SetEnabled and ReplaceFileBased whose reloads bring executors of their own and none that an earlier reload dropped, no registered endpoint holds a closed executor and the two kinds share none |
| RegistryRuns.SharedExecutorWitness | sdk/golang/syfthubapi/endpoint.go:373-388 | dropping a file-based endpoint closes the executor it shares with a registered code-based one |
| Base64Url.BytesOfSextets | components/aggregator/src/aggregator/crypto.py:52-54 | regrouping bits loses nothing, and n bytes give ceil(4n/3) characters |
| Base64Url.AlphabetListed | components/aggregator/src/aggregator/crypto.py:52-54 | the characters are those of RFC 4648, section 5, in its order |
| Base64Url.SameBits | components/aggregator/src/aggregator/crypto.py:52-54 | the characters carry the bytes' bits from left to right: as numbers both agree up to the zero fill of the last character |
| Base64Url.PaddingRestored | components/aggregator/src/aggregator/crypto.py:52-59 | the stripped padding is exactly what `-len(s) % 4` puts back |
| Base64Url.DecodeAlphabet | components/aggregator/src/aggregator/crypto.py:57-59 | text of the alphabet decodes if and only if its length is not 1 modulo 4 |
| Base64Url.DecodeLeniently | components/aggregator/src/aggregator/crypto.py:57-59 | the decoder takes the standard alphabet's `+` and `/` for `-` and `_`, and skips foreign characters |
| Base64Url.RoundTrip | components/aggregator/src/aggregator/crypto.py:52-59 | decoding gives back every byte string, from the stripped and from the padded text |
| Base64Url.DecodeThenEncode | components/aggregator/src/aggregator/crypto.py:52-59 | re-encoding gives the text back if and only if its unused bits are zero |
| Base64Url.BytesCarryValue | components/mcp/server.py:298-299 | the byte length computed from the bit length holds the value with no leading zero octet |
| Base64Url.IntRoundTrip | components/mcp/server.py:285-299 | every integer is recovered from its text |
| Base64Url.RfcExactly | components/mcp/server.py:285-299 | the text is the one RFC 7518 asks for if and only if the integer is positive; zero gives the empty text |
| OAuth.StepConserves | components/mcp/server.py:1473-1539 | no request makes a code disappear but its exchange or, after its expiry, a request for it |
| OAuth.Conservation | components/mcp/server.py:1372-1539 | in every run, each time a code was issued it is waiting, was exchanged, was discarded by a request for it after its expiry, or was replaced by a login given the same text |
| OAuth.OneFate | components/mcp/server.py:1473-1539 | with fresh codes each issued code is exactly one of waiting, exchanged and discarded as expired, and is exchanged at most once |
| OAuth.CodesHaveLogins | components/mcp/server.py:1372-1391 | every waiting code stands, field by field, for the form and the upstream answer of the successful login that issued it: client, redirect URI, scope, email and its standing, PKCE challenge and method, and an expiry ten minutes on |
| OAuth.ExchangeIsBacked | components/mcp/server.py:1473-1502 | every exchange follows a login of the same client at most ten minutes before, with the secret of an earlier registration; a verifier it carries matches the challenge that this very login gave, if it gave one |
| OAuth.TokenProvenance | components/mcp/server.py:1524-1539 | every stored token carries the client, scope, email and email standing of the login that issued a code exchanged for it, and its client is registered |
| OAuth.CodeWaits | components/mcp/server.py:1473-1502 | failed attempts on a code before its expiry do not use it up |
| OAuth.HonestExchange | components/mcp/server.py:1473-1539 | whatever happens in between, the right credentials exchange a waiting code in time |
| OAuth.AnsweredExactly | components/mcp/server.py:1536-1554 | a consumed code is answered with tokens if and only if its login gave a scope |
| OAuth.NullScopeWitness | components/mcp/server.py:1536-1561 | a run in which the code is gone and its token stored, but the client is told of a server error |
| OAuth.GrantedOnlyByExchange | components/mcp/server.py:1473-1554 | tokens are never answered without consuming a waiting code |
| OAuth.VerifierOptionalExactly | components/mcp/server.py:1496-1498 | in any run an otherwise right request for a code with a challenge is accepted if and only if it carries no verifier or one that passes; without a stored method none passes |
| OAuth.NoVerifierWitness | components/mcp/server.py:1447-1498 | a run in which a code issued with a challenge is exchanged without a verifier |
| OAuth.WrongVerifierWitness | components/mcp/server.py:1495-1498 | a run in which a wrong verifier is refused and the code goes on waiting |
| OAuth.RedirectUncheckedExactly | components/mcp/server.py:1438-1498 | in any run a request is exchanged if and only if its credentials are right and PKCE lets it pass, whatever redirect URI it carries; it keeps the documented promise if and only if the URI matches or it fails for another reason |
| OAuth.RedirectWitness | components/mcp/server.py:1438-1554 | a run in which a code issued for one redirect URI is exchanged with another |
| OAuth.PkceExactly | components/mcp/server.py:301-326 | an S256 challenge accepts exactly the verifiers with the same digest, a plain one only itself, and a missing or unknown method accepts none |
| OAuth.CredentialsExactly | components/mcp/server.py:1456-1471 | a non-empty form field wins over the Basic header, for the client ID and for the secret |
| OAuth.ContainsExactly | components/mcp/server.py:1551 | the test for the OpenID scope finds exactly what stands at some position |
| OAuth.AuthorizationServer.constructor | components/mcp/server.py:157-159 | the server starts as the empty run |
| OAuth.AuthorizationServer.OauthRegister | components/mcp/server.py:477-505 | registration stores the client's secret and is one step of the state machine |
| OAuth.AuthorizationServer.SyfthubLogin | components/mcp/server.py:1303-1404 | each refusal and server error has its status and changes nothing; an accepted login stores its code with the form's own fields and is answered with it; either is one step of the state machine |
| OAuth.AuthorizationServer.OauthToken | components/mcp/server.py:1450-1561 | the token handler's checks in their order, each with its error, and its updates, field by field, are one step of the state machine |
| LogTail.NamesSortAsDates | cli/internal/cmd/node_run.go:239-240 | file names sort exactly as their dates |
| LogTail.FileNameExactly | cli/internal/cmd/node_run.go:239-240 | the file name of a date, character by character |
| LogTail.GetLogFiles | cli/internal/cmd/node_endpoint_log.go:323-341 | the plain files of the directory whose names end in `.jsonl`, each once, newest name first |
| LogTail.WrittenIsLog | cli/internal/cmd/node_endpoint_log.go:331-332 | every file the writer leaves is a log file to the reader |
| LogTail.CollectEntries | cli/internal/cmd/node_endpoint_log.go:149-160 | the loop takes whole readable files until the limit is reached |
| LogTail.ShowRecentLogs | cli/internal/cmd/node_endpoint_log.go:129-185 | newest first, min(limit, total) entries of what is readable, and the most recent ones when the files are consistent; a negative limit panics exactly when there is a log file |
| LogTail.EarlyStopExactly | cli/internal/cmd/node_endpoint_log.go:149-170 | stopping early is right for every limit if and only if no file holds an entry later than one of a later-named file |
| LogTail.StorePartitions | cli/internal/cmd/node_run.go:229-263 | each file holds the entries of its date in the order they were logged |
| LogTail.OfInOrder | cli/internal/cmd/node_run.go:229-263 | they keep that order, and none is missing |
| LogTail.ReadBackConserves | cli/internal/cmd/node_run.go:229-263 | the files together hold every logged entry exactly as often as it was logged |
| LogTail.WriterConsistentExactly | cli/internal/cmd/node_run.go:239-240 | the files are consistent if and only if the node's date never runs backwards |
| LogTail.LoggedThenShown | cli/internal/cmd/node_endpoint_log.go:129-170 | from writer to reader: the most recent of all logged entries are shown for every limit if and only if dates follow time |
| LogTail.FixedZoneFollowsTime | cli/internal/cmd/node_run.go:239 | dates shown by a clock at a fixed offset from UTC, in the Gregorian calendar, follow time |
| LogTail.ClockFollowsTimeExactly | cli/internal/cmd/node_run.go:239 | for a clock whose offset from UTC changes with time, dates follow time whatever is logged if and only if the day it shows never goes back |
| LogTail.FixedZoneShows | cli/internal/cmd/node_endpoint_log.go:129-170 | with a clock that stays in its zone, set back or not, the most recent of all logged entries are shown for every limit, in the years 0 to 9999 |
| LogTail.CivilIncreases | cli/internal/cmd/node_run.go:239 | later days have later Gregorian dates |
| LogTail.NextDayExactly | cli/internal/cmd/node_run.go:239 | the next day is the earliest date after a date |
| LogTail.MonthsListed | cli/internal/cmd/node_run.go:239 | the lengths of the months, and the leap years of the Gregorian calendar |
| LogTail.LocalDayExactly | cli/internal/cmd/node_run.go:239 | a day is 86400 seconds long and starts at midnight on the clock |
| LogTail.ZoneChangeWitness | cli/internal/cmd/node_endpoint_log.go:149-170 | two requests logged by a clock that is moved to another zone between them: the newer one is not shown |
| Grid.Measure | cli/internal/output/output.go:264-284 | columns as wide as the widest item and the padding, as many as fit but at least one, and as few rows as hold the items; no layout exactly where the division panics |
| Grid.PrintGrid | cli/internal/output/output.go:259-311 | it prints as many lines as the layout has rows, each the line of its row |
| Grid.PrintRow | cli/internal/output/output.go:288-309 | one line of the grid |
| Grid.LineIsAligned | cli/internal/output/output.go:286-310 | a line shows its row's items in order, the one in column c at offset c * colWidth, with nothing after the last |
| Grid.PrintedOnce | cli/internal/output/output.go:286-310 | every item is printed at one place of one line only |
| Grid.GridShowsOnce | cli/internal/output/output.go:286-310 | over the whole output every item is at exactly one place, running down the columns, and no line is empty |
| Grid.FitsExactly | cli/internal/output/output.go:277-310 | every line fits the terminal if and only if every item alone does |

## Left out

- AgentStream.StreamPrefix: is about a handler that sends from one goroutine; with several, numbers are taken before the channel is entered and may arrive out of order.
- SessionManager.AgentSessionManager.StartSession: is the run without interleaving; interleavings are covered by `SessionProtocol`. A registrar replaced in mid-run is not modelled.
- RouteMessage, GetSession, StartReaper and StopReaper: one lookup, or a ticker around modelled code.
- OneShot.FinalResponse: takes event data already parsed, with the content absent where parsing or the type test fails.
- SseParser.ReadSSEEvents: takes decoded text; multi-byte decoding, early return by the consumer and the release of the reader are not modelled.
- SseAgreement.StreamEvents: yields the pairs handed to the event parser; JSON parsing, cancellation of the context and the scanner's limit on line length are not modelled.
- KeyCodec.CodecRoundTrips: dates are parsed and printed by an arbitrary library; objects keep insertion order, so JavaScript's reordering of integer-like keys is not modelled, nor are objects that are neither plain, arrays nor dates.
- TokenFetch.ScheduleIndependent: the outcome of each audience's fetch is fixed by the audience; HTTP and the context are inside that outcome.
- Scaffold.MergedInOrder: the `options_from` rewriting, which writes through pointers into the stored template, and the unused `params` are not modelled; fields that are only copied are one opaque payload.
- Pagination.PageIterator.Take: a negative n panics in Go when the result is allocated; the model takes n >= 0. Items arrive already parsed, and a failing request and a failing parse are the same. The server does not change in the middle of a call.
- Pagination.PageIterator.FirstPage: followed by Next without Reset is not claimed to iterate the list, because a short first page leaves the iterator exhausted.
- TsPagination.PageIterator.NextItem: the backing list answers every request and holds no undefined item, at which the generator would stop; a request for no items gets none.
- EndpointRegistry: List, Get, Clear and Close errors.
- Base64Url.Decode: text beyond ASCII, which Python refuses before decoding, is skipped like any foreign character; all decoding errors are one.
- OAuth.ExchangeIsBacked: SHA-256 is an arbitrary function; JWT signing, the upstream calls, session storage and the HTML authorization page are not modelled, and a scope is a text or null. Handlers are atomic although the login handler awaits upstream answers before its first update.
- OAuth.AuthorizationServer.SyfthubLogin: a body that is not a JSON object is a server error before anything else, and is not modelled; nor is an upstream answer whose email is null.
- LogTail.ShowRecentLogs: entries arrive parsed, lines that do not parse are absent; a directory that cannot be read, printing, the JSON output and following the log are not modelled.
- LogTail.StorePartitions: every write succeeds.
- LogTail.NamesSortAsDates: is about the years 0 to 9999; in others Go prints another width or a sign.
- Grid.LineIsAligned: for padding >= 0, the only kind the CLI passes; display texts are opaque with a given width.
- Token and signature verification, key exchange and encryption: library calls.
- HTTP, WebSocket, NATS, subprocess and daemon handling, the web frontend, command wiring, database migrations, error classes and configuration setters: no algorithmic content.
- The 401 retry of the TypeScript client: the code bounds nothing there that could be proved.
