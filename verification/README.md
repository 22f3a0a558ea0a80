# A Dafny model of the chat panel's lists, transcript store, reducer and debounce

The chat panel (`panel-rust`) keeps lists, transcripts and skill edits consistent by routes that are
harder than what they compute. This project states what each part is for and proves that its
algorithm does that, for all inputs and over all runs.

- **List diffing** (`RowOps`, `UniqueDiff`, `Lcs`, `LcsDiff`, `Dirty`, `Minimality`, `ListModel`).
  `diff_by_id` turns an old key list into a new one. Duplicate-free keys go through a working list
  with moves, other keys through a longest-common-subsequence table, a backward walk and a forward
  emission. `reconcile` replays the script on a mutable model, patches changed rows and rebuilds on a
  desync. The unique-key loops are proved equal to a script read off the two lists alone, and the
  theorems are about that script.
- **Transcript store** (`Decimal`, `Json`, `TranscriptLines`, `TranscriptText`, `JsonlStore`,
  `StoreRuns`). Each thread has a line file, an index of message offsets and a trailer file, held as
  texts of one `char` per byte. Lines are written and read concretely. `StoreRuns` treats the
  operations as steps and proves that paged reads through the index see what a full scan would.
- **Conversation reducer** (`Conversation`, `Grouping`, `Rebuild`, `TranscriptDiff`). Events merge
  into items by kind and id. `Grouping` says what the result is without the reducer; `Rebuild` adds the
  assignment of synthetic ids by adjacency; `TranscriptDiff` joins it to the row diff.
- **Debounce** (`Debounce`). A transition system with a clock: write, call, check, read and publish are
  separate steps, and the sleeping attempts of all skills share one wrapping counter.
- **Thread naming** (`ThreadNames`). The suffix loop, with its pigeonhole argument.

`Sequences`, `Text` and `Wrappers` hold shared helpers. Every lemma turns Dafny's automatic induction off, so
each inductive proof shows its own recursion. `dafny verify dfyconfig.toml` checks the whole project.

## Where the code and its documentation disagree

The model follows the code.

- `panel-rust/src/dirty.rs:23-24` promises the minimal sequence. Neither path always gives it.
  `Minimality.LosingTheFirstKeyMovesAll` is a family of failures of the unique-key path, and
  `Minimality.MinimalExactlyWhen` says exactly when that path is minimal. The table path has no moves:
  it spends two operations on `[a, a, b]` and `[b, a, a]`, where one move does it
  (`Minimality.RotationCostsTwo`), and `Minimality.TableIsMinimalExactlyWhen` says exactly when it is minimal.
- `panel-rust/src/effect_executor.rs:45-50` says that an extra run never propagates stale data. The
  run reads the file and publishes it to each vendor in separate steps on a thread of its own
  (`panel-rust/src/skills_manager_adapter.rs:174-197`), so two runs can overlap
  (`Debounce.OvertakenRunPublishesStale`). `Debounce.EndIsCurrentExactlyWhen` says exactly when a state
  is certain to settle on the current content; `Debounce.PromptRunsWait` shows that runs which are over
  before twice the delay has passed since their call never overlap.
- `panel-rust/src/effect_executor.rs:24-27` says that one counter is sufficient for all skills. The
  calls carry their own skill (`panel-rust/src/effect_executor.rs:83-89` and `306-308`), and a call for
  one skill supersedes a sleeping call for another (`Debounce.SwitchingSkillsLosesAnEdit`).
  `Debounce.CallPassesExactlyWhen` says exactly which calls pass.
- `panel-rust/src/conversation.rs:396-399` says that statuses are never merged into another bubble. An
  agent message whose wire id has the form `synthetic-<n>` can own the id that a later status is given
  (`Rebuild.ReconnectIsMerged`); `Rebuild.StatusIsAloneExactlyWhen` gives the exact condition.
- `panel-rust/src/conversation.rs:370-373` says that the open run is cleared when a chunk with a real id
  arrives. The code keeps the run under that id, so an id-less chunk right behind it joins its item: an
  agent message `a` with id `x` and an agent message `b` without one give the single item `x` with text
  `ab` (`Rebuild.RealIdIsJoined`). `Rebuild.AdjacencyDecides` says exactly which id an id-less chunk gets.
- `panel-rust/src/jsonl_store.rs:489-492` says that a missing or inconsistent index is rebuilt. A lost
  index followed by an append is accepted as it is (`StoreRuns.AppendAfterLossHidesHistory`);
  `StoreRuns.AppendKeepsIndexExactlyWhen` gives the exact condition for one append, and
  `StoreRuns.OrderlyExactlyWhen` for a whole run, read off its actions.

## Assumptions

- `Rebuild.Unclaimed`: no message of the same kind brings a given synthetic id along from the wire. The
  code does not check this. Only the results on that one id need it; the grouping, extension and diff
  results do not.
- `StoreRuns.LengthFits`: a line file stays shorter than 2^64 bytes, the type of its reported length.
- `Debounce.Happens`: the debounce results over runs count at most 2^64 calls; `Debounce.CheckPassesExactlyWhen` has no
  such bound.
- `Debounce.State.published` is the skill's own record at the vendors, which a run for that skill and only
  such a run updates (`panel-rust/src/skills_manager_adapter.rs:174-192`).
- `new_rows` has the length of `new_keys`, which the code asserts.

## Model

| member | source | states |
|---|---|---|
| `Dirty.DiffById` | panel-rust/src/dirty.rs:39-145 | For all keys and rows: every index is in bounds when its operation is replayed, every insert carries the row of the position it lands on, the new key list comes out; duplicate-free keys give the unique-key script, all others a script without moves of exactly n + m - 2·LCS operations |
| `UniqueDiff.DiffUnique` | panel-rust/src/dirty.rs:51-80 | The two loops emit exactly the script given in closed form from the two key lists |
| `UniqueDiff.SettlePosition` | panel-rust/src/dirty.rs:54-73 | One round of the target loop: the working list becomes the settled prefix plus the old keys not yet placed, and at most one operation is emitted |
| `UniqueDiff.PopSurplus` | panel-rust/src/dirty.rs:74-78 | The pop loop emits one removal per surplus key, from the end |
| `UniqueDiff.ScriptRuns` | panel-rust/src/dirty.rs:51-80 | Replayed, the unique-key script stays in bounds, yields the new keys, and removes exactly the old keys that are gone, last first |
| `UniqueDiff.ScriptIsNecessary` | panel-rust/src/dirty.rs:54-78 | Inserts bring only keys the old list lacks, each with its own row; moves take only retained keys that overtake a waiting old key, and go toward the front; targets strictly increase, so no key is placed twice; removals touch only the surplus |
| `UniqueDiff.ScriptIsComplete` | panel-rust/src/dirty.rs:54-73 | Conversely every new key is inserted and every retained key that overtakes a waiting one is moved |
| `UniqueDiff.GrowthIsAppends` | panel-rust/src/dirty.rs:51-80 | A key list that only grew at its end gives inserts at the end and nothing else |
| `LcsDiff.FillTable` | panel-rust/src/dirty.rs:82-96 | The table loop fills cell (i, j) with the LCS length of the two prefixes |
| `LcsDiff.WalkBack` | panel-rust/src/dirty.rs:98-123 | The backward walk returns steps that consume the old keys, produce the new ones, keep only equal keys, cost n + m - 2·LCS, and put removals before inserts |
| `LcsDiff.Emit` | panel-rust/src/dirty.rs:125-144 | The forward pass turns the steps into operations that run in bounds, yield the new keys, insert in ascending order and are as many as the steps that edit |
| `LcsDiff.DiffLcs` | panel-rust/src/dirty.rs:82-144 | Table, walk and emission together: correct script of n + m - 2·LCS operations, without moves |
| `Lcs.LengthIsLongest` | panel-rust/src/dirty.rs:82-96 | The recurrence is the true maximum: a common subsequence of that length exists and none is longer, duplicates included |
| `Lcs.LengthIsUpperBound` | panel-rust/src/dirty.rs:82-96 | No common subsequence is longer than the recurrence says |
| `Lcs.LengthIsAttained` | panel-rust/src/dirty.rs:98-123 | A common subsequence of exactly that length exists |
| `Dirty.NoShorterMovelessScript` | panel-rust/src/dirty.rs:82-144 | Optimality of the table path: no insert/remove script between the two key lists is shorter |
| `Dirty.RowsFollowKeys` | panel-rust/src/list_model.rs:49-60 | For any correct script, the row at a position either stood under that very key before or was inserted as that key's new row |
| `Dirty.RetainedRowsSurvive` | panel-rust/src/dirty.rs:51-80 | After the unique-key script every retained key carries its old row, every other key its new row |
| `RowOps.InBoundsPrefix` | panel-rust/src/list_model.rs:49-60 | Every prefix of a replayable script is replayable, and the next operation fits the list it meets |
| `Minimality.NoShorterScript` | panel-rust/src/dirty.rs:23-38 | Lower bound over all scripts, moves included, for all key lists, duplicates or not: at least m - LCS operations plus one per old element, copies counted, that has no counterpart in the new list |
| `Minimality.ShortestScript` | panel-rust/src/dirty.rs:23-38 | The bound is attained, for all key lists, by a script that leaves a longest common subsequence in place |
| `Minimality.TableIsMinimalExactlyWhen` | panel-rust/src/dirty.rs:82-144 | The "minimal" of the documentation, made exact for the table path: its script is minimal if and only if the two lists share no element, copies counted, beyond a longest common subsequence |
| `Minimality.RotationCostsTwo` | panel-rust/src/dirty.rs:82-144 | It fails there too: for x, x, y and y, x, x the table path emits two operations where one move does it |
| `Minimality.MinimalExactlyWhen` | panel-rust/src/dirty.rs:23-79 | The "minimal" of the documentation, made exact for the unique-key path: its script is minimal if and only if the retained keys that overtake no waiting old key are as many as an LCS has elements |
| `Minimality.LosingTheFirstKeyMovesAll` | panel-rust/src/dirty.rs:54-78 | The documented minimality fails: when only the first key goes, the code emits one operation per remaining key plus one, where a single removal would do |
| `ListModel.Reconcile` | panel-rust/src/list_model.rs:13-71 | From any model and any key cache: the model ends as the new rows, the cache as the new keys. If cache and model agree in length, the operations are the diff of the cached keys and the patched positions are exactly those where the replayed rows differ; if not, a pure rebuild and no patch. An identical second call does nothing |
| `ListModel.ReplayOnModel` | panel-rust/src/list_model.rs:49-60 | The in-place replay (move = remove then insert) has the meaning of the script |
| `ListModel.PatchRows` | panel-rust/src/list_model.rs:62-68 | In-place patching reaches the new rows and touches exactly the differing positions, in order |
| `ListModel.DiffCorners` | panel-rust/src/list_model.rs:36-48 | Equal key lists give no operations; an empty start gives one insert per row |
| `ListModel.PatchesAreChangedRows` | panel-rust/src/list_model.rs:62-68 | With duplicate-free keys and no desync, a position is patched if and only if its key was retained and its row changed |
| `ListModel.DifferingIncreases` | panel-rust/src/list_model.rs:62-68 | The patched positions come in strictly increasing order, so no row is notified twice |
| `Decimal.ParsePrint` | panel-rust/src/jsonl_store.rs:268-268 | Every 64-bit offset parses back from its decimal text |
| `Decimal.ParseExactlyWhen` | panel-rust/src/jsonl_store.rs:497-500 | Exactly which texts are accepted: a number below 2^64 with any zeros and at most one plus sign in front |
| `Decimal.PrintIsDecimal` | panel-rust/src/jsonl_store.rs:268-268 | Offsets are written as decimal digits, most significant first, without padding |
| `Json.ReadWrittenObject` | panel-rust/src/jsonl_store.rs:187-196 | Every record written reads back as itself, whatever quotes, backslashes or control characters its strings hold |
| `Json.ReadEscaped` | panel-rust/src/jsonl_store.rs:187-196 | Unescaping inverts escaping as section 7 of RFC 8259 requires it |
| `Json.ObjectHasNoBreak` | panel-rust/src/jsonl_store.rs:187-196 | A written record holds no line break, so one record is one line |
| `Json.WrittenEscapes` | panel-rust/src/jsonl_store.rs:187-196 | Which characters are escaped and how, by example |
| `Json.WrittenExample` | panel-rust/src/jsonl_store.rs:187-196 | Punctuation of a record, by example |
| `TranscriptLines.DecodeEncode` | panel-rust/src/jsonl_store.rs:57-62 | Every message and trailer line reads back as itself and the tag peek recognises exactly the messages |
| `TranscriptLines.DecodeEncodeTrailer` | panel-rust/src/jsonl_store.rs:371-410 | The standalone trailer file reads back as written |
| `TranscriptLines.DecodesExactlyWhen` | panel-rust/src/jsonl_store.rs:44-62 | Exactly which lines are a given message or a given trailer: the tag, and each field by its name and type, in any order and among any others; an optional field left out or null is none; a field given twice is an error |
| `TranscriptLines.OldMessageLine` | panel-rust/src/protocol_types.rs:36-69 | A cached line from before status, id, raw_input and raw_output existed reads with none of them |
| `TranscriptLines.WrittenMessage` | panel-rust/src/jsonl_store.rs:57-62 | The record written for a message: its tag, the name of its kind, and its fields by name, in order |
| `TranscriptLines.WrittenTrailer` | panel-rust/src/jsonl_store.rs:44-51 | The record written for a trailer, with its tag in the line file and without one in the trailer file |
| `TranscriptLines.PeekAgreesWithDecode` | panel-rust/src/jsonl_store.rs:440-443 | On any line that decodes, written by this program or not, peeking at the tag and decoding agree |
| `TranscriptText.ScanIsExact` | panel-rust/src/jsonl_store.rs:422-452 | On any text whose non-blank lines decode, with or without a final line break: one offset per message, and the line at the k-th offset is the k-th message |
| `TranscriptText.ReadSlice` | panel-rust/src/jsonl_store.rs:521-565 | Reading at a slice of the offsets gives that slice of the messages |
| `TranscriptText.LinesAppend` | panel-rust/src/jsonl_store.rs:247-247 | Writing a line at the end adds exactly that line, at the old length as offset |
| `TranscriptText.AppendEncoded` | panel-rust/src/jsonl_store.rs:233-248 | What one appended record does to offsets, messages and trailer |
| `TranscriptText.NumbersAppend` | panel-rust/src/jsonl_store.rs:258-273 | Parsing an index text with one more printed offset gives the old offsets and the new one |
| `TranscriptText.IndexRoundTrip` | panel-rust/src/jsonl_store.rs:458-474 | A written index parses back to its offsets |
| `TranscriptText.BlankReadsAsNothing` | panel-rust/src/jsonl_store.rs:155-157 | A line that is blank for the full scan is no record for the byte scan either |
| `TranscriptText.LinesCoverText` | panel-rust/src/jsonl_store.rs:430-450 | The lines lie one behind the other, each up to the next line break, and cover the whole text, an unterminated last line included |
| `TranscriptText.MessagesAreMessageLines` | panel-rust/src/jsonl_store.rs:150-164 | The messages of a file are those of its message lines, all of them, in order |
| `TranscriptText.TrailerIsLastTrailerLine` | panel-rust/src/jsonl_store.rs:163-168 | The trailer of a file is that of its last trailer line |
| `TranscriptText.NoTrailerExactlyWhen` | panel-rust/src/jsonl_store.rs:149-168 | A file has none if and only if it has no trailer line |
| `TranscriptText.ReadAllFailsExactlyWhen` | panel-rust/src/jsonl_store.rs:551-557 | A seeked read fails if and only if a line it seeks to does not decode |
| `TranscriptText.ReadAllSkipsTrailers` | panel-rust/src/jsonl_store.rs:558-561 | An offset of a trailer line reads as nothing |
| `Text.BlankIsAllSpaces` | panel-rust/src/jsonl_store.rs:155-157 | A line is blank if and only if it holds nothing but white space |
| `Text.TrimIsExact` | panel-rust/src/jsonl_store.rs:499-499 | Trimming takes all white space off both ends and nothing else |
| `JsonlStore.Store.Load` | panel-rust/src/jsonl_store.rs:140-172 | The line loop returns all messages in order and the last trailer, or the number of the first bad line; an absent file is empty |
| `JsonlStore.Store.Overwrite` | panel-rust/src/jsonl_store.rs:179-212 | Line file, index and trailer file are replaced together; nothing else changes |
| `JsonlStore.Store.Append` | panel-rust/src/jsonl_store.rs:218-251 | The line file grows by the record, the index by the old length; nothing else changes |
| `JsonlStore.Store.UpdateTrailer` | panel-rust/src/jsonl_store.rs:363-385 | Only the trailer file changes |
| `JsonlStore.Store.ReadTrailer` | panel-rust/src/jsonl_store.rs:395-410 | Absent, malformed and present trailer files |
| `JsonlStore.Store.ComputeOffsets` | panel-rust/src/jsonl_store.rs:422-452 | The offsets of the current line file; of an absent one there are none |
| `JsonlStore.ScanText` | panel-rust/src/jsonl_store.rs:430-450 | The byte loop returns the start of every line whose tag says message |
| `JsonlStore.Store.WriteIndex` | panel-rust/src/jsonl_store.rs:458-474 | The index text is the printed offsets, one a line |
| `JsonlStore.Store.EnsureIndex` | panel-rust/src/jsonl_store.rs:493-516 | The index file and the offsets after the call; StoreRuns.LostIndexIsPutBack and StoreRuns.UsableIndexIsKept say what they are |
| `JsonlStore.Store.ReadMessagesAtOffsets` | panel-rust/src/jsonl_store.rs:521-565 | The seek loop, its early exits and its errors |
| `JsonlStore.Store.Tail` | panel-rust/src/jsonl_store.rs:572-582 | The page of the last entries, or the error of reading them; StoreRuns.IndexRefinesScan says what is on it |
| `JsonlStore.Store.PredecessorPage` | panel-rust/src/jsonl_store.rs:589-604 | The page before an index, or the error of reading it; StoreRuns.IndexRefinesScan says what is on it |
| `JsonlStore.Store.MessageCount` | panel-rust/src/jsonl_store.rs:609-611 | The number of index entries that answer |
| `JsonlStore.LoadFailsExactlyWhen` | panel-rust/src/jsonl_store.rs:150-162 | load fails if and only if a line is neither blank nor decodes, and names the first such line, counted from one |
| `JsonlStore.ReadFailsExactlyWhen` | panel-rust/src/jsonl_store.rs:526-557 | When a seeked read fails, and with which error |
| `JsonlStore.TrailerFailsExactlyWhen` | panel-rust/src/jsonl_store.rs:395-410 | A missing trailer file is no error, a malformed one is |
| `JsonlStore.PageOfAnyIndex` | panel-rust/src/jsonl_store.rs:572-604 | Whatever the index holds, right or stale: a page starts the page size before its end, or at zero, and is what reading its entries gives |
| `StoreRuns.LostIndexIsPutBack` | panel-rust/src/jsonl_store.rs:489-508 | If the index is absent, or holds no number beside a line file that is not empty, a paged read writes the index of exactly the scanned offsets, answers with them, and leaves line file and trailer alone |
| `StoreRuns.UsableIndexIsKept` | panel-rust/src/jsonl_store.rs:493-508 | Any other index is kept and answers as it is |
| `StoreRuns.RunShowsLog` | panel-rust/src/jsonl_store.rs:179-251 | Over every orderly run from an absent thread, the files hold exactly the log of what was written, through bytes, escapes and line breaks |
| `StoreRuns.IndexRefinesScan` | panel-rust/src/jsonl_store.rs:493-611 | In every such state, with n messages: load is the log; tail(k) has min(k, n) messages and predecessor_page(b, k) min(k, e) of them, where e is b or n if that is less, each exactly those before its end; the start index and whether older ones exist are right; message_count is n; trailer is the last one written |
| `StoreRuns.IncrementalIndexIsRebuiltIndex` | panel-rust/src/jsonl_store.rs:218-273 | After every append the incrementally grown index parses to what a fresh scan gives |
| `StoreRuns.AppendKeepsIndexExactlyWhen` | panel-rust/src/jsonl_store.rs:258-273 | An append keeps the index right if and only if an index file was there or there was no message to index; the messages are right either way |
| `StoreRuns.AppendAfterLossHidesHistory` | panel-rust/src/jsonl_store.rs:493-508 | If the index file is lost and an append comes before any read, load still finds everything, but tail shows the appended message only and says that there is nothing older |
| `StoreRuns.OrderlyExactlyWhen` | panel-rust/src/jsonl_store.rs:258-273 | Which runs are orderly, read off the actions alone: every append comes when an earlier action has left an index file and none has lost it since, or when there are no messages, and every file keeps within its length type |
| `StoreRuns.NoticedLossIsHarmless` | panel-rust/src/jsonl_store.rs:489-508 | A lost index does no harm: if every loss is followed by a paged read or a rewrite before the next append, the run is orderly |
| `StoreRuns.WithoutLossAppendsAreOrderly` | panel-rust/src/jsonl_store.rs:218-251 | In particular every run in which no index file is lost |
| `StoreRuns.StepKeepsSound` | panel-rust/src/jsonl_store.rs:179-251 | Every operation keeps the file whole and the index exact |
| `StoreRuns.RunKeepsSound` | panel-rust/src/jsonl_store.rs:179-251 | The same over whole runs |
| `StoreRuns.FullTextIsWhole` | panel-rust/src/jsonl_store.rs:179-196 | A rewrite loads back as exactly the messages and trailer given |
| `StoreRuns.FullTextLines` | panel-rust/src/jsonl_store.rs:179-196 | A rewritten file has one line per message and the trailer line behind them, and nothing else |
| `StoreRuns.IndexTextLines` | panel-rust/src/jsonl_store.rs:458-474 | A written index has one line per offset with its digits, and nothing else |
| `StoreRuns.LogIsLastRewriteAndAppends` | panel-rust/src/jsonl_store.rs:179-251 | What the log of a run is: the messages of its last rewrite and those appended since; the trailer line is that of the rewrite |
| `StoreRuns.LogWithoutRewrite` | panel-rust/src/jsonl_store.rs:218-251 | And without a rewrite the messages appended |
| `StoreRuns.LogTrailerIsLastWritten` | panel-rust/src/jsonl_store.rs:363-385 | The trailer is that of the last action that wrote one |
| `StoreRuns.GrowthKeepsPrefix` | panel-rust/src/jsonl_store.rs:218-251 | Appends, trailer updates and reads never change or drop a stored message |
| `StoreRuns.PagingTiles` | panel-rust/src/jsonl_store.rs:567-604 | Paging back from tail until no older page exists collects every message there was at the tail call, in order, without gap or repeat, whatever is appended or read between the pages |
| `Conversation.ConversationState.Apply` | panel-rust/src/conversation.rs:169-214 | False and no change for other threads; otherwise the event is merged by kind and id |
| `Conversation.ConversationState.UpsertUser` | panel-rust/src/conversation.rs:216-226 | Replaces the text of the one item with that id, or appends it |
| `Conversation.ConversationState.MergeText` | panel-rust/src/conversation.rs:228-265 | Appends to the text of the item with that kind and id, or creates it |
| `Conversation.ConversationState.UpsertTool` | panel-rust/src/conversation.rs:267-313 | Overwrites only the fields supplied |
| `Conversation.ConversationState.UpsertTerminal` | panel-rust/src/conversation.rs:315-347 | Appends output, overwrites title and exit code only if supplied, default title otherwise |
| `Conversation.ConversationState.MarkAllStreamingCompleted` | panel-rust/src/conversation.rs:157-165 | Afterwards no assistant or thought item is streaming; kinds, ids and texts stay, and all other items are as they were |
| `Grouping.FoldedIsGrouped` | panel-rust/src/conversation.rs:169-347 | Grouping theorem: the items are the distinct keys in order of first occurrence, each made of that key's own events alone (concatenation, last text, or last value supplied), every notice its own item |
| `Grouping.FoldedKeys` | panel-rust/src/conversation.rs:169-347 | No two items share kind and id, and a key has an item exactly when an event with it was seen |
| `Grouping.ItemOfKey` | panel-rust/src/conversation.rs:216-313 | The one item of a key is the summary of that key's updates |
| `Grouping.ItemsAreMentioned` | panel-rust/src/conversation.rs:169-347 | Read off the events: exactly one item for every kind and id that some event is about, none for any other |
| `Grouping.ToolItemOfEvents` | panel-rust/src/conversation.rs:267-313 | A tool item, read off the tool-call events of its id: of title, status, detail, raw input and raw output the last value that any of them supplied |
| `Grouping.UserItemOfEvents` | panel-rust/src/conversation.rs:216-226 | A user item: the last text sent under its id |
| `Grouping.AssistantItemOfEvents` | panel-rust/src/conversation.rs:228-265 | An assistant item: all its chunks joined, streaming unless its last chunk was a completing one |
| `Grouping.ThoughtItemOfEvents` | panel-rust/src/conversation.rs:228-265 | A thought item: the same of its own chunks |
| `Grouping.NoticesAreKept` | panel-rust/src/conversation.rs:203-209 | Every notice is an item of its own, in order, equal texts included |
| `Grouping.FoldedExtends` | panel-rust/src/conversation.rs:169-347 | More events leave earlier items in place with their keys, streamed texts only grow, and each event adds at most one item |
| `Grouping.ThreadsDoNotInterfere` | panel-rust/src/conversation.rs:167-172 | Any interleaving of many threads gives each state what its own events alone would give, ids unique per kind |
| `Grouping.ApplyAll` | panel-rust/src/conversation.rs:169-214 | A whole stream through one reducer object, and which events it accepts |
| `Grouping.TerminalItemIsOrderFree` | panel-rust/src/conversation.rs:315-347 | The one terminal item of an id depends only on the order within its created, output and exit events: last title, all output, last exit code, output before creation included |
| `Rebuild.RebuildFromChatMessages` | panel-rust/src/conversation.rs:362-473 | The loop with its open run and counter gives the fold of the assigned events |
| `Rebuild.AssignId` | panel-rust/src/conversation.rs:381-447 | One message: which id it gets and what the open run and the counter become |
| `Rebuild.EventAt` | panel-rust/src/conversation.rs:381-471 | The i-th event of a history is its i-th message, under the id that the messages before it determine |
| `Rebuild.SyntheticRunsAreContiguous` | panel-rust/src/conversation.rs:402-420 | Two messages with the same synthetic id, which no message of their kinds brings along from the wire, have nothing between them but id-less, non-status chunks of one kind with that id |
| `Rebuild.SyntheticIsNewest` | panel-rust/src/conversation.rs:374-420 | A message with an unclaimed synthetic id has the newest one: freshly drawn, or that of the open run |
| `Rebuild.IdIsExactly` | panel-rust/src/conversation.rs:381-450 | The id of every message of every kind: the one it brought along, unless it is a status; that of the message before, if it is an id-less chunk of the same stream; otherwise a synthetic one, numbered by how many messages needed one up to here |
| `Rebuild.AdjacencyDecides` | panel-rust/src/conversation.rs:402-420 | The rule of conversation.rs:18-20 and its limits: an id-less, non-status chunk has the id of the message right before it if that is a non-status message of the same kind, synthetic or real id alike, and a fresh synthetic id otherwise |
| `Rebuild.SyntheticItemIsOneBlock` | panel-rust/src/conversation.rs:374-420 | An item with an unclaimed synthetic id is made of exactly one contiguous block of the history, and the block is maximal: each of its messages but the first continues the stream of the one before, while its first message and the one behind the block do not |
| `Rebuild.RealIdKeepsItsRun` | panel-rust/src/conversation.rs:370-411 | An id-less agent chunk behind an agent chunk with a real id joins its item, although the comment says the run is cleared |
| `Rebuild.RealIdIsJoined` | panel-rust/src/conversation.rs:370-411 | The same for "a" with id x and "b" |
| `Rebuild.SyntheticItemText` | panel-rust/src/conversation.rs:395-432 | Its streamed text is the joined text of that block |
| `Rebuild.StatusIsAloneExactlyWhen` | panel-rust/src/conversation.rs:396-405 | The promise that statuses never merge, made exact: a status shares its item with no other message if and only if no ordinary agent message brings the id it was given along from the wire |
| `Rebuild.StatusIsItsOwnItem` | panel-rust/src/conversation.rs:396-405 | Then it is one item with exactly its own text, whatever surrounds it |
| `Rebuild.ClaimedStatusIsMerged` | panel-rust/src/conversation.rs:396-405 | The promise fails: behind any agent message with wire id synthetic-1, a status is merged into that message's item |
| `Rebuild.ReconnectIsMerged` | panel-rust/src/conversation.rs:396-405 | The same for "a" and "reconnecting..." |
| `Rebuild.UpdatesAreMessages` | panel-rust/src/conversation.rs:381-471 | The updates behind an item are exactly the messages assigned to its key, in order |
| `Rebuild.StreamedItem` | panel-rust/src/conversation.rs:395-432 | A streamed item is the concatenation of exactly its chunks |
| `Rebuild.RebuiltTool` | panel-rust/src/conversation.rs:445-471 | A rebuilt tool item: the last text that is not empty as title, and the last status, raw input and raw output supplied by its messages |
| `Rebuild.RebuiltUser` | panel-rust/src/conversation.rs:383-394 | A rebuilt user item: the text of its last message |
| `Rebuild.MessagesAreSelected` | panel-rust/src/conversation.rs:381-471 | The messages of an item are exactly those of its kind that got its id |
| `Rebuild.StatusExactlyWhen` | panel-rust/src/conversation.rs:22-28 | Which texts are a status: white space around aside and in letters of either case, those that start with one of two phrases or hold a third one anywhere |
| `Rebuild.RebuiltExtends` | panel-rust/src/conversation.rs:350-473 | Rebuilding a longer history keeps the earlier items first, same keys, texts only longer, at most one new item per message |
| `TranscriptDiff.RowKeyInjective` | panel-rust/src/models.rs:834-847 | Row keys tell kinds and ids apart whatever characters an id holds |
| `TranscriptDiff.EveryItemHasItsRow` | panel-rust/src/models.rs:834-858 | Every item but the notices has its row key, kind prefix and id, in the list, at its place among the others, and the list holds no more |
| `TranscriptDiff.TranscriptKeysUnique` | panel-rust/src/models.rs:849-858 | The row keys of any rebuilt transcript are duplicate-free, so its diffs take the unique-key path |
| `TranscriptDiff.GrownHistoryAppendsRows` | panel-rust/src/conversation.rs:362-473 | Appending messages makes the old row keys a prefix of the new and the diff a run of inserts at the end, at most one per message |
| `TranscriptDiff.DiffAfterAppend` | panel-rust/src/dirty.rs:51-80 | The same for the reducer objects and the diff as computed |
| `Debounce.CheckPassesExactlyWhen` | panel-rust/src/effect_executor.rs:58-63 | With the counter's 64-bit wrap-around: a check passes if and only if the number of later calls is a multiple of 2^64 |
| `Debounce.NewestOnly` | panel-rust/src/effect_executor.rs:58-63 | Below that many calls a check passes exactly for the newest call, whichever skill it is for |
| `Debounce.PassesAreSpaced` | panel-rust/src/effect_executor.rs:53-69 | In every run, any two calls that pass were made at least the delay apart and pass in the order of their calls |
| `Debounce.RateBound` | panel-rust/src/effect_executor.rs:53-69 | A window of length W holds at most W / delay + 1 passing calls |
| `Debounce.NewestCallPasses` | panel-rust/src/effect_executor.rs:64-67 | Once all sleepers have checked, the newest call of all has passed |
| `Debounce.CallPassesExactlyWhen` | panel-rust/src/effect_executor.rs:22-28 | Over whole runs: a call passes its check if and only if no call of any skill comes between the two |
| `Debounce.SwitchingSkillsLosesAnEdit` | panel-rust/src/effect_executor.rs:22-28 | The shared counter is not sufficient: an edit of one skill followed by an edit of another within the delay is published by no run of its own: its own record at the vendors stays behind, although every write was followed by a call and everything is over |
| `Debounce.ContentIsLastWrite` | panel-rust/src/effect_executor.rs:241-257 | A skill file holds the text of the last write to it in the run, and the skill waits for a call if and only if none came since |
| `Debounce.WrittenHasContent` | panel-rust/src/effect_executor.rs:241-257 | And every skill that was written has content |
| `Debounce.ClockIsElapsed` | panel-rust/src/effect_executor.rs:53-61 | The clock is the sum of the waits of the run |
| `Debounce.PublishedIsLastRead` | panel-rust/src/effect_executor.rs:40-52 | What is out of a skill is what its file held when the run that published last made its read |
| `Debounce.CallMakesAttempt` | panel-rust/src/effect_executor.rs:53-62 | The attempts are the calls: skill, time and number of each |
| `Debounce.SettledContentIsLatest` | panel-rust/src/effect_executor.rs:40-52 | In every run where the newest read of a skill waits for the older ones to publish, and the skill's last call passed, once everything is over the skill's own record is the text of the run's last write to it |
| `Debounce.PromptRunsWait` | panel-rust/src/effect_executor.rs:40-63 | If every run is done before twice the delay after its call, no two runs overlap, so the newest read never has to wait |
| `Debounce.LastEditArrives` | panel-rust/src/effect_executor.rs:53-69 | With prompt runs, the text of the skill's last write is what settles if a call for it follows and no call of any skill comes between the last such call and its check |
| `Debounce.EndIsCurrentExactlyWhen` | panel-rust/src/effect_executor.rs:40-52 | For every state with the invariant and all ways to go on without writes and calls: what settles in the skill's own record is certain to be current if and only if no outstanding read of it is stale, and the current content is out or some attempt of the skill has passed its check or is the newest sleeper |
| `Debounce.SettlingIsCertainExactlyWhen` | panel-rust/src/effect_executor.rs:40-52 | The same for every state a run from the start reaches |
| `Debounce.OvertakenRunPublishesStale` | panel-rust/src/effect_executor.rs:40-52 | The documented "never stale" fails: a run that has read can be overtaken by a whole newer run of the same skill and publish its old content last |
| `Debounce.StepKeepsInvariant` | panel-rust/src/effect_executor.rs:53-69 | Every step keeps tickets, spacing, pass log, reader list and skills right |
| `Debounce.RunKeepsInvariant` | panel-rust/src/effect_executor.rs:53-69 | The same over whole runs |
| `Debounce.Debouncer.Schedule` | panel-rust/src/effect_executor.rs:58-60 | A call draws the next generation and goes to sleep |
| `Debounce.Debouncer.Wake` | panel-rust/src/effect_executor.rs:61-68 | A woken attempt goes on only if the counter still holds its generation |
| `ThreadNames.UniqueName` | panel-rust/src/dispatch.rs:368-387 | The loop ends after at most as many suffix steps as there are threads. A free title is taken as it is, a taken one gets the first number from 2 that makes it free; a blank title gives the start of the session id |
| `ThreadNames.TakenCandidates` | panel-rust/src/dispatch.rs:376-387 | Pigeonhole: n taken candidates need n threads |
| `ThreadNames.CandidatesDiffer` | panel-rust/src/dispatch.rs:385-386 | No two candidates are the same text |

## Left out

- The file system: I/O errors, temporary files, renames and crash points; each store operation is atomic on texts in memory, so a jsonl write without its index write does not occur.
- `TranscriptLines.DecodeEncode`: `raw_input` and `raw_output` are strings here and arbitrary JSON values in the code; records are flat objects of strings, whole numbers and nulls without inner white space.
- `TranscriptLines.PeekAgreesWithDecode`: says nothing about lines with nested JSON values, which do not decode here.
- `Json.ReadEscape`: reads `\u` escapes only for single-byte characters, because text is one `char` per byte; UTF-8 validity and white space beyond ASCII are not modelled.
- `Json.ReadValue`: knows no fractions, exponents, signs or booleans.
- `Rebuild.RebuildFromChatMessages`: tool payloads are passed on as they are, where the code renders and shortens them for display.
- `LcsDiff.FillTable`: table entries are unbounded, where the code's 32-bit entries would overflow on lists of 2^32 keys.
- `ThreadNames.UniqueName`: the first eight bytes of a session id stand for the code's first eight Unicode characters, which agree on ASCII ids, and the 32-bit suffix is unbounded.
- `Rebuild.AssignId`: the 64-bit counter of synthetic ids is unbounded.
- Row delegates of the toolkit: a move is replayed as a remove and an insert, so row values are claimed to survive, not widgets.
- `Debounce.SettledContentIsLatest`: over whole runs its order condition is sufficient, not necessary, because an older run may by chance have read the same content; the exact condition is given state by state (`Debounce.EndIsCurrentExactlyWhen`).
- `Debounce.SwitchingSkillsLosesAnEdit`: is about the skill's own record. At vendors with a native skill directory every run also registers all other visible skills (`panel-rust/src/skills_manager_adapter.rs:113-127`); there an edit that was lost can turn up as a second record of the same name (`lib/skills-manager/src/manager.rs:138-185`) while the skill's own record stays stale. This registration is not modelled, and the same holds for `Debounce.EndIsCurrentExactlyWhen`.
- `Debounce.ContentIsLastWrite`: a write of a run is one that has been done. Every edit is written on a thread of its own (`panel-rust/src/effect_executor.rs:241-257`), so two edits may be done in either order; what order the user typed them in is not modelled.
- The vendors a run publishes to are one place, and a failed write or a failed sync does not occur.
- `diff_by_id` on duplicate-free keys is one Rust function; here its two loops and the body of the first are separate methods, and so are the id assignment of `rebuild_from_chat_messages` and the byte loop of `compute_offsets_from_jsonl`.
- The runtime snapshot file and `is_stale`: serialization of one record and a field comparison.
- The update reducer, panel model, send queue and agent bridge around these parts.
- Stability of rows when older pages are put in front: synthetic numbering restarts from the front, so there is no such property.
- Settings, editors, terminals, clipboard, key mapping and the Python drivers: thin code with nothing further to prove here.
