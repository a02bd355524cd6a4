# refact-intellij inline completion core, in Dafny

This project models the core of the refact-intellij plugin, an IntelliJ
plugin for AI code completion, and proves properties of the model. The core
covered:

- **Response reconciliation** (`CompletionUtils`). The editor text helper
  splits the document into lines and finds the current line. `getChar`
  reads characters. `CompletionStateVsCode` builds a request from one line
  of text: it decides readiness and the multiline mode, normalises the
  request text, and picks the stop tokens. Its `difference` then scans the
  requested and predicted texts backward from their ends and slices out the
  suggestion. The scan is a `method` with a loop (`ScanBackward`). It is
  proved equal to a specification function (`Reconcile`), and the
  properties of the suggestion are proved about that function.
- **The prefix-expansion cache** (`Cache`). This is an insertion-ordered
  map from (text, offset) to a completion. `addCompletion` evicts at most
  one oldest entry. It then stores one derived entry per prefix the user
  may type ahead, and one per space or tab the user may delete left of the
  cursor. The class `CompletionCache` updates its order and entries in
  place. Each method is proved to produce a value-level `Snapshot` function
  of the old contents, and the round trips are lemmas about those
  functions.
- **The completion mode** (`CompletionModes`): the event filters of
  `onTextChange`, the staleness guard of `renderCompletion`, the gate and
  the request parameters of `process`, the streamed-answer callback, the
  one-line-accept flag set on Tab, and `cancelOrClose`.
- **The diff mode** (`Diff`): the function name and the request
  parameters; the classification of an answer into a connection status and
  message; the status rule of `cancel`.
- **The mode provider** (`Modes`): mode switching, the dummy-identifier
  filter, and the per-editor provider table. The table evicts the
  oldest-created provider once it holds more than eight.
- **The diff-intent history** (`DiffIntents`): most recent first, at most
  21 entries, with no repeats of the newest.
- **The account manager** (`Account`): the derived login state, and the
  setters that notify only on a change.
- **The statistic service** (`Statistics`): drain, count, and merge back
  on failure.

Shared pieces:

- `Optional` holds the option type.
- `MinBy` holds Kotlin's `minByOrNull`, which returns the first minimum in
  iteration order.
- `CompletionStructs` holds the completion record the cache stores.
- `Inference` holds the global connection status and the request body.

Published messages are appended to event logs, and scheduled tasks are
recorded in fields. Where the source calls into code outside the model, the
answer arrives as a parameter.

The code behaves as follows, which may surprise a reader:

- The request text gets one newline appended only when it does not already
  end in one. A text that ends in several newlines keeps all of them; it
  does not get "exactly one".
- The trimming regular expressions in `difference` are written as
  slash-delimited JavaScript literals. Under Java's regex engine they never
  match, so nothing is trimmed. The embedded-newline test matches only the
  four-character string `/`, newline, `/g`.
- Hence "foo\n" completed to "foo\nbar\n" at offset 4 yields "bar\n", with
  its newline (`CompletionUtils.WorkedExample`).
- A single-line completion spanning two lines is still offered
  (`CompletionUtils.EmbeddedNewlineAccepted`).

## Model

Source paths are relative to the repository root.

| member | source | states |
|---|---|---|
| CompletionUtils.NextNewline | src/main/kotlin/com/smallcloud/codify/modes/completion/CompletionUtilsVsCode.kt:23 | the first newline at or after a position, or the end: no newline in between |
| CompletionUtils.Split | src/main/kotlin/com/smallcloud/codify/modes/completion/CompletionUtilsVsCode.kt:23 | `split("\n")` yields at least one line, no line holds a newline, and joining the lines with newlines gives the text back |
| CompletionUtils.SplitLinesHaveNoNewline | src/main/kotlin/com/smallcloud/codify/modes/completion/CompletionUtilsVsCode.kt:23 | no line of `split("\n")` holds a newline |
| CompletionUtils.SplitJoinRoundTrip | src/main/kotlin/com/smallcloud/codify/modes/completion/CompletionUtilsVsCode.kt:23 | joining the split lines with newlines gives the text back |
| CompletionUtils.LineStartFrom | src/main/kotlin/com/smallcloud/codify/modes/completion/CompletionUtilsVsCode.kt:28 | the line start lies at or before the offset, right after a newline or at the text start, with no newline up to the offset |
| CompletionUtils.LineEndFrom | src/main/kotlin/com/smallcloud/codify/modes/completion/CompletionUtilsVsCode.kt:29 | the line end lies at or after the offset, on a newline or at the text end, with no newline in between |
| CompletionUtils.CurrentLineIsSlice | src/main/kotlin/com/smallcloud/codify/modes/completion/CompletionUtilsVsCode.kt:23-29 | `lines[getLineNumber(offset)]` exists and is the text between the line's start and end offsets |
| CompletionUtils.EditorTextHelper.CurrentLine | src/main/kotlin/com/smallcloud/codify/modes/completion/CompletionUtilsVsCode.kt:27 | the current line is the document's text between the start and end offsets of the line holding the offset |
| CompletionUtils.EditorTextHelper.OffsetByCurrentLine | src/main/kotlin/com/smallcloud/codify/modes/completion/CompletionUtilsVsCode.kt:30 | the offset inside the line is within the current line |
| CompletionUtils.EditorTextHelper.LeftOfCursor | src/main/kotlin/com/smallcloud/codify/modes/completion/CompletionUtilsVsCode.kt:81 | the text from the line start to the cursor, with no newline |
| CompletionUtils.EditorTextHelper.RightOfCursor | src/main/kotlin/com/smallcloud/codify/modes/completion/CompletionUtilsVsCode.kt:82 | the text from the cursor to the line end, with no newline; left and right together are the current line |
| CompletionUtils.GetChar | src/main/kotlin/com/smallcloud/codify/modes/completion/CompletionUtilsVsCode.kt:49-56 | null exactly on the empty string; otherwise index `i` reads position `i` modulo the length, so negative indices count from the end |
| CompletionUtils.GetCharNegativeCountsFromEnd | src/main/kotlin/com/smallcloud/codify/modes/completion/CompletionUtilsVsCode.kt:49-56 | `getChar(-k)` and `getChar(length - k)` read the same character; the empty string gives null |
| CompletionUtils.Completion.IsMakeSense | src/main/kotlin/com/smallcloud/codify/modes/completion/CompletionUtilsVsCode.kt:44-46 | a completion makes sense exactly when its text has at least one character |
| CompletionUtils.RemoveAll | src/main/kotlin/com/smallcloud/codify/modes/completion/CompletionUtilsVsCode.kt:86 | `replace(c, "")` leaves no `c` and adds no character |
| CompletionUtils.RemoveAllCounts | src/main/kotlin/com/smallcloud/codify/modes/completion/CompletionUtilsVsCode.kt:86 | every character other than `c` is kept as often as the text holds it |
| CompletionUtils.RemoveAllCons | src/main/kotlin/com/smallcloud/codify/modes/completion/CompletionUtilsVsCode.kt:86 | the first character is kept exactly when it is not `c` |
| CompletionUtils.RemoveAllAppend | src/main/kotlin/com/smallcloud/codify/modes/completion/CompletionUtilsVsCode.kt:86 | deleting `c` works piecewise over a concatenation, so the kept characters stay in their order |
| CompletionUtils.RemoveSpacesAndTabsEmptyIff | src/main/kotlin/com/smallcloud/codify/modes/completion/CompletionUtilsVsCode.kt:86 | removing spaces then tabs leaves nothing exactly when the text has only spaces and tabs |
| CompletionUtils.EnsureTrailingNewline | src/main/kotlin/com/smallcloud/codify/modes/completion/CompletionUtilsVsCode.kt:91-93 | at most one character is appended, the text is a prefix of the result, a non-empty result ends in a newline, and a text already ending in one is unchanged |
| CompletionUtils.TrailingNewlineIdempotent | src/main/kotlin/com/smallcloud/codify/modes/completion/CompletionUtilsVsCode.kt:91-93 | normalising twice is normalising once |
| CompletionUtils.SlashTrimNeverMatches | src/main/kotlin/com/smallcloud/codify/modes/completion/CompletionUtilsVsCode.kt:137-143 | the slash-delimited right-trim patterns match nowhere, so both `replace` calls are the identity |
| CompletionUtils.MismatchFrom | src/main/kotlin/com/smallcloud/codify/modes/completion/CompletionUtilsVsCode.kt:110-121 | the depth found is the first at which the texts differ counting from the end, with agreement on every shallower depth; none means agreement down to the start of the request |
| CompletionUtils.LastNewlineDepth | src/main/kotlin/com/smallcloud/codify/modes/completion/CompletionUtilsVsCode.kt:113-115 | the deepest newline of the request up to the given depth, or 0 when there is none |
| CompletionUtils.StopAt | src/main/kotlin/com/smallcloud/codify/modes/completion/CompletionUtilsVsCode.kt:122 | `stopAt` never exceeds the length of the prediction |
| CompletionUtils.Reconcile | src/main/kotlin/com/smallcloud/codify/modes/completion/CompletionUtilsVsCode.kt:98-158 | a result exists only when ready; it makes sense, keeps the request and the prediction, starts at the cursor with the requested mode, and its text is the slice of the prediction from the cursor |
| CompletionUtils.AgreementGivesSuffix | src/main/kotlin/com/smallcloud/codify/modes/completion/CompletionUtilsVsCode.kt:110-112 | a shorter prediction that agrees on all its characters from the end is a suffix of the request, which is the one case where the scan reads past the prediction's start |
| CompletionUtils.MismatchWithinPredicted | src/main/kotlin/com/smallcloud/codify/modes/completion/CompletionUtilsVsCode.kt:110-119 | when `difference` cannot throw, the mismatch lies within a non-empty prediction |
| CompletionUtils.NoMismatchIffSuffix | src/main/kotlin/com/smallcloud/codify/modes/completion/CompletionUtilsVsCode.kt:110-125 | the scan finds no difference exactly when the request is a suffix of the prediction |
| CompletionUtils.EchoYieldsNothing | src/main/kotlin/com/smallcloud/codify/modes/completion/CompletionUtilsVsCode.kt:125 | a prediction equal to the request yields null |
| CompletionUtils.MismatchIsCommonSuffixBoundary | src/main/kotlin/com/smallcloud/codify/modes/completion/CompletionUtilsVsCode.kt:116-123 | at the mismatch depth `d`, both texts share their last `d - 1` characters and differ at `endIndex` |
| CompletionUtils.SuggestionShape | src/main/kotlin/com/smallcloud/codify/modes/completion/CompletionUtilsVsCode.kt:125-157 | a non-null result means: ready, a mismatch found, completion = prediction from the cursor to `stopAt` untrimmed, start at the cursor, original text = the normalised request, end index at the mismatch, not blank, and in single-line mode not `/\n/g` |
| CompletionUtils.StopAtIsLineBoundary | src/main/kotlin/com/smallcloud/codify/modes/completion/CompletionUtilsVsCode.kt:113-122 | `stopAt` is one past the last newline met while scanning to the mismatch, or the end of the prediction when none was met |
| CompletionUtils.WorkedExample | src/main/kotlin/com/smallcloud/codify/modes/completion/CompletionUtilsVsCode.kt:98-157 | "foo\n" predicted as "foo\nbar\n" at cursor 4 gives "bar\n", ending at 6 |
| CompletionUtils.EmbeddedNewlineAccepted | src/main/kotlin/com/smallcloud/codify/modes/completion/CompletionUtilsVsCode.kt:137-147 | a single-line completion spanning two lines is returned |
| CompletionUtils.SlashNewlineRejectedOnlySingleLine | src/main/kotlin/com/smallcloud/codify/modes/completion/CompletionUtilsVsCode.kt:137-144 | the completion `/\n/g` is refused in single-line mode and returned in multiline mode |
| CompletionUtils.ScanBackward | src/main/kotlin/com/smallcloud/codify/modes/completion/CompletionUtilsVsCode.kt:107-123 | the loop reports a difference exactly when there is a mismatch; then `stopAt` and `endIndex` are the end-aligned line boundary and mismatch position |
| CompletionUtils.InitFields | src/main/kotlin/com/smallcloud/codify/modes/completion/CompletionUtilsVsCode.kt:80-95 | ready iff right of the cursor has only special characters and the document is at most 180 KiB; multiline iff also the left of the cursor has only spaces and tabs; the request text is empty, the raw document, or the document with its trailing newline ensured |
| CompletionUtils.CompletionStateVsCode.constructor | src/main/kotlin/com/smallcloud/codify/modes/completion/CompletionUtilsVsCode.kt:64-96 | the same three fields, computed from the text helper's current line and document; the cursor is the helper's offset |
| CompletionUtils.CompletionStateVsCode.StopTokens | src/main/kotlin/com/smallcloud/codify/modes/completion/CompletionUtilsVsCode.kt:74-77 | a blank line always stops; a newline stops exactly in single-line mode |
| CompletionUtils.CompletionStateVsCode.Difference | src/main/kotlin/com/smallcloud/codify/modes/completion/CompletionUtilsVsCode.kt:98-158 | `difference` returns exactly `Reconcile`, whose properties are the lemmas above |
| CompletionStructs.AcceptedText | src/main/kotlin/com/smallcloud/codify/modes/completion/CompletionCache.kt:19-23 | accepting a completion inserts it at its start index and keeps the text on both sides |
| MinBy.FirstMinIndex | src/main/kotlin/com/smallcloud/codify/modes/completion/CompletionCache.kt:12 | `minByOrNull`: the index of a minimal value, with every earlier value strictly greater |
| Cache.Snapshot.Oldest | src/main/kotlin/com/smallcloud/codify/modes/completion/CompletionCache.kt:12 | the entry `cleanup` removes was created no later than any other, and is the first such in insertion order |
| Cache.PutKeepsValid | src/main/kotlin/com/smallcloud/codify/modes/completion/CompletionCache.kt:30 | a store keeps each key listed once in the insertion order |
| Cache.RemoveAtKeepsValid | src/main/kotlin/com/smallcloud/codify/modes/completion/CompletionCache.kt:12 | a removal keeps each key listed once in the insertion order |
| Cache.StoreAllKeepsValid | src/main/kotlin/com/smallcloud/codify/modes/completion/CompletionCache.kt:18-55 | a run of stores keeps each key listed once |
| Cache.CleanupEvictsOldest | src/main/kotlin/com/smallcloud/codify/modes/completion/CompletionCache.kt:8-13 | below `maxSize`, or empty, nothing changes; otherwise exactly one entry goes, one with minimal `createdTs`, and the others stay |
| Cache.CleanupKeepsValid | src/main/kotlin/com/smallcloud/codify/modes/completion/CompletionCache.kt:8-13 | cleanup keeps each key listed once |
| Cache.StoreAllMiss | src/main/kotlin/com/smallcloud/codify/modes/completion/CompletionCache.kt:18-55 | a key that no store writes keeps its presence and its value |
| Cache.StoreAllUniqueHit | src/main/kotlin/com/smallcloud/codify/modes/completion/CompletionCache.kt:18-55 | an entry stored under a key no other store uses is what the map holds under that key |
| Cache.StoreAllKeepsKeys | src/main/kotlin/com/smallcloud/codify/modes/completion/CompletionCache.kt:18-55 | stores never lose a key |
| Cache.Reverse | src/main/kotlin/com/smallcloud/codify/modes/completion/CompletionCache.kt:40 | `reversed()`: same length, each character mirrored |
| Cache.ForwardEntry | src/main/kotlin/com/smallcloud/codify/modes/completion/CompletionCache.kt:18-29 | the typed-ahead entry suggests the rest of the completion and, once accepted, yields the same document as the original |
| Cache.TypedAheadSplit | src/main/kotlin/com/smallcloud/codify/modes/completion/CompletionCache.kt:20-23 | typing a prefix of the completion and then inserting the rest is inserting the whole completion |
| Cache.BackwardStepsFrom | src/main/kotlin/com/smallcloud/codify/modes/completion/CompletionCache.kt:34-38 | the backward loop passes every index below its count and stops at the count (a non-space or too few symbols left) |
| Cache.BackwardStepsIs | src/main/kotlin/com/smallcloud/codify/modes/completion/CompletionCache.kt:34-38 | any count that passes all indices below it and stops there is the loop's count |
| Cache.BackwardEntry | src/main/kotlin/com/smallcloud/codify/modes/completion/CompletionCache.kt:39-53 | the deletion entry's completion is the deleted characters put back in front of the completion, with the start shifted by -i; both branches build the same text |
| Cache.BackwardSnoc | src/main/kotlin/com/smallcloud/codify/modes/completion/CompletionCache.kt:34-55 | one more backward iteration stores one more entry |
| Cache.ForwardSnoc | src/main/kotlin/com/smallcloud/codify/modes/completion/CompletionCache.kt:18-31 | one more forward iteration stores one more entry |
| Cache.BackwardEntryAcceptsSame | src/main/kotlin/com/smallcloud/codify/modes/completion/CompletionCache.kt:39-53 | when `beforeLeft` is the reversed text left of the cursor, accepting a deletion entry yields the same document as accepting the original |
| Cache.ReversedLeftIsSlice | src/main/kotlin/com/smallcloud/codify/modes/completion/CompletionCache.kt:40 | the first `i` reversed-left characters, reversed back, are the `i` characters before the cursor |
| Cache.DeletedLeftSplit | src/main/kotlin/com/smallcloud/codify/modes/completion/CompletionCache.kt:46-48 | deleting characters before the start and putting them back in front of the completion is inserting the completion |
| Cache.ForwardKeysDistinct | src/main/kotlin/com/smallcloud/codify/modes/completion/CompletionCache.kt:24-30 | typed-ahead entries are filed under distinct keys |
| Cache.AddThenGetRoundTrip | src/main/kotlin/com/smallcloud/codify/modes/completion/CompletionCache.kt:15-58 | after adding a non-empty completion, looking up its own text and start finds an entry suggesting exactly that completion |
| Cache.AddThenGetForward | src/main/kotlin/com/smallcloud/codify/modes/completion/CompletionCache.kt:18-58 | each typed-ahead prefix is found with its derived entry |
| Cache.AddThenGetBackward | src/main/kotlin/com/smallcloud/codify/modes/completion/CompletionCache.kt:33-58 | each deletion the backward loop reaches is found with its derived entry |
| Cache.AddKeepsOtherEntries | src/main/kotlin/com/smallcloud/codify/modes/completion/CompletionCache.kt:15-55 | an entry that cleanup kept and no derived entry overwrites keeps its value |
| Cache.AddRemovesAtMostOne | src/main/kotlin/com/smallcloud/codify/modes/completion/CompletionCache.kt:15-16 | one `addCompletion` removes at most one earlier entry, so the map is not bounded by `maxSize` |
| Cache.CompletionCache.constructor | src/main/kotlin/com/smallcloud/codify/modes/completion/CompletionCache.kt:7 | the cache starts empty |
| Cache.CompletionCache.Cleanup | src/main/kotlin/com/smallcloud/codify/modes/completion/CompletionCache.kt:8-13 | the in-place cleanup produces `Snapshot.Cleanup` of the old contents |
| Cache.CompletionCache.Store | src/main/kotlin/com/smallcloud/codify/modes/completion/CompletionCache.kt:30 | `this[key] = e`: a new key goes last, an existing key keeps its place and takes the new value |
| Cache.CompletionCache.AddCompletion | src/main/kotlin/com/smallcloud/codify/modes/completion/CompletionCache.kt:15-56 | the in-place update produces `AfterAdd` of the old contents: cleanup, then the forward stores, then the backward stores |
| Cache.CompletionCache.StoreForward | src/main/kotlin/com/smallcloud/codify/modes/completion/CompletionCache.kt:18-31 | the first loop stores every typed-ahead entry in order |
| Cache.CompletionCache.StoreForwardEntry | src/main/kotlin/com/smallcloud/codify/modes/completion/CompletionCache.kt:19-30 | one iteration of the first loop stores the entry for `i` |
| Cache.CompletionCache.StoreBackward | src/main/kotlin/com/smallcloud/codify/modes/completion/CompletionCache.kt:33-55 | the second loop stores the deletion entries for the indices before its stopping point |
| Cache.CompletionCache.StoreBackwardEntry | src/main/kotlin/com/smallcloud/codify/modes/completion/CompletionCache.kt:39-54 | one iteration of the second loop stores the entry for `i` |
| Cache.CompletionCache.GetCompletion | src/main/kotlin/com/smallcloud/codify/modes/completion/CompletionCache.kt:58 | the entry under (text, offset), and null exactly on a miss |
| CompletionModes.ChangeSnapshot | src/main/kotlin/com/smallcloud/codify/modes/completion/CompletionMode.kt:63-69 | a non-forced event gives a snapshot exactly when it lies within the text and changes something; the offset is `offset + newLength + offsetCorrection` |
| CompletionModes.PlanTextChange | src/main/kotlin/com/smallcloud/codify/modes/completion/CompletionMode.kt:53-127 | nothing when DISCONNECTED, with no file, or privacy disabled; a render only for a cache hit on the snapshot; a request only on a miss; a forced request at the caret with debounce 0 |
| CompletionModes.ProcessGate | src/main/kotlin/com/smallcloud/codify/modes/completion/CompletionMode.kt:211-215 | a forced request is sent; otherwise it must be ready, and a single-line request after a one-line accept is skipped |
| CompletionModes.ClassifyStreamed | src/main/kotlin/com/smallcloud/codify/modes/completion/CompletionMode.kt:226-249 | an answer is cached and rendered exactly when the request is open, has a status, a head/mid/tail for the cursor file and a sensible completion; it is an error exactly when it has no status |
| CompletionModes.OneLineAccepted | src/main/kotlin/com/smallcloud/codify/modes/completion/CompletionMode.kt:283-287 | set exactly for a single-line completion whose end is the text end or a newline |
| CompletionModes.CompletionMode.constructor | src/main/kotlin/com/smallcloud/codify/modes/completion/CompletionMode.kt:33-44 | no task, no layout, no request in progress, no one-line accept |
| CompletionModes.CompletionMode.OnTextChange | src/main/kotlin/com/smallcloud/codify/modes/completion/CompletionMode.kt:53-127 | schedules the task `PlanTextChange` gives, and keeps the old task when it gives none |
| CompletionModes.CompletionMode.RenderCompletion | src/main/kotlin/com/smallcloud/codify/modes/completion/CompletionMode.kt:129-177 | the layout shows the completion only when stamp and caret are unchanged and a task is active; otherwise it is left alone |
| CompletionModes.CompletionMode.Process | src/main/kotlin/com/smallcloud/codify/modes/completion/CompletionMode.kt:203-221 | the flag is cleared exactly on a skip; a sent request has 512 tokens when forced, the state's stop tokens, status PENDING and is in progress; otherwise nothing changes |
| CompletionModes.CompletionMode.OnDataReceiveEnded | src/main/kotlin/com/smallcloud/codify/modes/completion/CompletionMode.kt:222-225 | CONNECTED with no message |
| CompletionModes.CompletionMode.OnPrediction | src/main/kotlin/com/smallcloud/codify/modes/completion/CompletionMode.kt:226-249 | a status-less answer sets ERROR with "Parameters are not correct"; an accepted one is added to the cache (`AfterAdd`) and shown when the staleness guard passes, the layout staying as it was when it fails; any other answer leaves cache and layout alone |
| CompletionModes.CompletionMode.OnInterrupted | src/main/kotlin/com/smallcloud/codify/modes/completion/CompletionMode.kt:256-260 | CONNECTED, and everything closed |
| CompletionModes.CompletionMode.OnExecutionException | src/main/kotlin/com/smallcloud/codify/modes/completion/CompletionMode.kt:261-263 | ERROR with the cause's message, and everything closed |
| CompletionModes.CompletionMode.OnOtherException | src/main/kotlin/com/smallcloud/codify/modes/completion/CompletionMode.kt:264-268 | the message is kept but the status ends CONNECTED, because `cancelOrClose` runs after ERROR is set |
| CompletionModes.CompletionMode.OnTabPressed | src/main/kotlin/com/smallcloud/codify/modes/completion/CompletionMode.kt:279-291 | with a shown completion the flag becomes `OneLineAccepted`; the layout is gone |
| CompletionModes.CompletionMode.OnEscPressed | src/main/kotlin/com/smallcloud/codify/modes/completion/CompletionMode.kt:293-295 | closes as `cancelOrClose` |
| CompletionModes.CompletionMode.CancelOrClose | src/main/kotlin/com/smallcloud/codify/modes/completion/CompletionMode.kt:330-344 | CONNECTED unless DISCONNECTED; no request in progress, no task, no layout |
| Diff.FunctionNameFor | src/main/kotlin/com/smallcloud/codify/modes/diff/DiffMode.kt:136 | "diff-atcursor" exactly with a highlight, "diff-selection" exactly without |
| Diff.MaxEditsFor | src/main/kotlin/com/smallcloud/codify/modes/diff/DiffMode.kt:190 | 1 exactly for "diff-atcursor", else 10 |
| Diff.Classify | src/main/kotlin/com/smallcloud/codify/modes/diff/DiffMode.kt:197-212 | rejected exactly for a null or "error" status; a prediction exactly when the first choice has the cursor file and a finish reason; its text is that file's |
| Diff.StatusAfter | src/main/kotlin/com/smallcloud/codify/modes/diff/DiffMode.kt:197-212 | ERROR exactly for a rejection, else CONNECTED |
| Diff.MessageAfter | src/main/kotlin/com/smallcloud/codify/modes/diff/DiffMode.kt:197-212 | no message exactly for a prediction; the two fixed messages otherwise |
| Diff.StatusAfterCancel | src/main/kotlin/com/smallcloud/codify/modes/diff/DiffMode.kt:61-65 | DISCONNECTED and ERROR stay, anything else becomes CONNECTED; never PENDING |
| Diff.OutcomesAreDistinguishable | src/main/kotlin/com/smallcloud/codify/modes/diff/DiffMode.kt:197-212 | the three outcomes leave distinct status and message pairs |
| Diff.DiffMode.constructor | src/main/kotlin/com/smallcloud/codify/modes/diff/DiffMode.kt:32-43 | no layout, no animation, no highlight origin, nothing scheduled |
| Diff.DiffMode.Cancel | src/main/kotlin/com/smallcloud/codify/modes/diff/DiffMode.kt:55-75 | the cancel status rule; no layout, no animation; a switch back exactly with an editor |
| Diff.DiffMode.OnTabPressed | src/main/kotlin/com/smallcloud/codify/modes/diff/DiffMode.kt:84-93 | the layout is dropped; the highlight re-runs exactly when a highlight started the diff |
| Diff.DiffMode.OnEscPressed | src/main/kotlin/com/smallcloud/codify/modes/diff/DiffMode.kt:95-98 | cancels with the editor and forgets the highlight origin |
| Diff.DiffMode.ActionPerformed | src/main/kotlin/com/smallcloud/codify/modes/diff/DiffMode.kt:125-180 | nothing without a file or when DISCONNECTED; a new request takes its function name from the highlight, pushes a dialog entry to the history and asks the mode provider to switch to the diff mode; otherwise the layout's request is asked again and the layout dropped; the highlight-origin flag changes only once a request is being built, and then records whether a highlight started it |
| Diff.DiffMode.Process | src/main/kotlin/com/smallcloud/codify/modes/diff/DiffMode.kt:182-228 | no stop tokens, 550 tokens, the edit count of the function name; PENDING, then the status and message of the answer's outcome; a prediction stops the animation and builds the layout from the file's lines before and after |
| Diff.DiffMode.OnInterrupted | src/main/kotlin/com/smallcloud/codify/modes/diff/DiffMode.kt:229-235 | the animation stops and the provider switches back |
| Diff.DiffMode.OnException | src/main/kotlin/com/smallcloud/codify/modes/diff/DiffMode.kt:236-251 | ERROR with the exception's message, and a switch back |
| DiffIntents.Without | src/main/kotlin/com/smallcloud/codify/modes/diff/DiffIntentProvider.kt:38 | the filter drops every copy of `e` and keeps only entries of the history |
| DiffIntents.WithoutCounts | src/main/kotlin/com/smallcloud/codify/modes/diff/DiffIntentProvider.kt:38 | every entry other than `e` is kept as often as the history holds it, so the length drops by the copies of `e` |
| DiffIntents.WithoutCons | src/main/kotlin/com/smallcloud/codify/modes/diff/DiffIntentProvider.kt:38 | the head is kept exactly when it is not `e` |
| DiffIntents.WithoutAppend | src/main/kotlin/com/smallcloud/codify/modes/diff/DiffIntentProvider.kt:38 | filtering works piecewise over a concatenation, so the kept entries stay in their order |
| DiffIntents.Take | src/main/kotlin/com/smallcloud/codify/modes/diff/DiffIntentProvider.kt:39 | `subList(0, min(size, n))`: a prefix of length `min(size, n)` |
| DiffIntents.PushFront | src/main/kotlin/com/smallcloud/codify/modes/diff/DiffIntentProvider.kt:37-41 | the new head is `e`, `e` does not recur, at most 21 entries |
| DiffIntents.PushFrontHoldsOnce | src/main/kotlin/com/smallcloud/codify/modes/diff/DiffIntentProvider.kt:38-40 | `e` occurs exactly once |
| DiffIntents.PushFrontTail | src/main/kotlin/com/smallcloud/codify/modes/diff/DiffIntentProvider.kt:38-40 | the tail is the old history without `e`, in order, cut to 20 |
| DiffIntents.PushFrontKeepsShortHistory | src/main/kotlin/com/smallcloud/codify/modes/diff/DiffIntentProvider.kt:38-40 | a history of at most 20 entries without `e` loses nothing |
| DiffIntents.WithoutAbsent | src/main/kotlin/com/smallcloud/codify/modes/diff/DiffIntentProvider.kt:38 | filtering out an absent entry changes nothing |
| DiffIntents.PushFrontIdempotent | src/main/kotlin/com/smallcloud/codify/modes/diff/DiffIntentProvider.kt:37-41 | pushing the same entry twice equals pushing it once |
| DiffIntents.WithoutDropsHead | src/main/kotlin/com/smallcloud/codify/modes/diff/DiffIntentProvider.kt:38 | a leading copy of `e` is filtered out |
| DiffIntents.FirstOrNone | src/main/kotlin/com/smallcloud/codify/modes/diff/DiffIntentProvider.kt:44 | `firstOrNull`: the head, null exactly for an empty list |
| DiffIntents.LastPushedIsFirst | src/main/kotlin/com/smallcloud/codify/modes/diff/DiffIntentProvider.kt:37-45 | after a push, `lastHistoryEntry` is the pushed entry |
| DiffIntents.DiffIntentProvider.constructor | src/main/kotlin/com/smallcloud/codify/modes/diff/DiffIntentProvider.kt:21 | no cloud intents |
| DiffIntents.DiffIntentProvider.DefaultThirdPartyFunctions | src/main/kotlin/com/smallcloud/codify/modes/diff/DiffIntentProvider.kt:22-23 | the getter returns the cloud intents |
| DiffIntents.DiffIntentProvider.SetDefaultThirdPartyFunctions | src/main/kotlin/com/smallcloud/codify/modes/diff/DiffIntentProvider.kt:24-26 | the getter then returns what was set |
| DiffIntents.DiffIntentProvider.SetHistoryIntents | src/main/kotlin/com/smallcloud/codify/modes/diff/DiffIntentProvider.kt:29-33 | the history is what was set |
| DiffIntents.DiffIntentProvider.PushFrontHistoryIntent | src/main/kotlin/com/smallcloud/codify/modes/diff/DiffIntentProvider.kt:37-41 | the history becomes `PushFront` of the old one, and its head is `e` |
| DiffIntents.DiffIntentProvider.LastHistoryEntry | src/main/kotlin/com/smallcloud/codify/modes/diff/DiffIntentProvider.kt:43-45 | the head, or null exactly for an empty history |
| Modes.FragmentText | src/main/kotlin/com/smallcloud/refactai/modes/ModeProvider.kt:64-72 | `event?.newFragment.toString()`: the fragment, or "null" for a missing event |
| Modes.DummyFilterIff | src/main/kotlin/com/smallcloud/refactai/modes/ModeProvider.kt:64-72 | an event is held back exactly when its fragment is the dummy identifier; a missing event never is |
| Modes.AfterSwitch | src/main/kotlin/com/smallcloud/refactai/modes/ModeProvider.kt:93-97 | the new mode is active; the old one is cleaned up exactly when it differs |
| Modes.SwitchIdempotent | src/main/kotlin/com/smallcloud/refactai/modes/ModeProvider.kt:93-97 | switching twice to a mode is switching once |
| Modes.ModeProvider.constructor | src/main/kotlin/com/smallcloud/refactai/modes/ModeProvider.kt:50-51 | the Completion mode is active; nothing cleaned up or forwarded |
| Modes.ModeProvider.IsInCompletionMode | src/main/kotlin/com/smallcloud/refactai/modes/ModeProvider.kt:59-60 | exactly when the Completion mode is active |
| Modes.ModeProvider.IsDiffMode | src/main/kotlin/com/smallcloud/refactai/modes/ModeProvider.kt:61 | exactly when the Diff mode is active, and then not in completion mode |
| Modes.ModeProvider.OnCaretChange | src/main/kotlin/com/smallcloud/refactai/modes/ModeProvider.kt:74-76 | the caret event goes to the active mode, with no filter |
| Modes.ModeProvider.OnTabPressed | src/main/kotlin/com/smallcloud/refactai/modes/ModeProvider.kt:82-84 | Tab goes to the active mode, with no filter |
| Modes.ModeProvider.OnEscPressed | src/main/kotlin/com/smallcloud/refactai/modes/ModeProvider.kt:86-88 | Escape goes to the active mode, with no filter |
| Modes.ModeProvider.BeforeDocumentChangeNonBulk | src/main/kotlin/com/smallcloud/refactai/modes/ModeProvider.kt:64-67 | forwards the event to the active mode unless it is the dummy identifier |
| Modes.ModeProvider.OnTextChange | src/main/kotlin/com/smallcloud/refactai/modes/ModeProvider.kt:69-72 | forwards the event and its force flag to the active mode unless it is the dummy identifier |
| Modes.ModeProvider.SwitchMode | src/main/kotlin/com/smallcloud/refactai/modes/ModeProvider.kt:93-97 | the in-place switch produces `AfterSwitch` |
| Modes.DistinctSize | src/main/kotlin/com/smallcloud/refactai/modes/ModeProvider.kt:103-104 | a repeat-free key order has as many keys as entries |
| Modes.EvictedKey | src/main/kotlin/com/smallcloud/refactai/modes/ModeProvider.kt:102-112 | no eviction up to eight entries; above, a held key with a minimal creation timestamp, and among equal timestamps the first in insertion order |
| Modes.RemoveKey | src/main/kotlin/com/smallcloud/refactai/modes/ModeProvider.kt:110-111 | removes exactly that key, shrinking the order when it was held |
| Modes.RemoveKeyAbsent | src/main/kotlin/com/smallcloud/refactai/modes/ModeProvider.kt:110-111 | removing a key that is not held leaves the order as it was |
| Modes.RemoveKeyAt | src/main/kotlin/com/smallcloud/refactai/modes/ModeProvider.kt:110-111 | removing a held key cuts exactly its position out; the other keys keep their insertion order |
| Modes.RemoveKeyDistinct | src/main/kotlin/com/smallcloud/refactai/modes/ModeProvider.kt:110-111 | removal keeps the order free of repeats |
| Modes.TableRemove | src/main/kotlin/com/smallcloud/refactai/modes/ModeProvider.kt:110-111 | removing a key from both maps keeps their key sets equal |
| Modes.TableAdd | src/main/kotlin/com/smallcloud/refactai/modes/ModeProvider.kt:113-125 | adding a new key to both maps keeps their key sets equal |
| Modes.ProviderTable.constructor | src/main/kotlin/com/smallcloud/refactai/modes/ModeProvider.kt:103-104 | both maps start empty |
| Modes.ProviderTable.SizeBound | src/main/kotlin/com/smallcloud/refactai/modes/ModeProvider.kt:102-115 | both maps hold the same number of entries, at most nine |
| Modes.ProviderTable.EvictOldest | src/main/kotlin/com/smallcloud/refactai/modes/ModeProvider.kt:108-112 | the evicted key leaves both maps and the insertion order, the others keep their order, and at most eight remain |
| Modes.ProviderTable.GetOrCreate | src/main/kotlin/com/smallcloud/refactai/modes/ModeProvider.kt:106-126 | after eviction, an existing provider is returned with its timestamp and place unchanged; on a miss a new provider in Completion mode is created, timestamped and put last in the insertion order; the other providers stay; at most nine entries |
| Account.LoggedIn | src/main/kotlin/com/smallcloud/codify/account/AccountManager.kt:50-53 | exactly when both the API key and the user are non-null and non-empty |
| Account.LoginNotice | src/main/kotlin/com/smallcloud/codify/account/AccountManager.kt:63-74 | one login-change event exactly when the state flips, carrying the new state |
| Account.LogoutEvents | src/main/kotlin/com/smallcloud/codify/account/AccountManager.kt:76-79 | the key change, then the user change, each only if that value was set; nothing is published exactly when neither was set |
| Account.LogoutNoticeOnce | src/main/kotlin/com/smallcloud/codify/account/AccountManager.kt:63-79 | logout announces being logged out exactly once when the recorded state was logged in and something changed, and never announces a login |
| Account.AccountManager.constructor | src/main/kotlin/com/smallcloud/codify/account/AccountManager.kt:6-10 | the settings' values, no plan, no recorded login, nothing published |
| Account.AccountManager.IsLoggedIn | src/main/kotlin/com/smallcloud/codify/account/AccountManager.kt:50-53 | exactly when both the API key and the user are present |
| Account.AccountManager.Startup | src/main/kotlin/com/smallcloud/codify/account/AccountManager.kt:55-61 | records the current login state, publishing nothing |
| Account.AccountManager.CheckLoggedInAndNotifyIfNeed | src/main/kotlin/com/smallcloud/codify/account/AccountManager.kt:63-74 | the recorded state matches, and a change event is published only on a flip |
| Account.AccountManager.SetTicket | src/main/kotlin/com/smallcloud/codify/account/AccountManager.kt:9-18 | an equal value changes nothing; a new one is published, stored, and the login re-checked |
| Account.AccountManager.SetUser | src/main/kotlin/com/smallcloud/codify/account/AccountManager.kt:20-29 | as for the ticket |
| Account.AccountManager.SetApiKey | src/main/kotlin/com/smallcloud/codify/account/AccountManager.kt:30-39 | as for the ticket |
| Account.AccountManager.SetActivePlan | src/main/kotlin/com/smallcloud/codify/account/AccountManager.kt:40-48 | the plan is stored; a change event only when it differs |
| Account.AccountManager.Logout | src/main/kotlin/com/smallcloud/codify/account/AccountManager.kt:76-79 | no key, no user, logged out; when anything changed, the recorded state is logged out; the messages published are `LogoutEvents` |
| Statistics.CountsAreMultiplicities | src/main/kotlin/com/smallcloud/codify/statistic/StatisticService.kt:55-61 | each count is the metric's multiplicity, so the counts together make up all the metrics |
| Statistics.CountUsage | src/main/kotlin/com/smallcloud/codify/statistic/StatisticService.kt:55-61 | the counting loop maps exactly the distinct metrics, each to its number of occurrences |
| Statistics.StatisticService.constructor | src/main/kotlin/com/smallcloud/codify/statistic/StatisticService.kt:17-18 | the queue is the settings' queue |
| Statistics.StatisticService.Report | src/main/kotlin/com/smallcloud/codify/statistic/StatisticService.kt:38-61 | nothing, and the queue kept, exactly when it is empty or there is no API key; otherwise the queue is drained into a batch with its counts |
| Statistics.StatisticService.AddCompletionStatistic | src/main/kotlin/com/smallcloud/codify/statistic/StatisticService.kt:95-99 | the metrics join the end of the queue |
| Statistics.StatisticService.MergeMessages | src/main/kotlin/com/smallcloud/codify/statistic/StatisticService.kt:101-105 | a failed batch goes back at the end of the queue, so no metric is lost |

## Left out

- Executors, futures, task cancellation, `synchronized` blocks and dispatch-thread hops: they exist for concurrency. A scheduled task is a field, and cancelling one is the field resets it performs.
- The network and JSON: `streamedInferenceFetch`, `inferenceFetch`, `sendRequest` and Gson. Answers arrive as parameters (`StreamedPrediction`, `Prediction`, `Option<Prediction>`); sending a statistics batch is the caller's job, and a failed send is `MergeMessages`.
- LoginUser.kt (login polling over HTTP and a random ticket): network and floating point.
- Rendering: the completion layout keeps only the completion it shows, and the diff layout only the function name and the before/after lines. `DiffUtils.diff` is a foreign library; the line diff, the dialog, the rainbow animation and `waitingDiff` are not modelled.
- `CompletionState.makeCompletion` and the head/mid/tail `Completion.isMakeSense` are not shown: `OnPrediction` takes the completion they build, and `makesSense`, as parameters.
- `symbolsBeforeLeftCursorReversed()` is not shown: `AddCompletion` takes its result `beforeLeft` as a parameter.
- The debounce computation and `CompletionTracker`: `OnTextChange` takes the delay as a parameter.
- `shouldIgnoreChange`, the privacy check, `PromptCooker`, `FilesCollector` and `RequestCreator`: their answers are the booleans of `Environment` and `ActionPerformed`.
- The exception path of `renderCompletion`, the `hide`/`show` and `isInActiveState` queries, and the `getActiveFile` dispatch-thread check (folded into `hasActiveFile`).
- Editor.kt, the listeners and `DiffActionPromoter`: IDE forwarding only.
- The mode provider's `modeInActiveState`: it asks the active mode's `isInActiveState`, which is not modelled; `focusGained` and `focusLost` do nothing; `getCompletionMode` and `dispose` only hand out or release the mode objects.
- The message bus: publications are appended to `events` (`Account`), `forwarded` and `cleaned` (`Modes`). The calls from the modes back into the mode provider (`switchMode`, re-running a highlight) are returned as booleans.
- The settings store: its values are fields of the classes that read them.
- Account.AccountManager.SetTicket, Account.AccountManager.SetUser, Account.AccountManager.SetApiKey: the setters only publish, and a settings subscriber stores the value. The model fixes that subscriber: the value is stored right after publishing, before the login check.
- Cache.CompletionCache.AddCompletion: requires the start index to lie within the original text and `|beforeLeft| <= startIndex`. Without these, the source's `substring` calls throw, but only when a loop runs; the model requires them on every call.
- CompletionModes.CompletionMode.OnPrediction: inherits that precondition of `AddCompletion`.
- CompletionUtils.CompletionStateVsCode.Difference: the `assert` on the text before the cursor, the two `substring` calls, and the scan's reads past the start of a shorter prediction throw in the source. They are preconditions here (`DifferenceDefined`) rather than modelled exceptions.
- CompletionUtils.GetChar: an index out of range throws in the source; here it is excluded by the precondition.
- Statistics.CountsAreMultiplicities: the counts add up to the number of metrics is stated through the multiset of metrics, not as a sum over the map's values.
- Modes.ProviderTable.GetOrCreate: the clock and `identityHashCode` are parameters (`now`, `hashId`); the caret and focus listeners it registers are not modelled.
- Integer widths: positions and timestamps are unbounded integers; the source's `Int` and `Long` cannot overflow at the sizes involved (documents are capped at 180 KiB).
