# Streamed assistant reply, modelled in Dafny

The chat page (`chat_app.py`) sends a prompt to a hosted assistant and then
reads back the run as a stream of events. A loop over that stream builds the
assistant's turn as a list of text blocks:

- a created message opens a new, empty block;
- a text delta appends its text to the last block, or, when it carries
  annotations, one ` [n] ` marker per annotation instead of its text;
- a completed message with annotations appends a `\n\nFiles: ` section to the
  last block, with one `[i] filename; ` entry per annotation that cites a file,
  numbered by the annotation's position;
- a completed run step appends a standalone block with the token usage when
  usage printing is switched on.

The page stores the prompt as a user turn before the stream starts and the
blocks as an assistant turn once the loop ends.

The model has these parts:

- `Events` holds the values the loop works on: events, blocks, turns, and
  the faults that make the loop raise.
- `TextFormat` renders integers as f-strings do. It proves that the decimal
  rendering reads back to the number it came from.
- `Reducer` is the loop's rule set as a pure left fold: `Step` for one event,
  `Run`/`Reduce` for a whole stream. Its lemmas cover each event kind,
  growth (only the last block changes, and only at its end), block counts,
  composition of runs, fault finality, concatenation of plain deltas, the
  numbering of the file list, and worked streams.
- `StreamLoop` is the loop itself, in imperative form. The inner marker and
  file-list loops and the event loop are each proved equal to the fold.
- `AsWritten` is the loop with the usage switch read the way the page reads
  it (see Findings).
- `Session` holds the session state: a `ChatSession` class with the message
  history and the thread id, and `Submit`, which runs one prompt.

A Python exception raised inside the loop becomes `Err(fault)`. The exception
leaves the page before the assistant turn is stored, so the history then
keeps the user turn and nothing else.

Some consequences of following the code closely:

- A file citation is looked up through a total function, so a lookup that
  fails is not part of this model (it raises in the page and is not skipped).
- An annotation without a file citation still uses up its number. The numbers
  of the listed entries can therefore have gaps (`CitedPositionsExact`).
- A delta's marker uses the index the annotation reports, plus one. The file
  list numbers entries by position. The two numberings are independent.
- Malformed events raise, and so end in `Err`: a delta or completion without
  content parts, a completed message whose first part is not text, a text
  delta whose text part is absent, and a plain delta with no value.

## Model

| member | source | states |
|---|---|---|
| TextFormat.Decimal | chat_app.py:217 | the rendering of a natural number is non-empty, all digits, has no leading zero, and is one character exactly for numbers below ten |
| TextFormat.DecimalRoundTrip | chat_app.py:217 | reading the rendering of n back gives n, so distinct entry numbers render differently |
| TextFormat.Signed | chat_app.py:203 | the rendering of an integer starts with '-' exactly when it is negative; what follows is a non-empty run of digits with no leading zero (except for 0 itself) that reads back to the absolute value |
| Reducer.AppendToLast | chat_app.py:203 | appending to the last block keeps the number of blocks and every earlier block, and extends the last block's content by exactly the appended text |
| Reducer.Marker | chat_app.py:203 | the marker of an annotation starts with " [" and ends with "] " |
| Reducer.Markers | chat_app.py:202-203 | the markers of n annotations take at least five characters each |
| Reducer.Entry | chat_app.py:215-217 | an annotation's file-list entry is empty exactly when it has no file citation |
| Reducer.FileListEmptyExactly | chat_app.py:211-217 | the entries after the files header are empty exactly when no annotation cites a file |
| Reducer.Step | chat_app.py:189-225 | a successful event adds at most one block and never removes one; the usage-switch fault never arises from the corrected loop |
| Reducer.Run | chat_app.py:187-225 | from any starting blocks, a successful stretch of events adds at most one block per event and removes none; the usage-switch fault never arises |
| Reducer.Reduce | chat_app.py:187-225 | a successful stream yields at most one block per event, and the usage-switch fault never arises |
| Reducer.RunSnoc | chat_app.py:189 | one more event at the end of the stream is one more step, and after a fault nothing more happens |
| Reducer.CreatedOpensEmptyBlock | chat_app.py:191-193 | a created message keeps every block and adds one empty block at the end |
| Reducer.PlainDeltaAppendsValue | chat_app.py:204-205 | a text delta without annotations appends its own text verbatim to the last block |
| Reducer.AnnotatedDeltaIgnoresValue | chat_app.py:201-203 | a text delta with annotations appends their markers to the last block, and the result does not depend on the delta's text |
| Reducer.MarkerShape | chat_app.py:203 | the marker of an annotation with index k is " [", then the digits of k+1 with no leading zero, then "] " |
| Reducer.CompletionAppendsFileList | chat_app.py:208-217 | a completed text message with annotations appends the files header and then the file list to the last block |
| Reducer.QuietEventsChangeNothing | chat_app.py:196-225 | other events, non-text deltas, completions without annotations, and run steps without printed usage leave the blocks as they were |
| Reducer.UsageBlock | chat_app.py:220-225 | a completed run step adds one block holding the usage exactly when usage printing is on and usage is reported; otherwise the blocks are unchanged |
| Reducer.NoOpenBlockExactly | chat_app.py:196-217 | writing before any block exists raises exactly when no block exists and the event is a text delta (of any kind) or a completed text message with annotations |
| Reducer.ExtendsTransitive | chat_app.py:189-225 | "earlier blocks unchanged, last block only grown at its end" composes across steps |
| Reducer.StepExtends | chat_app.py:189-225 | one successful step leaves every block but the last unchanged and only appends to the last block's content |
| Reducer.RunExtends | chat_app.py:189-225 | across a whole successful stream, no block disappears, earlier blocks never change, and the block that was last only grows at its end |
| Reducer.BlockCount | chat_app.py:191-225 | a successful stream ends with one block per created message plus one per printed usage report |
| Reducer.RunSplit | chat_app.py:189 | running two stretches of events one after the other is running their concatenation, and a fault in the first stretch ends it |
| Reducer.FaultIsFinal | chat_app.py:189-225 | once an exception is raised, later events do not change the outcome |
| Reducer.OpenBlockStaysOpen | chat_app.py:191-225 | once a block exists, no event can raise for want of one, and blocks never run out |
| Reducer.CreatedFirstNeverLacksBlock | chat_app.py:191-217 | a stream that starts with a created message never raises for want of an open block |
| Reducer.AppendTwice | chat_app.py:203-217 | two appends to the last block equal one append of the concatenation |
| Reducer.PlainDeltasConcatenate | chat_app.py:196-205 | unannotated deltas leave their texts concatenated in arrival order at the end of the last block |
| Reducer.CitedPositions | chat_app.py:212-215 | the numbers given to cited annotations lie between 1 and the number of annotations and strictly increase |
| Reducer.CitedPositionsExact | chat_app.py:212-215 | a number is listed exactly when the annotation at that position cites a file; an annotation without a citation still uses up its number |
| Reducer.EntriesAtLonger | chat_app.py:213-217 | entries for positions within a list are unaffected by annotations added after them |
| Reducer.FileListIsCitedEntries | chat_app.py:211-217 | the file list is the entries of exactly the citing annotations, in order, each numbered by its position in the whole list |
| Reducer.HelloWorld | chat_app.py:189-217 | created, "Hello", " world", completed without annotations yields the single block "Hello world" |
| Reducer.CitedDeltaMarker | chat_app.py:203 | an annotation with index 0 is marked " [1] " |
| Reducer.CitedDeltaFileList | chat_app.py:212-217 | one citation of a file named book.pdf lists as "[1] book.pdf; " |
| Reducer.CitedDeltaSteps | chat_app.py:191-217 | created, an annotated delta, then an annotated completion yields the markers followed by the files section in one block |
| Reducer.CitedDelta | chat_app.py:191-217 | the annotated example stream yields the block " [1] \n\nFiles: [1] book.pdf; " |
| StreamLoop.AppendMarkers | chat_app.py:202-203 | the marker loop leaves exactly the annotations' markers appended to the last block |
| StreamLoop.AppendFileList | chat_app.py:211-217 | the header and the counter-driven entry loop leave exactly the files header and file list appended to the last block |
| StreamLoop.HandleEvent | chat_app.py:190-225 | the loop body for one event has the effect of one step of the fold, faults included |
| StreamLoop.ReduceStream | chat_app.py:187-225 | the whole loop yields exactly the fold of the stream, or the first fault |
| AsWritten.StepAsWritten | chat_app.py:220 | as written, an event raises the usage-switch fault exactly when it is a completed run step |
| AsWritten.RunAsWritten | chat_app.py:187-225 | as written, a stream the loop gets through contains no completed run step at all |
| AsWritten.AgreesWithoutRunSteps | chat_app.py:220 | without completed run steps, the loop as written and the corrected one agree |
| AsWritten.FaultIsFinalAsWritten | chat_app.py:189-225 | as written, too, later events do not change an exception's outcome |
| AsWritten.CrashesAtFirstRunStep | chat_app.py:220 | as written, any stream that reaches a completed run step without an earlier fault raises there, whatever the usage setting |
| AsWritten.TypicalRunOpening | chat_app.py:189-217 | the typical run has built the block "Hi" by the time its run step completes |
| AsWritten.TypicalRun | chat_app.py:189-225 | the typical run raises as written; corrected, it yields "Hi", plus the usage block when printing is on |
| Session.UserTurn | chat_app.py:156-160 | the prompt is stored as a user turn with one text item holding it |
| Session.AfterSubmit | chat_app.py:143-227 | an empty prompt changes nothing; otherwise the earlier history is kept and the user turn follows it, then the assistant turn if and only if the loop got through |
| Session.AfterSubmitAlternates | chat_app.py:156-227 | submitting keeps every assistant turn directly after a user turn |
| Session.UserTurns | chat_app.py:156-160 | the count of user turns never exceeds the history's length |
| Session.UserTurnsAppend | chat_app.py:156-160 | user turns of a concatenation add up |
| Session.UserTurnsCountPrompts | chat_app.py:143-160 | each non-empty prompt adds exactly one user turn, whether or not the loop raised |
| Session.ChatSession.constructor | chat_app.py:123-124 | a new session has an empty history and no thread |
| Session.ChatSession.Submit | chat_app.py:143-227 | an empty prompt does nothing; otherwise the history becomes AfterSubmit of the loop's outcome, the thread is created only if none exists, and the alternation of turns is kept |

## Left out

- Rendering (`st.empty`, `markdown`, the chat bubbles, the history replay at lines 127-141) is display only. It changes no state of the model.
- `print(event)` and the printed thread id are logging only.
- The password gate, database selection, TOML settings loading and secrets are left out, because they run before the core and are outside it. Only the usage switch is kept, as `Config.printUsage`.
- The assistant API client is not part of this model: assistant retrieval, thread update, posting the pre-prompted message, and run creation. The event stream is an input sequence, and the new thread id is a parameter of `Submit`.
- `client.files.retrieve` becomes the total function `Config.fileName`. A failing lookup or a network error is not modelled.
- Reducer.Step: the text of a usage report is taken as a given string. How the API library renders a usage object is outside the source.
- Events carry only what the loop reads. Other event kinds (run and step events, images, code-interpreter output) are `Other`, `OtherDelta` and `OtherContent`. An event whose content list is None is modelled as the empty list; both raise on `content[0]`.
- Transport faults mid-stream are not modelled. The stream is a finite sequence that is fully read unless the loop body raises.
- Session.ChatSession.Submit: runs the corrected loop, which reads the usage switch as a setting. As written, the page raises at the first completed run step and stores no assistant turn for that run (see Findings; `AsWritten.RunAsWritten`).
- Session.ChatSession.Submit: blocks built before an exception are dropped, as the page drops them. The incremental display of those blocks is not modelled.

## Findings

| source | as written | input that shows it | evidently intended | confidence | as-written member | corrected member |
|---|---|---|---|---|---|---|
| chat_app.py:220 | the usage switch is read as an attribute, `app_config.print_usage`, of the database's settings table, which is a dictionary everywhere else on the page (`app_config["prompt"]`), so the read raises at the first completed run step | any run that streams a completed run step, such as `AsWritten.TypicalRun`'s stream ending in `StepCompleted(Some("usage"))` | read the switch as a key, and add the usage block only when it is on | high, not executed | AsWritten.CrashesAtFirstRunStep | Reducer.UsageBlock |
