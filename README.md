# Debug-log instrumentation passes, modelled in Dafny

The repository patches JavaScript sources of a card game by adding
`console.log` debugging statements. Three of its Python functions have
logic that can be stated exactly, and they are modelled here:

- `add_logs_to_game_js` (add_debug_final.py). An "already applied" guard looks
  for the click marker. Otherwise the text is split into lines and walked with
  a `while` loop. Each line is copied to `new_lines`, and the first matching
  branch of a six-way `if/elif` chain appends fixed log lines after it. The
  last branch instead inserts two lines before it with `insert(-1, ...)`.
  The lines are then joined back.
- `add_logs_to_interaction_js` (add_debug_final.py). The same shape, with two
  branches.
- `add_logs_to_board_event_handler_js` (add_debug_logs.py). A marker guard,
  then a `re.sub` whose pattern is fully escaped. It is therefore a literal
  replace-all of one log statement by another.

Each function is modelled as a map from the content read to an `Outcome`:
`Skipped` (returned before writing), `Written(text)` (the text written back)
or `Crashed(IndexError)`. `FileAfter` gives the file's content afterwards.

Modules:

- `PyText`: the Python builtins the scripts rely on.
  - `t in s`, `str.strip()` with Python's whitespace set, and `split('\n')` /
    `'\n'.join`.
  - List indexing with negative indices. `lines[i-1]` at `i == 0` is the last
    line, and an index past the end raises.
  - `list.insert` with Python's clamping.
- `LineScan`: the shape shared by both line passes. An `Action` is the lines a
  branch put before and after one input line, and `Expand` is the list the
  loop builds. Lemmas locate each input line and its inserted neighbours in
  the output.
- `GameLogs` and `InteractionLogs`: the two passes.
  - The `if/elif` chain as `Eval`, and the loop's specification as `Scan`
    and `Instrument`.
  - The loops themselves as methods over a `seq` accumulator, proved equal to
    `Instrument`.
  - Lemmas for the guard, the error case, branch order, where the logs land,
    order preservation and reruns.
- `BoardLogs`: `ReplaceAll` with its reference reading (`SplitOn` /
  `JoinWith`), and the board pass with its idempotence.

Facts about the code that shape the model:

- The passes insert while they scan. When several tests hold on one line, the
  first branch of the `if/elif` chain wins.
- Inserted lines are fixed literals with their own indentation. They do not
  copy the anchor's indentation.
- The guards do not make the line passes idempotent in general. Only the first
  game.js rule and the interaction.js mouse-down rule write their marker. A
  run in which only later rules fire leaves no marker, and a second run
  inserts the same logs again. The lemmas prove the property only where it
  holds: `RerunAfterClickLogIsSkipped`, `RerunAfterMouseDownLogIsSkipped`, and
  the two `UnchangedWhenNothingFires` lemmas.

## Model

| member | source | states |
|---|---|---|
| PyText.ContainsTransitive | add_debug_final.py:16 | if `u in s` and `t in u` then `t in s` |
| PyText.ContainsInfix | add_debug_final.py:16 | a substring of `b` is a substring of any text `a + b + c` |
| PyText.LeadingSpace | add_debug_final.py:43 | the count of leading whitespace: every character before it is whitespace, the next one is not |
| PyText.TrailingSpace | add_debug_final.py:43 | the count of trailing whitespace: every character after the cut is whitespace, the one before is not |
| PyText.StripIsTrimmedSlice | add_debug_final.py:43 | `strip()` is the slice of the line from its first to its last non-whitespace character; every non-whitespace character lies inside it |
| PyText.SpreadInStripped | add_debug_final.py:43-59 | two non-whitespace characters of a piece found in a line lie no further apart than the stripped line is long |
| PyText.Split | add_debug_final.py:20 | `split('\n')` gives at least one piece, no piece holds a line break, and `'\n'.join` of the pieces is the text |
| PyText.SplitPrefix | add_debug_final.py:20 | splitting a break-free prefix followed by more text only extends the first piece |
| PyText.SplitJoin | add_debug_final.py:65 | joining break-free lines and splitting again gives the same lines |
| PyText.JoinContainsLine | add_debug_final.py:65 | every line occurs as a substring of the joined text |
| PyText.PyGetIndices | add_debug_final.py:29-59 | every element of a list is reached by `xs[k]` and by `xs[k - len(xs)]`, and the first index past either end raises `IndexError` |
| PyText.PyInsert | add_debug_final.py:60-61 | `insert` makes the list one longer |
| PyText.InsertBeforeLast | add_debug_final.py:60-61 | `insert(-1, x)` puts `x` just before the last element |
| LineScan.Expand | add_debug_final.py:24-63 | the built list has as many lines as the input plus the inserted ones |
| LineScan.InsertedMonotone | add_debug_final.py:24-63 | more lines scanned never means fewer lines inserted |
| LineScan.ChunkAt | add_debug_final.py:24-63 | the chunk of line `k` occurs unbroken in the output at a known start index |
| LineScan.AnchorNeighbourhood | add_debug_final.py:24-63 | input line `k` sits at its anchor index, with exactly its inserted before-lines right above it and after-lines right below it |
| LineScan.AfterLineAt | add_debug_final.py:24-63 | the `j`-th after-line of input line `k` sits `j + 1` lines below that line's anchor index |
| LineScan.AfterLineInJoin | add_debug_final.py:24-65 | text held by any inserted after-line is held by the joined output |
| LineScan.AnchorsIncrease | add_debug_final.py:24-26 | anchor indices strictly increase with the line number |
| LineScan.ExpandKeepsLinesInOrder | add_debug_final.py:24-26 | the input lines appear in the output at strictly increasing positions, in their order: nothing is dropped or reordered |
| LineScan.ExpandAllKeep | add_debug_final.py:24-26 | when no line gets any inserted lines, the output is the input |
| GameLogs.Scan | add_debug_final.py:24-63 | a successful scan yields one rule per line |
| GameLogs.ScanErrorPersists | add_debug_final.py:59 | once a line raised, every longer scan raises the same error: the loop stops at the first exception |
| GameLogs.EmitLogs | add_debug_final.py:29-61 | the branch that fired leaves the lines built so far and the anchor line in place, with its logs after the anchor, or for the phases rule `''` and the ALLOWED log just before it |
| GameLogs.AddLogsToGameJs | add_debug_final.py:10-68 | the loop's outcome is exactly `Instrument(content)` |
| GameLogs.ScanAt | add_debug_final.py:29-61 | a successful scan records, for every line, the one branch that fired on it |
| GameLogs.ScanNothingFires | add_debug_final.py:24-63 | when no branch fires, the scan succeeds and records no rule for any line |
| GameLogs.ScanFailsIff | add_debug_final.py:24-63 | the scan raises exactly when the evaluation of some line raises |
| GameLogs.FirstFailure | add_debug_final.py:59 | a failed scan has a line whose evaluation raised |
| GameLogs.DatasetLineStripsLong | add_debug_final.py:29-59 | a line holding the dataset statement strips to at least that statement's 47 characters, longer than the processing check, the zone check and the phases comment |
| GameLogs.EvalFirstMatchWins | add_debug_final.py:29-61 | each branch fires exactly when its test holds and no earlier one does: the dataset rule exactly on its anchor; the processing and zone rules exactly on theirs, since no dataset line strips to their checks; the two turn rules exactly on theirs when the dataset rule did not fire; the phases rule exactly on a phases comment followed by a `switch` line |
| GameLogs.EvalFailsIff | add_debug_final.py:59 | evaluating a line raises exactly when it is the last line and strips to the phases comment |
| GameLogs.FirstLineContext | add_debug_final.py:29-51 | at the first line, the dataset and zone tests read their context from the last line; the two `i > 0` tests never fire there |
| GameLogs.ScanRecordsClickLog | add_debug_final.py:29-40 | a successful scan records the dataset rule on every dataset line under the handler header, whatever later tests would say |
| GameLogs.ScanRecordsPhases | add_debug_final.py:43-61 | a successful scan records the phases rule on every phases comment above a `switch` line |
| GameLogs.PhasesCommentFires | add_debug_final.py:43-61 | a phases comment above a `switch` line is taken by the phases branch: no earlier branch fires on it and it does not raise |
| GameLogs.ClickLogNeighbourhood | add_debug_final.py:29-40 | wherever the dataset rule is recorded, the eleven click-log lines follow its anchor in the output, and the anchor stays in place |
| GameLogs.PhasesNeighbourhood | add_debug_final.py:59-61 | wherever the phases rule is recorded, `''` and the ALLOWED log come right before its anchor in the output, and the anchor stays in place |
| GameLogs.ClickLogFollowsDatasetLine | add_debug_final.py:29-40 | a dataset line under the handler header is followed in the output by exactly the eleven click-log lines, and stays in place |
| GameLogs.AllowedLogPrecedesPhasesComment | add_debug_final.py:59-61 | a phases comment followed by a `switch` line is preceded in the output by `''` and the ALLOWED log, and stays in place |
| GameLogs.CommentedMarkerHoldsMarker | add_debug_final.py:16 | the second marker of the guard contains the first, so the `or` never decides anything |
| GameLogs.SkipsExactlyWhenMarked | add_debug_final.py:15-18 | the pass returns without writing exactly when the content holds `DEBUG: Click event occurred` |
| GameLogs.ScanFailsOnTrailingPhasesComment | add_debug_final.py:59 | the scan of the whole file raises exactly when its last line strips to the phases comment |
| GameLogs.FailedScanEndsInPhasesComment | add_debug_final.py:59 | a scan of the whole file that raised ends in a line that strips to the phases comment |
| GameLogs.ScanSucceedsOnlyWithoutTrailingPhasesComment | add_debug_final.py:59 | a scan of the whole file that succeeded does not end in a line that strips to the phases comment |
| GameLogs.LastLineEvaluatedWithoutPhasesComment | add_debug_final.py:59 | a last line evaluated without raising does not strip to the phases comment |
| GameLogs.CrashesExactlyOnTrailingPhasesComment | add_debug_final.py:16-59 | the pass raises `IndexError` exactly when it is past the guard and the last line strips to the phases comment |
| GameLogs.WrittenKeepsLinesInOrder | add_debug_final.py:20-65 | a written file holds the old lines in their order, with the inserted lines between them; its line count is the old one plus the inserted ones |
| GameLogs.UnchangedWhenNothingFires | add_debug_final.py:20-65 | past the guard, when no branch fires, the text written back is the text read |
| GameLogs.ClickLogHoldsMarker | add_debug_final.py:16-31 | the second click-log line carries the guard's marker |
| GameLogs.ClickLogRuleMarksOutput | add_debug_final.py:16-40 | wherever the dataset rule is recorded, the joined output holds the guard's marker |
| GameLogs.ClickLogMarksOutput | add_debug_final.py:16-40 | a successful scan of a file with a dataset line under the handler header joins to text holding the guard's marker |
| GameLogs.RerunAfterClickLogIsSkipped | add_debug_final.py:16-40 | once the dataset rule fired, running the pass again on the written text is skipped |
| InteractionLogs.Scan | add_debug_final.py:109-127 | the scan yields one rule per line |
| InteractionLogs.EmitLogs | add_debug_final.py:114-125 | the branch that fired appends its logs after the anchor line and changes nothing else |
| InteractionLogs.BuildNewLines | add_debug_final.py:105-127 | the loop builds exactly the expanded lines of the scan |
| InteractionLogs.AddLogsToInteractionJs | add_debug_final.py:96-132 | the function's outcome is exactly `Instrument(content)` |
| InteractionLogs.SkipsExactlyWhenMarked | add_debug_final.py:101-103 | the function returns without writing exactly when the content holds `THREE.JS MOUSE DOWN:`, and otherwise always writes |
| InteractionLogs.ScanAt | add_debug_final.py:114-125 | the scan records, for every line, the one branch that fired on it |
| InteractionLogs.ScanNothingFires | add_debug_final.py:109-127 | when no branch fires, the scan records no rule for any line |
| InteractionLogs.FirstLineContext | add_debug_final.py:124 | at the first line, the drag test looks for its comment in the last line |
| InteractionLogs.MouseDownNeighbourhood | add_debug_final.py:114-121 | wherever the mouse-down rule is recorded, the seven log lines follow its anchor in the output, and the anchor stays in place |
| InteractionLogs.DragNeighbourhood | add_debug_final.py:124-125 | wherever the drag rule is recorded, the DRAG BLOCKED log follows its anchor in the output, and the anchor stays in place |
| InteractionLogs.MouseDownLogFollowsParentLine | add_debug_final.py:114-122 | a line finding the interactive parent is followed by exactly the seven mouse-down log lines, whether or not the drag test also holds there |
| InteractionLogs.DragLogFollowsTurnCheck | add_debug_final.py:124-125 | a turn check under its comment, on a line not finding the parent, is followed by the DRAG BLOCKED log |
| InteractionLogs.WrittenKeepsLinesInOrder | add_debug_final.py:105-129 | past the guard the file is written: its old lines in order, with the inserted lines between them, and its line count is the old one plus the inserted ones |
| InteractionLogs.UnchangedWhenNothingFires | add_debug_final.py:105-129 | past the guard, when no branch fires, the text written back is the text read |
| InteractionLogs.MouseDownLogHoldsMarker | add_debug_final.py:101-116 | the second mouse-down log line carries the guard's marker |
| InteractionLogs.MouseDownRuleMarksOutput | add_debug_final.py:101-121 | wherever the mouse-down rule is recorded, the joined output holds the guard's marker |
| InteractionLogs.RerunAfterMouseDownLogIsSkipped | add_debug_final.py:101-122 | once the mouse-down rule fired, running the function again on the written text is skipped |
| BoardLogs.SplitOn | add_debug_logs.py:156 | cutting at the separator always gives at least one piece |
| BoardLogs.JoinSplitOn | add_debug_logs.py:156 | cutting at the separator and gluing with it gives the text back |
| BoardLogs.ReplaceAllGluesPieces | add_debug_logs.py:153-156 | the replace-all equals the cut pieces glued with the replacement, so the text between occurrences is unchanged |
| BoardLogs.FirstPieceIsPrefix | add_debug_logs.py:156 | the first piece of the cut is a prefix of the text |
| BoardLogs.ContainsPastFirst | add_debug_logs.py:156 | an occurrence not at the start is an occurrence in the rest |
| BoardLogs.ContainsAtStartOrPast | add_debug_logs.py:156 | an occurrence is at the start or in the rest |
| BoardLogs.PiecesLackSeparator | add_debug_logs.py:153-156 | no piece of the cut contains the pattern, so every occurrence is replaced |
| BoardLogs.ReplaceAllAbsent | add_debug_logs.py:156 | text without the pattern comes back unchanged |
| BoardLogs.ReplaceAllPresent | add_debug_logs.py:156 | text with the pattern comes back holding the replacement |
| BoardLogs.NewLogHoldsMarker | add_debug_logs.py:148-154 | the replacement log carries the guard's marker |
| BoardLogs.BoardHandlerOutcomes | add_debug_logs.py:147-177 | skipped exactly when marked; written back unchanged when the old log is absent; otherwise written holding the new log and the marker |
| BoardLogs.BoardHandlerIdempotent | add_debug_logs.py:147-177 | running the function again on the file it left changes nothing more |

## Left out

- File reading and writing, the `print` status messages and the hard-coded paths. Each function maps the content read to an outcome. Text-mode newline translation by `open` is part of that I/O and is not modelled.
- The UTF-8 rewrapping of `sys.stdout` (add_debug_final.py:6-8): platform I/O setup.
- `add_logs_to_view_js` (add_debug_final.py:70-94), the functions of add_debug_logs.py:9-137, and all of add_debug_logs_simple.py. Their `re.sub` patterns use real regular-expression features (`\s+`, `.*`, groups, back-references), and Python's regex engine is not part of this model.
- `pattern2` and `replacement2` (add_debug_logs.py:159-174) are built but never applied. `BoardHandler` depends only on the first replacement, as the code does.
- The `__main__` blocks that call the functions in sequence.
- GameLogs.EvalFirstMatchWins: the dataset rule (a substring test) is not shown to exclude the two 60-character turn checks, so those two branches are stated under "the dataset rule did not fire". The processing check, the zone check and the phases comment are shown too short to hold the dataset statement.
- GameLogs.WrittenKeepsLinesInOrder: does not state that splitting the written text again gives back the built lines. That would need a proof that no inserted literal contains a line break, which is true but not proved here.
- InteractionLogs.WrittenKeepsLinesInOrder: does not state that splitting the written text again gives back the built lines, for the same reason: the inserted literals are not proved free of line breaks.
- The repeat insertion on a second run, after only later rules fired, is described above but not exhibited by a lemma. Showing it needs a proof that the marker is absent from the written text.
