/** `add_logs_to_game_js` (add_debug_final.py): adds debug logging to the click
    handler of game.js. It gives up at once when the file already holds the
    click marker; otherwise it splits the text into lines, walks them with an
    `if/elif` chain of six anchor rules, copies every line and puts fixed log
    lines after it (or, for the last rule, before it), and joins the lines
    back with line breaks. File reading and writing and the status messages
    are left to the caller: the function maps the old content to an `Outcome`. */
module GameLogs {

  import opened PyText
  import opened LineScan
  import opened PatchOutcome

  // ---------------------------------------------------------------------------
  // The literals of the script

  /** The "already applied" markers; the second contains the first. */
  const CLICK_MARKER: string := "DEBUG: Click event occurred"
  const COMMENTED_CLICK_MARKER: string := "// " + CLICK_MARKER

  const DATASET_LINE: string := "const { owner, zone," + " cardId, index } = dataset;"
  const HANDLER_HEADER: string := "async _handleCardClick"
  const PROCESSING_CHECK: string := "if (this.state.isProcessing) {"
  const PROCESSING_COMMENT: string := "処理中の場合はクリックを無視"
  const PLAYER_TURN_CHECK: string := "if (this.state.turnPlayer === 'player' && owner === 'cpu') {"
  const PLAYER_TURN_COMMENT: string := "ターンプレイヤーと所有者のチェック"
  const INFO_CHECK: string := "if (zone === 'active' || zone === 'bench') {"
  const INFO_COMMENT: string := "CPUのカードは情報表示のみ許可"
  const CPU_TURN_CHECK: string := "if (this.state.turnPlayer === 'cpu' && owner === 'player') {"
  const PHASES_COMMENT: string := "// Handle different phases"
  const SWITCH: string := "switch"

  /** The eleven lines appended after the dataset line. */
  const CLICK_LOG: seq<string> := [
    "",
    "        " + COMMENTED_CLICK_MARKER,
    "        console.log('Card Click:', {",
    "            owner,",
    "            zone,",
    "            cardId,",
    "            index,",
    "            currentPhase: this.state.phase,",
    "            turnPlayer: this.state.turnPlayer,",
    "            isProcessing: this.state.isProcessing",
    "        });"
  ]
  const PROCESSING_LOG: string := "            console.log('BLOCKED: isProcessing = true');"
  const PLAYER_TURN_LOG: string := "            console.log('BLOCKED: Player turn, CPU card clicked', { zone });"
  const INFO_LOG: string := "                console.log('INFO: Info display allowed for CPU active/bench');"
  const CPU_TURN_LOG: string := "            console.log('BLOCKED: CPU turn, Player card clicked');"
  const ALLOWED_LOG: string := "        console.log('ALLOWED: Click allowed, processing...');"

  // ---------------------------------------------------------------------------
  // The rules

  /** Which branch of the `if/elif` chain fired on a line. */
  datatype Rule = NoRule | ClickLog | ProcessingBlocked | PlayerTurnBlocked | InfoAllowed | CpuTurnBlocked | PhasesAllowed

  /** The lines a branch inserts around its anchor line. */
  function ActionOf(r: Rule): Action {
    match r
    case NoRule => Keep
    case ClickLog => Action([], CLICK_LOG)
    case ProcessingBlocked => Action([], [PROCESSING_LOG])
    case PlayerTurnBlocked => Action([], [PLAYER_TURN_LOG])
    case InfoAllowed => Action([], [INFO_LOG])
    case CpuTurnBlocked => Action([], [CPU_TURN_LOG])
    case PhasesAllowed => Action(["", ALLOWED_LOG], [])
  }

  /** First branch: the dataset line, right after the handler header. With no
      `i > 0` guard, `lines[i-1]` at the first line is the last line. */
  predicate ClickAnchor(lines: seq<string>, i: nat)
    requires i < |lines|
  {
    Contains(lines[i], DATASET_LINE) && Contains(PyIndex(lines, i - 1), HANDLER_HEADER)
  }

  /** Second branch: the `isProcessing` check under its comment (not on the first line). */
  predicate ProcessingAnchor(lines: seq<string>, i: nat)
    requires i < |lines|
  {
    Strip(lines[i]) == PROCESSING_CHECK && i > 0 && Contains(lines[i - 1], PROCESSING_COMMENT)
  }

  /** Third branch: the player-turn check under its comment (not on the first line). */
  predicate PlayerTurnAnchor(lines: seq<string>, i: nat)
    requires i < |lines|
  {
    Strip(lines[i]) == PLAYER_TURN_CHECK && i > 0 && Contains(lines[i - 1], PLAYER_TURN_COMMENT)
  }

  /** Fourth branch: the zone check under its comment; unguarded, so at the
      first line the comment is looked for in the last line. */
  predicate InfoAnchor(lines: seq<string>, i: nat)
    requires i < |lines|
  {
    Strip(lines[i]) == INFO_CHECK && Contains(PyIndex(lines, i - 1), INFO_COMMENT)
  }

  /** Fifth branch: the CPU-turn check, with no context. */
  predicate CpuTurnAnchor(lines: seq<string>, i: nat)
    requires i < |lines|
  {
    Strip(lines[i]) == CPU_TURN_CHECK
  }

  /** The `if/elif` chain on line `i`; the first branch whose test holds wins.
      The sixth test reads `lines[i+1]`, which raises `IndexError` on the last
      line. */
  function Eval(lines: seq<string>, i: nat): Result<Rule>
    requires i < |lines|
  {
    if ClickAnchor(lines, i) then Ok(ClickLog)
    else if ProcessingAnchor(lines, i) then Ok(ProcessingBlocked)
    else if PlayerTurnAnchor(lines, i) then Ok(PlayerTurnBlocked)
    else if InfoAnchor(lines, i) then Ok(InfoAllowed)
    else if CpuTurnAnchor(lines, i) then Ok(CpuTurnBlocked)
    else if Strip(lines[i]) == PHASES_COMMENT then
      match PyGet(lines, i + 1)
      case Err(e) => Err(e)
      case Ok(next) => Ok(if Contains(next, SWITCH) then PhasesAllowed else NoRule)
    else Ok(NoRule)
  }

  /** The branches fired on the first `n` lines, in order, or the error of the
      first line whose evaluation raised. */
  function Scan(lines: seq<string>, n: nat): (r: Result<seq<Rule>>)
    requires n <= |lines|
    ensures r.Ok? ==> |r.value| == n
  {
    if n == 0 then Ok([])
    else
      match Scan(lines, n - 1)
      case Err(e) => Err(e)
      case Ok(rules) =>
        match Eval(lines, n - 1)
        case Err(e) => Err(e)
        case Ok(rule) => Ok(rules + [rule])
  }

  /** One more line of the scan. */
  lemma ScanStep(lines: seq<string>, i: nat, rules: seq<Rule>, rule: Rule)
    requires i < |lines| && Scan(lines, i) == Ok(rules) && Eval(lines, i) == Ok(rule)
    ensures Scan(lines, i + 1) == Ok(rules + [rule])
  {
  }

  /** Once a line raised, the scan of any longer prefix raises the same error. */
  lemma {:induction false} ScanErrorPersists(lines: seq<string>, m: nat, n: nat)
    requires m <= n <= |lines| && Scan(lines, m).Err?
    ensures Scan(lines, n) == Scan(lines, m)
    decreases n - m
  {
    if m < n {
      ScanErrorPersists(lines, m + 1, n);
    }
  }

  /** The whole function, from the content read to what happens to the file. */
  function Instrument(content: string): Outcome {
    if Contains(content, CLICK_MARKER) || Contains(content, COMMENTED_CLICK_MARKER) then Skipped
    else
      var lines := Split(content);
      match Scan(lines, |lines|)
      case Err(e) => Crashed(e)
      case Ok(rules) => Written(Render(lines, rules))
  }

  /** The text written back: the lines with the logs of the rules that fired,
      joined with line breaks. */
  function Render(lines: seq<string>, rules: seq<Rule>): string
    requires |rules| == |lines|
  {
    Join(Expand(lines, ActionsOf(rules, ActionOf)))
  }

  // ---------------------------------------------------------------------------
  // The scan loop

  /** The body of the branch that fired, applied to `new_lines` right after
      the anchor line was appended: the log lines end up before or after the
      anchor as `ActionOf` says, and nothing else changes. */
  method EmitLogs(newLines: seq<string>, rule: Rule) returns (result: seq<string>)
    requires |newLines| > 0
    ensures result == newLines[..|newLines| - 1] + Chunk(newLines[|newLines| - 1], ActionOf(rule))
  {
    ghost var done, line := newLines[..|newLines| - 1], newLines[|newLines| - 1];
    assert newLines == done + [line];
    result := newLines;
    match rule {
      case NoRule =>
      case ClickLog => result := result + CLICK_LOG;
      case ProcessingBlocked => result := result + [PROCESSING_LOG];
      case PlayerTurnBlocked => result := result + [PLAYER_TURN_LOG];
      case InfoAllowed => result := result + [INFO_LOG];
      case CpuTurnBlocked => result := result + [CPU_TURN_LOG];
      case PhasesAllowed =>
        InsertBeforeLast(done, line, "");
        result := PyInsert(result, -1, "");
        InsertBeforeLast(done + [""], line, ALLOWED_LOG);
        assert result == done + [""] + [line];
        result := PyInsert(result, -1, ALLOWED_LOG);
    }
  }

  /** The `while i < len(lines)` loop of the script, building `new_lines`:
      each line is appended, then the branch that fired appends its log lines
      after it, or inserts them before it with `insert(-1, ...)`. */
  method AddLogsToGameJs(content: string) returns (outcome: Outcome)
    ensures outcome == Instrument(content)
  {
    if Contains(content, CLICK_MARKER) || Contains(content, COMMENTED_CLICK_MARKER) {
      return Skipped;
    }
    var lines := Split(content);
    var newLines: seq<string> := [];
    ghost var rules: seq<Rule> := [];
    var i := 0;
    while i < |lines|
      invariant i <= |lines|
      invariant Scan(lines, i) == Ok(rules)
      invariant newLines == Expand(lines[..i], ActionsOf(rules, ActionOf))
    {
      ghost var done := newLines;
      var line := lines[i];
      newLines := newLines + [line];
      var fired := Eval(lines, i);
      if fired.Err? {
        ScanErrorPersists(lines, i + 1, |lines|);
        return Crashed(fired.error);
      }
      newLines := EmitLogs(newLines, fired.value);
      assert newLines == done + Chunk(line, ActionOf(fired.value));
      ExpandStep(lines, ActionsOf(rules, ActionOf), i, ActionOf(fired.value));
      ActionsOfStep(rules, ActionOf, fired.value);
      ScanStep(lines, i, rules, fired.value);
      rules := rules + [fired.value];
      i := i + 1;
    }
    assert lines[..i] == lines;
    return Written(Join(newLines));
  }

  // ---------------------------------------------------------------------------
  // Properties of the scan

  /** A successful scan records, for every line, the one branch that fired
      on it. */
  lemma {:induction false} ScanAt(lines: seq<string>, n: nat, k: nat)
    requires k < n <= |lines| && Scan(lines, n).Ok?
    ensures Eval(lines, k) == Ok(Scan(lines, n).value[k])
  {
    if k < n - 1 {
      ScanAt(lines, n - 1, k);
    }
  }

  /** When no branch fires on any line, the scan succeeds with `NoRule`
      everywhere. */
  lemma {:induction false} ScanNothingFires(lines: seq<string>, n: nat)
    requires n <= |lines|
    requires forall i | 0 <= i < n :: Eval(lines, i) == Ok(NoRule)
    ensures Scan(lines, n).Ok?
    ensures forall k | 0 <= k < n :: Scan(lines, n).value[k] == NoRule
  {
    if n > 0 {
      ScanNothingFires(lines, n - 1);
    }
  }

  /** The scan raises exactly when some line's evaluation raises. */
  lemma {:induction false} ScanFailsIff(lines: seq<string>, n: nat)
    requires n <= |lines|
    ensures Scan(lines, n).Err? <==> exists i | 0 <= i < n :: Eval(lines, i).Err?
  {
    if Scan(lines, n).Ok? {
      forall i | 0 <= i < n ensures Eval(lines, i).Ok? {
        ScanAt(lines, n, i);
      }
    } else {
      var m := FirstFailure(lines, n);
      assert Eval(lines, m).Err?;
    }
  }

  /** The line whose evaluation made a failed scan raise. */
  lemma {:induction false} FirstFailure(lines: seq<string>, n: nat) returns (m: nat)
    requires n <= |lines| && Scan(lines, n).Err?
    ensures m < n && Eval(lines, m).Err?
  {
    if Scan(lines, n - 1).Err? {
      m := FirstFailure(lines, n - 1);
    } else {
      m := n - 1;
    }
  }

  /** A line holding the dataset statement strips to at least its length,
      since the statement's first and last characters are not whitespace. */
  lemma DatasetLineStripsLong(line: string)
    ensures Contains(line, DATASET_LINE) ==> |Strip(line)| >= |DATASET_LINE|
  {
    if Contains(line, DATASET_LINE) {
      assert |DATASET_LINE| == 47;
      assert DATASET_LINE[0] == 'c';
      assert DATASET_LINE[46] == ';';
      SpreadInStripped(line, DATASET_LINE, 0, 46);
    }
  }

  /** The `if/elif` order: the five exact-text tests exclude one another, and
      a dataset line strips too long for the processing check, the zone check
      or the phases comment, so those branches are reached whenever their
      tests hold; only the two turn checks are stated under "the dataset rule
      did not fire". */
  lemma EvalFirstMatchWins(lines: seq<string>, i: nat)
    requires i < |lines|
    ensures Eval(lines, i) == Ok(ClickLog) <==> ClickAnchor(lines, i)
    ensures Eval(lines, i) == Ok(ProcessingBlocked) <==> ProcessingAnchor(lines, i)
    ensures Eval(lines, i) == Ok(PlayerTurnBlocked) <==> !ClickAnchor(lines, i) && PlayerTurnAnchor(lines, i)
    ensures Eval(lines, i) == Ok(InfoAllowed) <==> InfoAnchor(lines, i)
    ensures Eval(lines, i) == Ok(CpuTurnBlocked) <==> !ClickAnchor(lines, i) && CpuTurnAnchor(lines, i)
    ensures Eval(lines, i) == Ok(PhasesAllowed) <==>
              Strip(lines[i]) == PHASES_COMMENT && i + 1 < |lines| && Contains(lines[i + 1], SWITCH)
  {
    assert PLAYER_TURN_CHECK[53] != CPU_TURN_CHECK[53];
    DatasetLineStripsLong(lines[i]);
  }

  /** `lines[i+1]` raises exactly on a last line whose stripped text is the
      phases comment. */
  lemma EvalFailsIff(lines: seq<string>, i: nat)
    requires i < |lines|
    ensures Eval(lines, i).Err? <==> i == |lines| - 1 && Strip(lines[i]) == PHASES_COMMENT
  {
    DatasetLineStripsLong(lines[i]);
  }

  /** Python's negative index at the first line: the two unguarded context
      tests read the LAST line, and the two guarded ones never fire. */
  lemma FirstLineContext(lines: seq<string>)
    requires |lines| > 0
    ensures ClickAnchor(lines, 0) <==>
              Contains(lines[0], DATASET_LINE) && Contains(lines[|lines| - 1], HANDLER_HEADER)
    ensures InfoAnchor(lines, 0) <==>
              Strip(lines[0]) == INFO_CHECK && Contains(lines[|lines| - 1], INFO_COMMENT)
    ensures !ProcessingAnchor(lines, 0) && !PlayerTurnAnchor(lines, 0)
  {
  }

  /** The scan records the dataset rule on a dataset line under the handler
      header. */
  lemma ScanRecordsClickLog(lines: seq<string>, k: nat)
    requires Scan(lines, |lines|).Ok? && k < |lines| && ClickAnchor(lines, k)
    ensures Scan(lines, |lines|).value[k] == ClickLog
  {
    var n := |lines|;
    ScanAt(lines, n, k);
  }

  /** The scan records the phases rule on a phases comment above a `switch`
      line. */
  lemma ScanRecordsPhases(lines: seq<string>, k: nat)
    requires Scan(lines, |lines|).Ok? && k + 1 < |lines|
    requires Strip(lines[k]) == PHASES_COMMENT && Contains(lines[k + 1], SWITCH)
    ensures Scan(lines, |lines|).value[k] == PhasesAllowed
  {
    var n := |lines|;
    ScanAt(lines, n, k);
    PhasesCommentFires(lines, k);
  }

  /** The phases branch fires on a phases comment above a `switch` line:
      no earlier branch can take that line. */
  lemma PhasesCommentFires(lines: seq<string>, k: nat)
    requires k + 1 < |lines| && Strip(lines[k]) == PHASES_COMMENT && Contains(lines[k + 1], SWITCH)
    ensures Eval(lines, k) == Ok(PhasesAllowed)
  {
    EvalFirstMatchWins(lines, k);
  }

  /** Where a recorded dataset rule puts its lines: right after the anchor,
      which stays in place. */
  lemma ClickLogNeighbourhood(lines: seq<string>, rules: seq<Rule>, k: nat)
    requires |rules| == |lines| && k < |lines| && rules[k] == ClickLog
    ensures var acts := ActionsOf(rules, ActionOf);
            var a := AnchorIndex(acts, k);
            a + 1 + |CLICK_LOG| <= |Expand(lines, acts)| &&
            Expand(lines, acts)[a] == lines[k] &&
            Expand(lines, acts)[a + 1..a + 1 + |CLICK_LOG|] == CLICK_LOG
  {
    AnchorNeighbourhood(lines, ActionsOf(rules, ActionOf), k);
  }

  /** Where a recorded phases rule puts its lines: right before the anchor,
      which stays in place. */
  lemma PhasesNeighbourhood(lines: seq<string>, rules: seq<Rule>, k: nat)
    requires |rules| == |lines| && k < |lines| && rules[k] == PhasesAllowed
    ensures var acts := ActionsOf(rules, ActionOf);
            var a := AnchorIndex(acts, k);
            2 <= a < |Expand(lines, acts)| &&
            Expand(lines, acts)[a] == lines[k] &&
            Expand(lines, acts)[a - 2..a] == ["", ALLOWED_LOG]
  {
    var acts := ActionsOf(rules, ActionOf);
    assert acts[k] == ActionOf(PhasesAllowed);
    AnchorNeighbourhood(lines, acts, k);
  }

  /** A fired dataset rule puts the eleven log lines right after the dataset
      line, which itself stays in place. */
  lemma ClickLogFollowsDatasetLine(lines: seq<string>, k: nat)
    requires Scan(lines, |lines|).Ok? && k < |lines| && ClickAnchor(lines, k)
    ensures var acts := ActionsOf(Scan(lines, |lines|).value, ActionOf);
            var a := AnchorIndex(acts, k);
            a + 1 + |CLICK_LOG| <= |Expand(lines, acts)| &&
            Expand(lines, acts)[a] == lines[k] &&
            Expand(lines, acts)[a + 1..a + 1 + |CLICK_LOG|] == CLICK_LOG
  {
    ScanRecordsClickLog(lines, k);
    ClickLogNeighbourhood(lines, Scan(lines, |lines|).value, k);
  }

  /** A phases comment followed by a `switch` line gets an empty line and the
      ALLOWED log right above it; the comment itself stays in place. */
  lemma AllowedLogPrecedesPhasesComment(lines: seq<string>, k: nat)
    requires Scan(lines, |lines|).Ok? && k + 1 < |lines|
    requires Strip(lines[k]) == PHASES_COMMENT && Contains(lines[k + 1], SWITCH)
    ensures var acts := ActionsOf(Scan(lines, |lines|).value, ActionOf);
            var a := AnchorIndex(acts, k);
            2 <= a < |Expand(lines, acts)| &&
            Expand(lines, acts)[a] == lines[k] &&
            Expand(lines, acts)[a - 2..a] == ["", ALLOWED_LOG]
  {
    ScanRecordsPhases(lines, k);
    PhasesNeighbourhood(lines, Scan(lines, |lines|).value, k);
  }

  // ---------------------------------------------------------------------------
  // Properties of the whole function

  /** The second test of the guard is implied by the first. */
  lemma CommentedMarkerHoldsMarker()
    ensures Contains(COMMENTED_CLICK_MARKER, CLICK_MARKER)
  {
    assert COMMENTED_CLICK_MARKER[3..] == CLICK_MARKER;
    ContainsWitness(COMMENTED_CLICK_MARKER, CLICK_MARKER, 3);
  }

  /** The guard: the function returns without writing exactly when the content
      holds the click marker. */
  lemma SkipsExactlyWhenMarked(content: string)
    ensures Instrument(content) == Skipped <==> Contains(content, CLICK_MARKER)
  {
    if Contains(content, COMMENTED_CLICK_MARKER) {
      CommentedMarkerHoldsMarker();
      ContainsTransitive(content, COMMENTED_CLICK_MARKER, CLICK_MARKER);
    }
  }

  /** The scan of a whole file raises exactly when its last line, stripped,
      is the phases comment. */
  lemma ScanFailsOnTrailingPhasesComment(lines: seq<string>)
    requires |lines| > 0
    ensures Scan(lines, |lines|).Err? <==> Strip(lines[|lines| - 1]) == PHASES_COMMENT
  {
    if Scan(lines, |lines|).Err? {
      FailedScanEndsInPhasesComment(lines);
    } else {
      ScanSucceedsOnlyWithoutTrailingPhasesComment(lines);
    }
  }

  /** A failed scan of a whole file ends in the phases comment. */
  lemma FailedScanEndsInPhasesComment(lines: seq<string>)
    requires |lines| > 0 && Scan(lines, |lines|).Err?
    ensures Strip(lines[|lines| - 1]) == PHASES_COMMENT
  {
    var m := FirstFailure(lines, |lines|);
    EvalFailsIff(lines, m);
  }

  /** A successful scan of a whole file does not end in the phases comment. */
  lemma ScanSucceedsOnlyWithoutTrailingPhasesComment(lines: seq<string>)
    requires |lines| > 0 && Scan(lines, |lines|).Ok?
    ensures Strip(lines[|lines| - 1]) != PHASES_COMMENT
  {
    var n := |lines|;
    ScanAt(lines, n, n - 1);
    LastLineEvaluatedWithoutPhasesComment(lines, n - 1);
  }

  /** A last line that evaluates without error is not the phases comment. */
  lemma LastLineEvaluatedWithoutPhasesComment(lines: seq<string>, i: nat)
    requires i == |lines| - 1 && Eval(lines, i).Ok?
    ensures Strip(lines[i]) != PHASES_COMMENT
  {
    EvalFailsIff(lines, i);
  }

  /** The function raises `IndexError` exactly when it gets past the guard and
      the last line of the file, stripped, is the phases comment. */
  lemma CrashesExactlyOnTrailingPhasesComment(content: string)
    ensures Instrument(content).Crashed? <==>
              !Contains(content, CLICK_MARKER) && Strip(Split(content)[|Split(content)| - 1]) == PHASES_COMMENT
  {
    SkipsExactlyWhenMarked(content);
    ScanFailsOnTrailingPhasesComment(Split(content));
  }

  /** When the file is written, its new lines are the old ones, in the same
      order, with the inserted log lines between them: as many lines as
      before plus the inserted ones. */
  lemma WrittenKeepsLinesInOrder(content: string)
    requires Instrument(content).Written?
    ensures var lines := Split(content);
            Scan(lines, |lines|).Ok? &&
            var acts := ActionsOf(Scan(lines, |lines|).value, ActionOf);
            Instrument(content).content == Join(Expand(lines, acts)) &&
            |Expand(lines, acts)| == |lines| + Inserted(acts) &&
            EmbedsVia(lines, Expand(lines, acts), Anchors(acts))
  {
    var lines := Split(content);
    ExpandKeepsLinesInOrder(lines, ActionsOf(Scan(lines, |lines|).value, ActionOf));
  }

  /** When no branch fires on any line, the file is written back unchanged. */
  lemma UnchangedWhenNothingFires(content: string)
    requires !Contains(content, CLICK_MARKER)
    requires forall i | 0 <= i < |Split(content)| :: Eval(Split(content), i) == Ok(NoRule)
    ensures Instrument(content) == Written(content)
  {
    SkipsExactlyWhenMarked(content);
    var lines := Split(content);
    ScanNothingFires(lines, |lines|);
    ActionsOfAt(Scan(lines, |lines|).value, ActionOf);
    ExpandAllKeep(lines, ActionsOf(Scan(lines, |lines|).value, ActionOf));
  }

  /** The second log line is the commented marker, indented. */
  lemma ClickLogHoldsMarker()
    ensures Contains(CLICK_LOG[1], CLICK_MARKER)
  {
    assert CLICK_LOG[1][8..] == COMMENTED_CLICK_MARKER;
    ContainsWitness(CLICK_LOG[1], COMMENTED_CLICK_MARKER, 8);
    CommentedMarkerHoldsMarker();
    ContainsTransitive(CLICK_LOG[1], COMMENTED_CLICK_MARKER, CLICK_MARKER);
  }

  /** Lines expanded with a recorded dataset rule hold the click marker. */
  lemma ClickLogRuleMarksOutput(lines: seq<string>, rules: seq<Rule>, k: nat)
    requires |rules| == |lines| && k < |lines| && rules[k] == ClickLog
    ensures Contains(Join(Expand(lines, ActionsOf(rules, ActionOf))), CLICK_MARKER)
  {
    ClickLogHoldsMarker();
    assert Contains(ActionsOf(rules, ActionOf)[k].after[1], CLICK_MARKER);
    AfterLineInJoin(lines, ActionsOf(rules, ActionOf), k, 1, CLICK_MARKER);
  }

  /** A fired dataset rule puts the click marker into the joined lines. */
  lemma ClickLogMarksOutput(lines: seq<string>, k: nat)
    requires Scan(lines, |lines|).Ok? && k < |lines| && ClickAnchor(lines, k)
    ensures Contains(Join(Expand(lines, ActionsOf(Scan(lines, |lines|).value, ActionOf))), CLICK_MARKER)
  {
    var rules := Scan(lines, |lines|).value;
    ScanRecordsClickLog(lines, k);
    assert rules[k] == ClickLog;
    ClickLogRuleMarksOutput(lines, rules, k);
  }

  /** The dataset rule writes the click marker into the file, so running the
      function again on its output is skipped by the guard. */
  lemma RerunAfterClickLogIsSkipped(content: string, k: nat)
    requires Instrument(content).Written?
    requires k < |Split(content)| && ClickAnchor(Split(content), k)
    ensures Instrument(Instrument(content).content) == Skipped
  {
    WrittenKeepsLinesInOrder(content);
    ClickLogMarksOutput(Split(content), k);
    SkipsExactlyWhenMarked(Instrument(content).content);
  }
}
