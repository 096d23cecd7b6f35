/** `add_logs_to_interaction_js` (add_debug_final.py): adds debug logging to
    the mouse-down handler of three/interaction.js. It gives up at once when
    the file already holds the mouse-down marker; otherwise it walks the lines
    with a two-branch `if/elif` chain, appends fixed log lines after the line
    that fired, and joins the lines back with line breaks. Unlike the game.js
    pass it cannot raise: it never looks past the last line. */
module InteractionLogs {

  import opened PyText
  import opened LineScan
  import opened PatchOutcome

  // ---------------------------------------------------------------------------
  // The literals of the script

  /** The "already applied" marker. */
  const MOUSE_DOWN_MARKER: string := "THREE.JS MOUSE DOWN:"

  const FIND_PARENT: string := "const object = this._findInteractiveParent(firstHit.object);"
  const DRAG_CHECK: string := "if (this.gameState && this.gameState.turnPlayer !== 'player') {"
  const DRAG_COMMENT: string := "CPUターン中はドラッグ不可"

  /** The seven lines appended after the interactive-parent line; the second
      one carries the marker. */
  const MOUSE_DOWN_LOG: seq<string> := [
    "",
    "            console.log('" + MOUSE_DOWN_MARKER + "', {",
    "                objectType: object?.userData?.type,",
    "                owner: object?.userData?.owner,",
    "                isDraggable: object?.userData?.isDraggable,",
    "                currentPlayer: this.gameState?.turnPlayer",
    "            });"
  ]
  const DRAG_LOG: string :=
    "                    console.log('DRAG BLOCKED: Wrong turn', { owner: object.userData.owner, currentPlayer: this.gameState.turnPlayer });"

  // ---------------------------------------------------------------------------
  // The rules

  /** Which branch of the `if/elif` chain fired on a line. */
  datatype Rule = NoRule | MouseDownLog | DragBlocked

  /** The lines a branch appends after its anchor line. */
  function ActionOf(r: Rule): Action {
    match r
    case NoRule => Keep
    case MouseDownLog => Action([], MOUSE_DOWN_LOG)
    case DragBlocked => Action([], [DRAG_LOG])
  }

  /** First branch: the line that finds the interactive parent. */
  predicate MouseDownAnchor(lines: seq<string>, i: nat)
    requires i < |lines|
  {
    Contains(lines[i], FIND_PARENT)
  }

  /** Second branch: the turn check under its comment. With no `i > 0` guard,
      `lines[i-1]` at the first line is the last line. */
  predicate DragAnchor(lines: seq<string>, i: nat)
    requires i < |lines|
  {
    Contains(lines[i], DRAG_CHECK) && Contains(PyIndex(lines, i - 1), DRAG_COMMENT)
  }

  /** The `if/elif` chain on line `i`; the first branch whose test holds wins. */
  function Eval(lines: seq<string>, i: nat): Rule
    requires i < |lines|
  {
    if MouseDownAnchor(lines, i) then MouseDownLog
    else if DragAnchor(lines, i) then DragBlocked
    else NoRule
  }

  /** The rules that fired on the first `n` lines, in order. */
  function Scan(lines: seq<string>, n: nat): (rules: seq<Rule>)
    requires n <= |lines|
    ensures |rules| == n
  {
    if n == 0 then [] else Scan(lines, n - 1) + [Eval(lines, n - 1)]
  }

  /** The whole function, from the content read to what happens to the file. */
  function Instrument(content: string): Outcome {
    if Contains(content, MOUSE_DOWN_MARKER) then Skipped
    else
      var lines := Split(content);
      Written(Render(lines, Scan(lines, |lines|)))
  }

  /** The text written back: the lines with the logs of the rules that fired,
      joined with line breaks. */
  function Render(lines: seq<string>, rules: seq<Rule>): string
    requires |rules| == |lines|
  {
    Join(Expand(lines, ActionsOf(rules, ActionOf)))
  }

  // ---------------------------------------------------------------------------
  // The scan loop

  /** The body of the branch that fired, applied to `new_lines` right after
      the anchor line was appended: its log lines go after the anchor. */
  method EmitLogs(newLines: seq<string>, rule: Rule) returns (result: seq<string>)
    requires |newLines| > 0
    ensures result == newLines[..|newLines| - 1] + Chunk(newLines[|newLines| - 1], ActionOf(rule))
  {
    assert newLines == newLines[..|newLines| - 1] + [newLines[|newLines| - 1]];
    result := newLines;
    match rule {
      case NoRule =>
      case MouseDownLog => result := result + MOUSE_DOWN_LOG;
      case DragBlocked => result := result + [DRAG_LOG];
    }
  }

  /** The `while i < len(lines)` loop of the script, building `new_lines`:
      each line is appended, then the branch that fired appends its log
      lines. */
  method BuildNewLines(lines: seq<string>) returns (newLines: seq<string>)
    ensures newLines == Expand(lines, ActionsOf(Scan(lines, |lines|), ActionOf))
  {
    newLines := [];
    ghost var rules: seq<Rule> := [];
    var i := 0;
    while i < |lines|
      invariant i <= |lines|
      invariant rules == Scan(lines, i)
      invariant newLines == Expand(lines[..i], ActionsOf(rules, ActionOf))
    {
      ghost var done := newLines;
      var line := lines[i];
      newLines := newLines + [line];
      var fired := Eval(lines, i);
      newLines := EmitLogs(newLines, fired);
      assert newLines == done + Chunk(line, ActionOf(fired));
      ExpandStep(lines, ActionsOf(rules, ActionOf), i, ActionOf(fired));
      ActionsOfStep(rules, ActionOf, fired);
      rules := rules + [fired];
      i := i + 1;
    }
    assert lines[..i] == lines;
  }

  /** The script's function: the guard, the split, the loop and the join. */
  method AddLogsToInteractionJs(content: string) returns (outcome: Outcome)
    ensures outcome == Instrument(content)
  {
    if Contains(content, MOUSE_DOWN_MARKER) {
      return Skipped;
    }
    var lines := Split(content);
    var newLines := BuildNewLines(lines);
    return Written(Join(newLines));
  }

  // ---------------------------------------------------------------------------
  // Properties

  /** The guard: the function returns without writing exactly when the
      content holds the marker; past it, the file is always written. */
  lemma SkipsExactlyWhenMarked(content: string)
    ensures Instrument(content) == Skipped <==> Contains(content, MOUSE_DOWN_MARKER)
    ensures !Contains(content, MOUSE_DOWN_MARKER) ==> Instrument(content).Written?
  {
  }

  /** The scan records, for every line, the branch that fired on it. */
  lemma {:induction false} ScanAt(lines: seq<string>, n: nat, k: nat)
    requires k < n <= |lines|
    ensures Scan(lines, n)[k] == Eval(lines, k)
  {
    if k < n - 1 {
      ScanAt(lines, n - 1, k);
    }
  }

  /** When no branch fires on any line, every rule recorded is `NoRule`. */
  lemma {:induction false} ScanNothingFires(lines: seq<string>, n: nat)
    requires n <= |lines|
    requires forall i | 0 <= i < n :: Eval(lines, i) == NoRule
    ensures forall k | 0 <= k < n :: Scan(lines, n)[k] == NoRule
  {
    if n > 0 {
      ScanNothingFires(lines, n - 1);
    }
  }

  /** Python's negative index at the first line: the drag test looks for its
      comment in the LAST line. */
  lemma FirstLineContext(lines: seq<string>)
    requires |lines| > 0
    ensures DragAnchor(lines, 0) <==>
              Contains(lines[0], DRAG_CHECK) && Contains(lines[|lines| - 1], DRAG_COMMENT)
  {
  }

  /** Where the mouse-down rule fired, its anchor line is followed by the
      seven log lines. */
  lemma MouseDownNeighbourhood(lines: seq<string>, rules: seq<Rule>, k: nat)
    requires |rules| == |lines| && k < |lines| && rules[k] == MouseDownLog
    ensures var acts := ActionsOf(rules, ActionOf);
            var a := AnchorIndex(acts, k);
            a + 1 + |MOUSE_DOWN_LOG| <= |Expand(lines, acts)| &&
            Expand(lines, acts)[a] == lines[k] &&
            Expand(lines, acts)[a + 1..a + 1 + |MOUSE_DOWN_LOG|] == MOUSE_DOWN_LOG
  {
    AnchorNeighbourhood(lines, ActionsOf(rules, ActionOf), k);
  }

  /** Where the drag rule fired, its anchor line is followed by the drag log. */
  lemma DragNeighbourhood(lines: seq<string>, rules: seq<Rule>, k: nat)
    requires |rules| == |lines| && k < |lines| && rules[k] == DragBlocked
    ensures var acts := ActionsOf(rules, ActionOf);
            var a := AnchorIndex(acts, k);
            a + 1 < |Expand(lines, acts)| &&
            Expand(lines, acts)[a] == lines[k] &&
            Expand(lines, acts)[a + 1] == DRAG_LOG
  {
    var acts := ActionsOf(rules, ActionOf);
    assert acts[k] == Action([], [DRAG_LOG]);
    AnchorNeighbourhood(lines, acts, k);
    AfterLineAt(lines, acts, k, 0);
  }

  /** A line that finds the interactive parent is followed by the seven log
      lines, whether or not the drag test would also hold there. */
  lemma MouseDownLogFollowsParentLine(lines: seq<string>, k: nat)
    requires k < |lines| && MouseDownAnchor(lines, k)
    ensures var acts := ActionsOf(Scan(lines, |lines|), ActionOf);
            var a := AnchorIndex(acts, k);
            a + 1 + |MOUSE_DOWN_LOG| <= |Expand(lines, acts)| &&
            Expand(lines, acts)[a] == lines[k] &&
            Expand(lines, acts)[a + 1..a + 1 + |MOUSE_DOWN_LOG|] == MOUSE_DOWN_LOG
  {
    var n := |lines|;
    var rules := Scan(lines, n);
    ScanAt(lines, n, k);
    assert rules[k] == MouseDownLog;
    MouseDownNeighbourhood(lines, rules, k);
  }

  /** A turn check under its comment, on a line that does not find the
      interactive parent, is followed by the DRAG BLOCKED log. */
  lemma DragLogFollowsTurnCheck(lines: seq<string>, k: nat)
    requires k < |lines| && !MouseDownAnchor(lines, k) && DragAnchor(lines, k)
    ensures var acts := ActionsOf(Scan(lines, |lines|), ActionOf);
            var a := AnchorIndex(acts, k);
            a + 1 < |Expand(lines, acts)| &&
            Expand(lines, acts)[a] == lines[k] &&
            Expand(lines, acts)[a + 1] == DRAG_LOG
  {
    var n := |lines|;
    var rules := Scan(lines, n);
    ScanAt(lines, n, k);
    assert rules[k] == DragBlocked;
    DragNeighbourhood(lines, rules, k);
  }

  /** Past the guard the file is always written: its new lines are the old
      ones, in the same order, with the inserted log lines between them. */
  lemma WrittenKeepsLinesInOrder(content: string)
    requires !Contains(content, MOUSE_DOWN_MARKER)
    ensures Instrument(content).Written?
    ensures var lines := Split(content);
            var acts := ActionsOf(Scan(lines, |lines|), ActionOf);
            Instrument(content).content == Join(Expand(lines, acts)) &&
            |Expand(lines, acts)| == |lines| + Inserted(acts) &&
            EmbedsVia(lines, Expand(lines, acts), Anchors(acts))
  {
    var lines := Split(content);
    ExpandKeepsLinesInOrder(lines, ActionsOf(Scan(lines, |lines|), ActionOf));
  }

  /** When no branch fires on any line, the file is written back unchanged. */
  lemma UnchangedWhenNothingFires(content: string)
    requires !Contains(content, MOUSE_DOWN_MARKER)
    requires forall i | 0 <= i < |Split(content)| :: Eval(Split(content), i) == NoRule
    ensures Instrument(content) == Written(content)
  {
    var lines := Split(content);
    ScanNothingFires(lines, |lines|);
    ActionsOfAt(Scan(lines, |lines|), ActionOf);
    ExpandAllKeep(lines, ActionsOf(Scan(lines, |lines|), ActionOf));
  }

  /** The second mouse-down log line carries the marker. */
  lemma MouseDownLogHoldsMarker()
    ensures Contains(MOUSE_DOWN_LOG[1], MOUSE_DOWN_MARKER)
  {
    var prefix := "            console.log('";
    assert MOUSE_DOWN_LOG[1][|prefix|..|prefix| + |MOUSE_DOWN_MARKER|] == MOUSE_DOWN_MARKER;
    ContainsWitness(MOUSE_DOWN_LOG[1], MOUSE_DOWN_MARKER, |prefix|);
  }

  /** Wherever the mouse-down rule fired, the joined output holds the marker. */
  lemma MouseDownRuleMarksOutput(lines: seq<string>, rules: seq<Rule>, k: nat)
    requires |rules| == |lines| && k < |lines| && rules[k] == MouseDownLog
    ensures Contains(Join(Expand(lines, ActionsOf(rules, ActionOf))), MOUSE_DOWN_MARKER)
  {
    MouseDownLogHoldsMarker();
    assert Contains(ActionsOf(rules, ActionOf)[k].after[1], MOUSE_DOWN_MARKER);
    AfterLineInJoin(lines, ActionsOf(rules, ActionOf), k, 1, MOUSE_DOWN_MARKER);
  }

  /** The mouse-down rule writes the marker into the file, so running the
      function again on its output is skipped by the guard. */
  lemma RerunAfterMouseDownLogIsSkipped(content: string, k: nat)
    requires !Contains(content, MOUSE_DOWN_MARKER)
    requires k < |Split(content)| && MouseDownAnchor(Split(content), k)
    ensures Instrument(content).Written?
    ensures Instrument(Instrument(content).content) == Skipped
  {
    var lines := Split(content);
    var n := |lines|;
    var rules := Scan(lines, n);
    ScanAt(lines, n, k);
    assert rules[k] == MouseDownLog;
    MouseDownRuleMarksOutput(lines, rules, k);
  }
}
