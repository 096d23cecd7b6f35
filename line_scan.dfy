/** The shape shared by the line-scanning passes: each input line is copied to
    the output, with zero or more fixed lines put just before it
    (`new_lines.insert(-1, ...)` after the line was appended) and zero or more
    put just after it (`new_lines.append(...)`). An `Action` records what one
    line received; `Expand` is the output list the scan builds. */
module LineScan {

  import opened PyText

  /** The lines inserted around one input line. */
  datatype Action = Action(before: seq<string>, after: seq<string>)

  /** No rule fired on the line. */
  const Keep: Action := Action([], [])

  /** What one line becomes in the output. */
  function Chunk(line: string, a: Action): seq<string> {
    a.before + [line] + a.after
  }

  /** The number of lines the actions insert in all. */
  function Inserted(acts: seq<Action>): nat {
    if |acts| == 0 then 0
    else Inserted(acts[..|acts| - 1]) + |acts[|acts| - 1].before| + |acts[|acts| - 1].after|
  }

  /** The actions of the rules that fired on the lines, one per line, each
      given by the pass's own map `f` from a rule to its action. */
  function ActionsOf<R>(rules: seq<R>, f: R -> Action): (acts: seq<Action>)
    ensures |acts| == |rules|
  {
    seq(|rules|, k requires 0 <= k < |rules| => f(rules[k]))
  }

  /** Line `k` gets the action of its own rule. */
  lemma ActionsOfAt<R>(rules: seq<R>, f: R -> Action)
    ensures forall k | 0 <= k < |rules| :: ActionsOf(rules, f)[k] == f(rules[k])
  {
  }

  /** One more rule, one more action. */
  lemma ActionsOfStep<R>(rules: seq<R>, f: R -> Action, rule: R)
    ensures ActionsOf(rules + [rule], f) == ActionsOf(rules, f) + [f(rule)]
  {
    assert forall k | 0 <= k < |rules| :: (rules + [rule])[k] == rules[k];
  }

  /** The output of the scan: the chunks of the lines, in the order of the lines.
      It has as many lines as the input plus the inserted ones. */
  function Expand(lines: seq<string>, acts: seq<Action>): (out: seq<string>)
    requires |acts| == |lines|
    ensures |out| == |lines| + Inserted(acts)
  {
    if |lines| == 0 then []
    else Expand(lines[..|lines| - 1], acts[..|acts| - 1]) + Chunk(lines[|lines| - 1], acts[|acts| - 1])
  }

  /** One more line of the scan appends its chunk. */
  lemma ExpandStep(lines: seq<string>, acts: seq<Action>, i: nat, a: Action)
    requires i < |lines| && |acts| == i
    ensures Expand(lines[..i + 1], acts + [a]) == Expand(lines[..i], acts) + Chunk(lines[i], a)
  {
    assert lines[..i + 1][..i] == lines[..i];
    assert (acts + [a])[..i] == acts;
  }

  /** Where the chunk of line `k` starts in the output. */
  function ChunkStart(acts: seq<Action>, k: nat): nat
    requires k <= |acts|
  {
    k + Inserted(acts[..k])
  }

  /** Where line `k` itself lands in the output. */
  function AnchorIndex(acts: seq<Action>, k: nat): nat
    requires k < |acts|
  {
    ChunkStart(acts, k) + |acts[k].before|
  }

  /** The landing places of all input lines. */
  function Anchors(acts: seq<Action>): seq<nat> {
    seq(|acts|, k requires 0 <= k < |acts| => AnchorIndex(acts, k))
  }

  /** `pos` embeds `xs` in `ys` in order: `ys[pos[k]] == xs[k]` for every `k`,
      and the positions strictly increase. */
  ghost predicate EmbedsVia(xs: seq<string>, ys: seq<string>, pos: seq<nat>) {
    |pos| == |xs| &&
    (forall k | 0 <= k < |pos| :: pos[k] < |ys| && ys[pos[k]] == xs[k]) &&
    (forall j, k | 0 <= j < k < |pos| :: pos[j] < pos[k])
  }

  /** Appending one action adds its lines to the count. */
  lemma InsertedStep(acts: seq<Action>, k: nat)
    requires k < |acts|
    ensures Inserted(acts[..k + 1]) == Inserted(acts[..k]) + |acts[k].before| + |acts[k].after|
  {
    assert acts[..k + 1][..k] == acts[..k];
  }

  /** More actions never insert fewer lines. */
  lemma {:induction false} InsertedMonotone(acts: seq<Action>, j: nat, k: nat)
    requires j <= k <= |acts|
    ensures Inserted(acts[..j]) <= Inserted(acts[..k])
    decreases k - j
  {
    if j < k {
      InsertedStep(acts, j);
      InsertedMonotone(acts, j + 1, k);
    }
  }

  /** The output holds the chunk of line `k`, unbroken, at `ChunkStart(acts, k)`. */
  lemma {:induction false} ChunkAt(lines: seq<string>, acts: seq<Action>, k: nat)
    requires |acts| == |lines| && k < |lines|
    ensures ChunkStart(acts, k) + |Chunk(lines[k], acts[k])| <= |Expand(lines, acts)|
    ensures Expand(lines, acts)[ChunkStart(acts, k)..ChunkStart(acts, k) + |Chunk(lines[k], acts[k])|]
         == Chunk(lines[k], acts[k])
    decreases |lines|
  {
    var n := |lines| - 1;
    var front, fa := lines[..n], acts[..n];
    var e := Expand(front, fa);
    var c := Chunk(lines[n], acts[n]);
    assert Expand(lines, acts) == e + c;
    if k == n {
      assert acts[..k] == fa;
      assert (e + c)[|e|..|e| + |c|] == c;
    } else {
      ChunkAt(front, fa, k);
      assert fa[..k] == acts[..k];
      var s := ChunkStart(acts, k);
      var m := |Chunk(lines[k], acts[k])|;
      assert (e + c)[s..s + m] == e[s..s + m];
    }
  }

  /** Each input line sits at its anchor index, with exactly its `before`
      lines right above it and its `after` lines right below it. */
  lemma AnchorNeighbourhood(lines: seq<string>, acts: seq<Action>, k: nat)
    requires |acts| == |lines| && k < |lines|
    ensures AnchorIndex(acts, k) + 1 + |acts[k].after| <= |Expand(lines, acts)|
    ensures Expand(lines, acts)[AnchorIndex(acts, k)] == lines[k]
    ensures Expand(lines, acts)[ChunkStart(acts, k)..AnchorIndex(acts, k)] == acts[k].before
    ensures Expand(lines, acts)[AnchorIndex(acts, k) + 1..AnchorIndex(acts, k) + 1 + |acts[k].after|]
         == acts[k].after
  {
    ChunkAt(lines, acts, k);
    var out, s := Expand(lines, acts), ChunkStart(acts, k);
    var c := Chunk(lines[k], acts[k]);
    var b, a := |acts[k].before|, |acts[k].after|;
    assert |c| == b + 1 + a && AnchorIndex(acts, k) == s + b;
    ChunkParts(lines[k], acts[k]);
    var w := out[s..s + |c|];
    assert w == c;
    SliceOfSlice(out, s, s + |c|, 0, b);
    SliceOfSlice(out, s, s + |c|, b + 1, b + 1 + a);
    assert out[s + b] == w[b];
  }

  /** The parts of a chunk: the before-lines, the line, the after-lines. */
  lemma ChunkParts(line: string, a: Action)
    ensures Chunk(line, a)[..|a.before|] == a.before
    ensures Chunk(line, a)[|a.before|] == line
    ensures Chunk(line, a)[|a.before| + 1..] == a.after
  {
  }

  /** The `j`-th line put after input line `k` sits `j + 1` below it. */
  lemma AfterLineAt(lines: seq<string>, acts: seq<Action>, k: nat, j: nat)
    requires |acts| == |lines| && k < |lines| && j < |acts[k].after|
    ensures AnchorIndex(acts, k) + 1 + j < |Expand(lines, acts)|
    ensures Expand(lines, acts)[AnchorIndex(acts, k) + 1 + j] == acts[k].after[j]
  {
    AnchorNeighbourhood(lines, acts, k);
    var out, a := Expand(lines, acts), AnchorIndex(acts, k);
    assert out[a + 1..a + 1 + |acts[k].after|][j] == out[a + 1 + j];
  }

  /** A piece of text in one of the lines put after an input line occurs in
      the joined output. */
  lemma AfterLineInJoin(lines: seq<string>, acts: seq<Action>, k: nat, j: nat, t: string)
    requires |acts| == |lines| && k < |lines| && j < |acts[k].after|
    requires Contains(acts[k].after[j], t)
    ensures Contains(Join(Expand(lines, acts)), t)
  {
    AfterLineAt(lines, acts, k, j);
    var out := Expand(lines, acts);
    JoinContainsLine(out, AnchorIndex(acts, k) + 1 + j);
    ContainsTransitive(Join(out), acts[k].after[j], t);
  }

  /** A slice of a slice is the corresponding slice of the whole. */
  lemma SliceOfSlice(xs: seq<string>, s: nat, e: nat, i: nat, j: nat)
    requires s <= e <= |xs| && i <= j <= e - s
    ensures xs[s..e][i..j] == xs[s + i..s + j]
  {
    assert forall n | 0 <= n < j - i :: xs[s..e][i..j][n] == xs[s + i + n];
  }

  /** Anchor indices strictly increase with the line number. */
  lemma AnchorsIncrease(acts: seq<Action>, j: nat, k: nat)
    requires j < k < |acts|
    ensures AnchorIndex(acts, j) < AnchorIndex(acts, k)
  {
    InsertedStep(acts, j);
    InsertedMonotone(acts, j + 1, k);
  }

  /** The input lines appear in the output in their original order: the output
      is the input with lines inserted, never reordered or dropped. */
  lemma ExpandKeepsLinesInOrder(lines: seq<string>, acts: seq<Action>)
    requires |acts| == |lines|
    ensures EmbedsVia(lines, Expand(lines, acts), Anchors(acts))
  {
    var out, pos := Expand(lines, acts), Anchors(acts);
    forall k | 0 <= k < |pos| ensures pos[k] < |out| && out[pos[k]] == lines[k] {
      AnchorNeighbourhood(lines, acts, k);
    }
    forall j, k | 0 <= j < k < |pos| ensures pos[j] < pos[k] {
      AnchorsIncrease(acts, j, k);
    }
  }

  /** When no rule fires anywhere, the output is the input. */
  lemma {:induction false} ExpandAllKeep(lines: seq<string>, acts: seq<Action>)
    requires |acts| == |lines|
    requires forall k | 0 <= k < |acts| :: acts[k] == Keep
    ensures Expand(lines, acts) == lines
  {
    if |lines| > 0 {
      var n := |lines| - 1;
      ExpandAllKeep(lines[..n], acts[..n]);
      assert lines == lines[..n] + [lines[n]];
    }
  }
}
