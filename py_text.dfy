/** The Python 3 string and list builtins that the instrumentation scripts rely on,
    over `string` (a sequence of Unicode scalar values, like Python's `str`):
    substring membership `t in s`, `s.strip()`, `s.split('\n')`, `'\n'.join(ls)`,
    list subscription with negative indices, and `list.insert`. */
module PyText {

  /** The only exception the modelled code can raise: `lines[k]` out of range. */
  datatype PyError = IndexError

  datatype Result<T> = Ok(value: T) | Err(error: PyError)

  // ---------------------------------------------------------------------------
  // `t in s`

  /** Python's `t in s` on strings: `t` occurs as a contiguous piece of `s`
      (the empty string occurs in every string). */
  predicate Contains(s: string, t: string) {
    exists k | 0 <= k <= |s| - |t| :: OccursAt(s, t, k)
  }

  /** `t` occurs in `s` at offset `k`. */
  predicate OccursAt(s: string, t: string, k: int) {
    0 <= k <= |s| - |t| && s[k..k + |t|] == t
  }

  /** An occurrence at some offset makes `t in s` true. */
  lemma ContainsWitness(s: string, t: string, k: int)
    requires OccursAt(s, t, k)
    ensures Contains(s, t)
  {
  }

  /** What occurs in `b` occurs in anything that has `b` inside it. */
  lemma ContainsInfix(a: string, b: string, c: string, t: string)
    requires Contains(b, t)
    ensures Contains(a + b + c, t)
  {
    var k :| 0 <= k <= |b| - |t| && OccursAt(b, t, k);
    var s := a + b + c;
    assert s[|a| + k..|a| + k + |t|] == b[k..k + |t|];
    ContainsWitness(s, t, |a| + k);
  }

  /** Substring occurrence is transitive. */
  lemma ContainsTransitive(s: string, u: string, t: string)
    requires Contains(s, u) && Contains(u, t)
    ensures Contains(s, t)
  {
    var j :| 0 <= j <= |s| - |u| && OccursAt(s, u, j);
    var k :| 0 <= k <= |u| - |t| && OccursAt(u, t, k);
    assert forall n | 0 <= n < |t| :: s[j + k + n] == s[j..j + |u|][k + n] == t[n];
    assert s[j + k..j + k + |t|] == t;
    ContainsWitness(s, t, j + k);
  }

  // ---------------------------------------------------------------------------
  // `s.strip()`

  /** Python's `str.isspace()` for one character: the ASCII controls TAB..CR and
      FS..US, SPACE, NEL, NO-BREAK SPACE and the Unicode space separators. */
  predicate IsSpace(c: char) {
    ('\U{9}' <= c <= '\U{D}') || ('\U{1C}' <= c <= '\U{20}') ||
    c == '\U{85}' || c == '\U{A0}' || c == '\U{1680}' ||
    ('\U{2000}' <= c <= '\U{200A}') || c == '\U{2028}' || c == '\U{2029}' ||
    c == '\U{202F}' || c == '\U{205F}' || c == '\U{3000}'
  }

  /** The number of whitespace characters at the start of `s`. */
  function LeadingSpace(s: string): (n: nat)
    ensures n <= |s|
    ensures forall k | 0 <= k < n :: IsSpace(s[k])
    ensures n == |s| || !IsSpace(s[n])
  {
    if |s| > 0 && IsSpace(s[0]) then 1 + LeadingSpace(s[1..]) else 0
  }

  /** The number of whitespace characters at the end of `s`. */
  function TrailingSpace(s: string): (n: nat)
    ensures n <= |s|
    ensures forall k | |s| - n <= k < |s| :: IsSpace(s[k])
    ensures n == |s| || !IsSpace(s[|s| - 1 - n])
  {
    if |s| > 0 && IsSpace(s[|s| - 1]) then 1 + TrailingSpace(s[..|s| - 1]) else 0
  }

  /** Python's `s.strip()`: `s` without its leading and trailing whitespace. */
  function Strip(s: string): string {
    var t := s[LeadingSpace(s)..];
    t[..|t| - TrailingSpace(t)]
  }

  /** The stripped text is the slice of `s` that starts at the first
      non-space character and ends at the last one; every non-space character
      of `s` lies inside it. */
  lemma StripIsTrimmedSlice(s: string)
    ensures LeadingSpace(s) + |Strip(s)| <= |s|
    ensures Strip(s) == s[LeadingSpace(s)..LeadingSpace(s) + |Strip(s)|]
    ensures Strip(s) == [] || (!IsSpace(Strip(s)[0]) && !IsSpace(Strip(s)[|Strip(s)| - 1]))
    ensures forall k | 0 <= k < |s| && !IsSpace(s[k]) :: LeadingSpace(s) <= k < LeadingSpace(s) + |Strip(s)|
  {
    var l := LeadingSpace(s);
    var t := s[l..];
    var r := TrailingSpace(t);
    assert Strip(s) == t[..|t| - r] == s[l..|s| - r];
  }

  /** A piece of text that occurs in a line, and whose characters `t[i]` and
      `t[j]` are not spaces, spans no more than the stripped line: both
      characters fall inside it. */
  lemma SpreadInStripped(line: string, t: string, i: nat, j: nat)
    requires i <= j < |t|
    requires !IsSpace(t[i]) && !IsSpace(t[j])
    requires Contains(line, t)
    ensures j - i < |Strip(line)|
  {
    var k :| 0 <= k <= |line| - |t| && OccursAt(line, t, k);
    assert line[k + i] == t[i] && line[k + j] == t[j];
    StripIsTrimmedSlice(line);
  }

  // ---------------------------------------------------------------------------
  // `s.split('\n')` and `'\n'.join(lines)`

  /** No element of `lines` contains a line break. */
  predicate SingleLines(lines: seq<string>) {
    forall k | 0 <= k < |lines| :: '\n' !in lines[k]
  }

  /** Python's `'\n'.join(lines)`. It is `BoardLogs.JoinWith(lines, "\n")`,
      written for the one separator the line passes use. */
  function Join(lines: seq<string>): string {
    if |lines| == 0 then ""
    else if |lines| == 1 then lines[0]
    else lines[0] + "\n" + Join(lines[1..])
  }

  /** Python's `s.split('\n')`: always at least one piece, no piece holds a
      line break, and joining the pieces gives back `s`. It is
      `BoardLogs.SplitOn(s, "\n")`, written for the one separator the line
      passes use. */
  function Split(s: string): (r: seq<string>)
    ensures |r| >= 1
    ensures SingleLines(r)
    ensures Join(r) == s
  {
    if |s| == 0 then [""]
    else
      var rest := Split(s[1..]);
      if s[0] == '\n' then
        assert s == "\n" + s[1..];
        [""] + rest
      else
        assert s == [s[0]] + s[1..];
        [[s[0]] + rest[0]] + rest[1..]
  }

  /** Splitting text that starts with a line without break just extends the
      first piece. */
  lemma {:induction false} SplitPrefix(x: string, rest: string)
    requires '\n' !in x
    ensures Split(x + rest) == [x + Split(rest)[0]] + Split(rest)[1..]
  {
    if |x| > 0 {
      SplitPrefix(x[1..], rest);
      assert (x + rest)[1..] == x[1..] + rest;
      assert [x[0]] + (x[1..] + Split(rest)[0]) == x + Split(rest)[0];
    } else {
      assert x + rest == rest && x + Split(rest)[0] == Split(rest)[0];
      assert [Split(rest)[0]] + Split(rest)[1..] == Split(rest);
    }
  }

  /** The converse of `Split`'s round trip: joining break-free lines and
      splitting again gives back the same lines. */
  lemma {:induction false} SplitJoin(lines: seq<string>)
    requires |lines| >= 1 && SingleLines(lines)
    ensures Split(Join(lines)) == lines
  {
    if |lines| == 1 {
      SplitPrefix(lines[0], "");
      assert lines[0] + "" == lines[0];
    } else {
      var tail := Join(lines[1..]);
      SplitJoin(lines[1..]);
      assert lines[0] + "\n" + tail == lines[0] + ("\n" + tail);
      SplitPrefix(lines[0], "\n" + tail);
      assert ("\n" + tail)[1..] == tail;
      assert Split("\n" + tail) == [""] + lines[1..];
      assert lines[0] + "" == lines[0];
    }
  }

  /** Every line appears, as a piece of text, in the joined text. */
  lemma {:induction false} JoinContainsLine(lines: seq<string>, k: nat)
    requires k < |lines|
    ensures Contains(Join(lines), lines[k])
  {
    if |lines| == 1 {
      ContainsWitness(lines[0], lines[0], 0);
    } else if k == 0 {
      assert (lines[0] + "\n" + Join(lines[1..]))[..|lines[0]|] == lines[0];
      ContainsWitness(Join(lines), lines[0], 0);
    } else {
      JoinContainsLine(lines[1..], k - 1);
      ContainsInfix(lines[0] + "\n", Join(lines[1..]), "", lines[k]);
      assert lines[0] + "\n" + Join(lines[1..]) == lines[0] + "\n" + Join(lines[1..]) + "";
    }
  }

  // ---------------------------------------------------------------------------
  // Lists

  /** Python's `xs[k]` for a list: a negative `k` counts from the end, so
      `xs[-1]` is the last element; defined for `-|xs| <= k < |xs|`. */
  function PyIndex<T>(xs: seq<T>, k: int): T
    requires -|xs| <= k < |xs|
  {
    if k < 0 then xs[|xs| + k] else xs[k]
  }

  /** Python's `xs[k]` where it may fail: `IndexError` outside `-|xs| <= k < |xs|`. */
  function PyGet<T>(xs: seq<T>, k: int): Result<T> {
    if -|xs| <= k < |xs| then Ok(PyIndex(xs, k)) else Err(IndexError)
  }

  /** Every element has two indices, `k` and `k - len(xs)`; the first index
      past either end raises. */
  lemma PyGetIndices<T>(xs: seq<T>, k: nat)
    requires k < |xs|
    ensures PyGet(xs, k) == Ok(xs[k])
    ensures PyGet(xs, k - |xs|) == Ok(xs[k])
    ensures PyGet(xs, |xs|) == Err(IndexError)
    ensures PyGet(xs, -|xs| - 1) == Err(IndexError)
  {
  }

  /** Python's `xs.insert(k, x)`: a negative `k` counts from the end, and a
      position outside the list is clamped to its nearest end. */
  function PyInsert<T>(xs: seq<T>, k: int, x: T): (r: seq<T>)
    ensures |r| == |xs| + 1
  {
    var p := if k < 0 then (if k + |xs| < 0 then 0 else k + |xs|) else (if k > |xs| then |xs| else k);
    xs[..p] + [x] + xs[p..]
  }

  /** `insert(-1, x)` puts `x` just before the last element. */
  lemma InsertBeforeLast<T>(xs: seq<T>, y: T, x: T)
    ensures PyInsert(xs + [y], -1, x) == xs + [x, y]
  {
    assert (xs + [y])[..|xs|] == xs;
  }
}
