/** `add_logs_to_board_event_handler_js` (add_debug_logs.py): rewrites the
    "disabled" log of view/board-event-handler.js. It gives up at once when
    the file already holds the new "disabled" marker; otherwise it replaces
    every occurrence of the old log statement by the new one and writes the
    file back, whether or not anything was replaced. The pattern handed to
    `re.sub` escapes every special character, so it matches its own text
    only; the replacement holds no group reference. The call is therefore a
    plain replace-all of one literal by another. */
module BoardLogs {

  import opened PyText
  import opened PatchOutcome

  // ---------------------------------------------------------------------------
  // Literal replace-all, as `re.sub` does it for a literal pattern

  /** Every occurrence of `pat` in `s`, found left to right and never
      overlapping, replaced by `rep`. */
  function ReplaceAll(s: string, pat: string, rep: string): string
    requires |pat| > 0
    decreases |s|
  {
    if |s| < |pat| then s
    else if s[..|pat|] == pat then rep + ReplaceAll(s[|pat|..], pat, rep)
    else [s[0]] + ReplaceAll(s[1..], pat, rep)
  }

  /** The reference reading of the same scan: `s` cut at the occurrences of
      `sep`, found left to right and never overlapping. With `sep` a line
      break it is `PyText.Split`. */
  function SplitOn(s: string, sep: string): (pieces: seq<string>)
    requires |sep| > 0
    ensures |pieces| >= 1
    decreases |s|
  {
    if |s| < |sep| then [s]
    else if s[..|sep|] == sep then [""] + SplitOn(s[|sep|..], sep)
    else
      var rest := SplitOn(s[1..], sep);
      [[s[0]] + rest[0]] + rest[1..]
  }

  /** The pieces glued back together with `sep` between them. With `sep` a
      line break it is `PyText.Join`. */
  function JoinWith(pieces: seq<string>, sep: string): string {
    if |pieces| == 0 then ""
    else if |pieces| == 1 then pieces[0]
    else pieces[0] + sep + JoinWith(pieces[1..], sep)
  }

  /** Text put in front of the first piece ends up in front of the result. */
  lemma JoinWithFront(x: string, pieces: seq<string>, sep: string)
    requires |pieces| >= 1
    ensures JoinWith([x + pieces[0]] + pieces[1..], sep) == x + JoinWith(pieces, sep)
  {
    var ps := [x + pieces[0]] + pieces[1..];
    if |pieces| > 1 {
      assert ps[1..] == pieces[1..];
    }
  }

  /** Cutting at the separator and gluing with the separator gives `s` back. */
  lemma {:induction false} JoinSplitOn(s: string, sep: string)
    requires |sep| > 0
    ensures JoinWith(SplitOn(s, sep), sep) == s
    decreases |s|
  {
    if |s| < |sep| {
    } else if s[..|sep|] == sep {
      var rest := SplitOn(s[|sep|..], sep);
      assert SplitOn(s, sep) == [""] + rest;
      JoinSplitOn(s[|sep|..], sep);
      assert ([""] + rest)[1..] == rest;
      assert JoinWith([""] + rest, sep) == "" + sep + JoinWith(rest, sep);
      assert s == sep + s[|sep|..];
    } else {
      var rest := SplitOn(s[1..], sep);
      assert SplitOn(s, sep) == [[s[0]] + rest[0]] + rest[1..];
      JoinSplitOn(s[1..], sep);
      JoinWithFront([s[0]], rest, sep);
      assert [rest[0]] + rest[1..] == rest;
      assert s == [s[0]] + s[1..];
    }
  }

  /** The replace-all is the cut pieces glued with the replacement: every
      occurrence found by the cut, and nothing else, is replaced. */
  lemma {:induction false} ReplaceAllGluesPieces(s: string, pat: string, rep: string)
    requires |pat| > 0
    ensures ReplaceAll(s, pat, rep) == JoinWith(SplitOn(s, pat), rep)
    decreases |s|
  {
    if |s| < |pat| {
    } else if s[..|pat|] == pat {
      var rest := SplitOn(s[|pat|..], pat);
      assert SplitOn(s, pat) == [""] + rest;
      ReplaceAllGluesPieces(s[|pat|..], pat, rep);
      assert ([""] + rest)[1..] == rest;
      assert JoinWith([""] + rest, rep) == "" + rep + JoinWith(rest, rep);
    } else {
      var rest := SplitOn(s[1..], pat);
      assert SplitOn(s, pat) == [[s[0]] + rest[0]] + rest[1..];
      ReplaceAllGluesPieces(s[1..], pat, rep);
      JoinWithFront([s[0]], rest, rep);
      assert [rest[0]] + rest[1..] == rest;
    }
  }

  /** The first piece of the cut is a prefix of the text. */
  lemma {:induction false} FirstPieceIsPrefix(s: string, sep: string)
    requires |sep| > 0
    ensures |SplitOn(s, sep)[0]| <= |s| && SplitOn(s, sep)[0] == s[..|SplitOn(s, sep)[0]|]
    decreases |s|
  {
    if |s| >= |sep| && s[..|sep|] != sep {
      FirstPieceIsPrefix(s[1..], sep);
    }
  }

  /** An occurrence that is not at the start is an occurrence in the rest. */
  lemma ContainsPastFirst(s: string, t: string)
    requires |t| > 0 && Contains(s, t) && s[..|t|] != t
    ensures Contains(s[1..], t)
  {
    var k :| 0 <= k <= |s| - |t| && OccursAt(s, t, k);
    assert k > 0;
    assert s[1..][k - 1..k - 1 + |t|] == s[k..k + |t|];
    ContainsWitness(s[1..], t, k - 1);
  }

  /** An occurrence is either at the start or in the rest. */
  lemma ContainsAtStartOrPast(s: string, t: string)
    requires |t| > 0
    ensures Contains(s, t) ==> |t| <= |s| && (s[..|t|] == t || Contains(s[1..], t))
  {
    if Contains(s, t) && s[..|t|] != t {
      ContainsPastFirst(s, t);
    }
  }

  /** No piece of the cut contains the separator: the cut finds every
      occurrence. */
  lemma {:induction false} PiecesLackSeparator(s: string, sep: string, j: nat)
    requires |sep| > 0 && j < |SplitOn(s, sep)|
    ensures !Contains(SplitOn(s, sep)[j], sep)
    decreases |s|
  {
    if |s| < |sep| {
    } else if s[..|sep|] == sep {
      if j > 0 {
        PiecesLackSeparator(s[|sep|..], sep, j - 1);
      }
    } else {
      var rest := SplitOn(s[1..], sep);
      PiecesLackSeparator(s[1..], sep, j);
      if j == 0 {
        var p := [s[0]] + rest[0];
        FirstPieceIsPrefix(s[1..], sep);
        assert p == s[..|p|];
        ContainsAtStartOrPast(p, sep);
        if |sep| <= |p| {
          assert p[..|sep|] == s[..|sep|];
        }
        assert p[1..] == rest[0];
      }
    }
  }

  /** Text without the pattern is returned unchanged. */
  lemma {:induction false} ReplaceAllAbsent(s: string, pat: string, rep: string)
    requires |pat| > 0
    ensures !Contains(s, pat) ==> ReplaceAll(s, pat, rep) == s
    decreases |s|
  {
    if |s| < |pat| {
    } else if s[..|pat|] == pat {
      ContainsWitness(s, pat, 0);
    } else {
      ReplaceAllAbsent(s[1..], pat, rep);
      if Contains(s[1..], pat) {
        assert s == [s[0]] + s[1..] + "";
        ContainsInfix([s[0]], s[1..], "", pat);
      }
    }
  }

  /** Text with the pattern comes back holding the replacement. */
  lemma {:induction false} ReplaceAllPresent(s: string, pat: string, rep: string)
    requires |pat| > 0
    ensures Contains(s, pat) ==> Contains(ReplaceAll(s, pat, rep), rep)
    decreases |s|
  {
    if |s| < |pat| {
    } else if s[..|pat|] == pat {
      var r := ReplaceAll(s, pat, rep);
      assert r[..|rep|] == rep;
      ContainsWitness(r, rep, 0);
    } else if Contains(s, pat) {
      ContainsPastFirst(s, pat);
      ReplaceAllPresent(s[1..], pat, rep);
      ContainsInfix([s[0]], ReplaceAll(s[1..], pat, rep), "", rep);
      assert [s[0]] + ReplaceAll(s[1..], pat, rep) + "" == ReplaceAll(s, pat, rep);
    }
  }

  // ---------------------------------------------------------------------------
  // The literals of the script

  /** The "already applied" marker. */
  const DISABLED_MARKER: string := "⛔ BoardEventHandler: disabled"

  /** The log statement replaced, and its replacement (which holds the marker). */
  const OLD_LOG: string := "console.log('🖱️ BoardEventHandler: disabled, ignoring');"
  const NEW_LOG: string := "console.log('" + DISABLED_MARKER + "');"

  // ---------------------------------------------------------------------------
  // The function

  /** The whole function, from the content read to what happens to the file. */
  function BoardHandler(content: string): Outcome {
    if Contains(content, DISABLED_MARKER) then Skipped
    else Written(ReplaceAll(content, OLD_LOG, NEW_LOG))
  }

  /** The replacement log carries the marker. */
  lemma NewLogHoldsMarker()
    ensures Contains(NEW_LOG, DISABLED_MARKER)
  {
    var prefix := "console.log('";
    assert NEW_LOG[|prefix|..|prefix| + |DISABLED_MARKER|] == DISABLED_MARKER;
    ContainsWitness(NEW_LOG, DISABLED_MARKER, |prefix|);
  }

  /** The three outcomes: skipped exactly when marked; written back unchanged
      when the old log does not occur; otherwise written with the new log,
      and so with the marker, in it. */
  lemma BoardHandlerOutcomes(content: string)
    ensures BoardHandler(content) == Skipped <==> Contains(content, DISABLED_MARKER)
    ensures !Contains(content, DISABLED_MARKER) && !Contains(content, OLD_LOG) ==>
              BoardHandler(content) == Written(content)
    ensures !Contains(content, DISABLED_MARKER) && Contains(content, OLD_LOG) ==>
              BoardHandler(content).Written? &&
              Contains(BoardHandler(content).content, NEW_LOG) &&
              Contains(BoardHandler(content).content, DISABLED_MARKER)
  {
    ReplaceAllAbsent(content, OLD_LOG, NEW_LOG);
    ReplaceAllPresent(content, OLD_LOG, NEW_LOG);
    if !Contains(content, DISABLED_MARKER) && Contains(content, OLD_LOG) {
      NewLogHoldsMarker();
      ContainsTransitive(ReplaceAll(content, OLD_LOG, NEW_LOG), NEW_LOG, DISABLED_MARKER);
    }
  }

  /** Running the function a second time on the file it left behind changes
      nothing more. */
  lemma BoardHandlerIdempotent(content: string)
    ensures var once := FileAfter(content, BoardHandler(content));
            FileAfter(once, BoardHandler(once)) == once
  {
    BoardHandlerOutcomes(content);
    var once := FileAfter(content, BoardHandler(content));
    BoardHandlerOutcomes(once);
  }
}
