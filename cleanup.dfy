/** The two heuristic cleanups of a recovered command line, written out as
    string functions that do what Python's `re.sub` does with the tool's two
    fixed patterns:

      shell script   delete `\s*\|\s*ct.*$`, then strip
      ps line        delete the first of (a) `^.*?\|\s*ct.*?$`,
                     (b) `^.*?└─\$[\s]*`, (c) `^\s*\d+\s*` that matches,
                     then strip

    Neither pattern is compiled with MULTILINE or DOTALL, so `.` stops at a
    line feed, `^` holds only at position 0, and `$` holds only at the end or
    just before a final line feed. `\s` is `Text.IsSpace`, and it does match
    line feeds. */
module Cleanup {
  import opened Text

  /** The three positional tests the engine searches for. */
  datatype Probe = PipeIntoCt | LineIntoCt | PromptMarker

  predicate MatchesAt(probe: Probe, s: string, k: nat)
  {
    match probe
    case PipeIntoCt => PipeIntoCtAt(s, k)
    case LineIntoCt => DropsLineAt(s, k)
    case PromptMarker => PromptMarkerAt(s, k)
  }

  /** The leftmost position in [lo, hi) where `probe` matches: the engine
      tries candidate positions from left to right and keeps the first
      success. */
  function Leftmost(probe: Probe, s: string, lo: nat, hi: nat): (o: Option<nat>)
    requires lo <= hi
    ensures o.Some? ==> lo <= o.value < hi && MatchesAt(probe, s, o.value)
    ensures o.Some? ==> forall k :: lo <= k < o.value ==> !MatchesAt(probe, s, k)
    ensures o.None? ==> forall k :: lo <= k < hi ==> !MatchesAt(probe, s, k)
    decreases hi - lo
  {
    if lo == hi then None
    else if MatchesAt(probe, s, lo) then Some(lo)
    else Leftmost(probe, s, lo + 1, hi)
  }

  lemma LeftmostNone(probe: Probe, s: string, lo: nat, hi: nat)
    requires lo <= hi
    requires forall j :: lo <= j < hi ==> !MatchesAt(probe, s, j)
    ensures Leftmost(probe, s, lo, hi) == None
  {
  }

  lemma LeftmostIs(probe: Probe, s: string, lo: nat, hi: nat, k: nat)
    requires lo <= k < hi && MatchesAt(probe, s, k)
    requires forall j :: lo <= j < k ==> !MatchesAt(probe, s, j)
    ensures Leftmost(probe, s, lo, hi) == Some(k)
  {
  }

  /** `\d`, restricted to the ASCII digits. */
  predicate IsDigit(c: char)
  {
    '0' <= c <= '9'
  }

  /** Greedy `\d*` from `i`: the end of the maximal digit run. */
  function SkipDigits(s: string, i: nat): (j: nat)
    requires i <= |s|
    ensures i <= j <= |s|
    ensures forall k :: i <= k < j ==> IsDigit(s[k])
    ensures j == |s| || !IsDigit(s[j])
    decreases |s| - i
  {
    if i < |s| && IsDigit(s[i]) then SkipDigits(s, i + 1) else i
  }

  /** `\|\s*ct` matches at `k`. The letters `ct` are only a prefix test:
      `| ctags` matches as well. */
  predicate BarThenCt(s: string, k: nat): (b: bool)
    ensures b ==> k + 3 <= |s| && s[k] == '|'
  {
    && k < |s| && s[k] == '|'
    && var c := SkipSpace(s, k + 1);
    && c + 2 <= |s| && s[c] == 'c' && s[c + 1] == 't'
  }

  /** The position just after the `ct` of a `\|\s*ct` match at `k`. */
  function AfterCt(s: string, k: nat): (e: nat)
    requires BarThenCt(s, k)
    ensures k + 3 <= e <= |s|
    ensures forall j :: k < j < e - 2 ==> IsSpace(s[j])
  {
    SkipSpace(s, k + 1) + 2
  }

  /** `.*$` (greedy) or `.*?$` (lazy) can complete a match from `i`: `.` may
      not cross a line feed, and `$` is only at the end or before a final
      line feed, so no line feed may come before the last character. */
  predicate ReachesEnd(s: string, i: nat): (b: bool)
    ensures b ==> i <= |s|
    ensures '\n' !in s ==> (b <==> i <= |s|)
  {
    i <= |s| && forall j :: i <= j < |s| - 1 ==> s[j] != '\n'
  }

  /** Where the match of `.*$` from `i` stops: before a final line feed that
      still lies ahead, otherwise at the very end. */
  function EndAnchor(s: string, i: nat): (e: nat)
    requires i <= |s|
    ensures i <= e <= |s|
    ensures s[e..] == [] || s[e..] == "\n"
  {
    if i < |s| && s[|s| - 1] == '\n' then |s| - 1 else |s|
  }

  lemma EndAnchorIsSpace(s: string, i: nat)
    requires i <= |s|
    ensures AllSpace(s[EndAnchor(s, i)..])
  {
    assert IsSpace('\n');
  }

  /** The whole pattern `\s*\|\s*ct.*$` matches starting at `p`. */
  predicate PipeIntoCtAt(s: string, p: nat): (b: bool)
    ensures b ==> p < |s|
    ensures '\n' !in s ==> (b <==> p <= |s| && BarThenCt(s, SkipSpace(s, p)))
  {
    && p <= |s|
    && BarThenCt(s, SkipSpace(s, p))
    && ReachesEnd(s, AfterCt(s, SkipSpace(s, p)))
  }

  /** The script cleanup: every match of `\s*\|\s*ct.*$` deleted, then
      the rest stripped. The pattern can match at
      most once: after a match only "" or a final line feed is left. */
  function CleanShellCommand(s: string): (r: string)
    ensures Trimmed(r)
    ensures |r| <= |s|
  {
    match Leftmost(PipeIntoCt, s, 0, |s| + 1)
    case None => Strip(s)
    case Some(p) =>
      var e := EndAnchor(s, AfterCt(s, SkipSpace(s, p)));
      Strip(s[..p] + s[e..])
  }

  /** The cut is at the leftmost match, and whatever `re.sub` keeps after it
      (at most a final line feed) disappears in the strip. */
  lemma ShellCommandCutAt(s: string, p: nat)
    requires PipeIntoCtAt(s, p)
    requires forall k :: 0 <= k < p ==> !MatchesAt(PipeIntoCt, s, k)
    ensures CleanShellCommand(s) == Strip(s[..p])
  {
    LeftmostIs(PipeIntoCt, s, 0, |s| + 1, p);
    var e := EndAnchor(s, AfterCt(s, SkipSpace(s, p)));
    EndAnchorIsSpace(s, AfterCt(s, SkipSpace(s, p)));
    assert s[..p] + s[e..] == [] + s[..p] + s[e..];
    StripIgnoresPadding([], s[..p], s[e..]);
  }

  lemma ShellCommandUncut(s: string)
    requires forall k :: 0 <= k <= |s| ==> !MatchesAt(PipeIntoCt, s, k)
    ensures CleanShellCommand(s) == Strip(s)
  {
    LeftmostNone(PipeIntoCt, s, 0, |s| + 1);
  }

  /** Where `re.sub` cuts: the leftmost match, or the end when none. */
  function ShellCut(s: string): (cut: nat)
    ensures cut <= |s|
    ensures cut < |s| ==> PipeIntoCtAt(s, cut)
    ensures forall k :: 0 <= k < cut ==> !MatchesAt(PipeIntoCt, s, k)
  {
    var o := Leftmost(PipeIntoCt, s, 0, |s| + 1);
    if o.Some? then o.value else |s|
  }

  /** The cleaned command is the trimmed text in front of the cut. */
  lemma ShellCommandIsCut(s: string)
    ensures CleanShellCommand(s) == Strip(s[..ShellCut(s)])
  {
    var o := Leftmost(PipeIntoCt, s, 0, |s| + 1);
    if o.Some? {
      ShellCommandCutAt(s, o.value);
    } else {
      assert s[..|s|] == s;
    }
  }

  lemma NoMatchBeforeCut(s: string, j: nat)
    requires j < ShellCut(s)
    ensures !PipeIntoCtAt(s, j)
  {
    assert !MatchesAt(PipeIntoCt, s, j);
  }

  /** On one line, every `\|\s*ct` completes a match of the whole pattern. */
  lemma SingleLineMatch(s: string, k: nat)
    requires '\n' !in s && BarThenCt(s, k)
    ensures PipeIntoCtAt(s, k)
  {
    SkipSpaceStopsAt(s, k, k);
  }

  /** On one line: the result is the trimmed text before the first `|` that
      is followed by optional whitespace and `ct`. */
  lemma ShellCommandSingleLine(s: string, k: nat)
    requires '\n' !in s
    requires BarThenCt(s, k)
    requires forall j :: 0 <= j < k ==> !BarThenCt(s, j)
    ensures CleanShellCommand(s) == Strip(s[..k])
  {
    var p := ShellCut(s);
    ShellCommandIsCut(s);
    assert p <= k && SkipSpace(s, p) == k by {
      SingleLineMatch(s, k);
      assert MatchesAt(PipeIntoCt, s, k);
      assert BarThenCt(s, SkipSpace(s, p));
    }
    StripDropsTrailingSpace(s, p, k);
  }

  lemma ShellCommandSingleLineUncut(s: string)
    requires '\n' !in s
    requires forall j :: 0 <= j < |s| ==> !BarThenCt(s, j)
    ensures CleanShellCommand(s) == Strip(s)
  {
    forall p | 0 <= p <= |s| ensures !MatchesAt(PipeIntoCt, s, p) {
      var b := SkipSpace(s, p);
      if b < |s| {
        assert !BarThenCt(s, b);
      }
    }
    ShellCommandUncut(s);
  }

  /** A `\|\s*ct` inside a slice of `s` is one of `s` itself. */
  lemma BarThenCtInSlice(s: string, a: nat, b: nat, k: nat)
    requires a <= b <= |s|
    requires BarThenCt(s[a..b], k)
    ensures BarThenCt(s, a + k)
  {
    var t := s[a..b];
    var c := SkipSpace(t, k + 1);
    forall i | a + k + 1 <= i < a + c ensures IsSpace(s[i]) {
      assert s[i] == t[i - a];
    }
    assert s[a + c] == t[c];
    SkipSpaceStopsAt(s, a + k + 1, a + c);
  }

  lemma NoBarThenCtBeforeCut(s: string, a: nat, b: nat, k: nat)
    requires '\n' !in s
    requires a <= b <= ShellCut(s) && k < b - a
    ensures !BarThenCt(s[a..b], k)
  {
    if BarThenCt(s[a..b], k) {
      BarThenCtInSlice(s, a, b, k);
      SingleLineMatch(s, a + k);
      NoMatchBeforeCut(s, a + k);
    }
  }

  /** The cleaned command is a slice of the text in front of the cut. */
  lemma ShellCommandIsSlice(s: string) returns (a: nat, b: nat)
    ensures a <= b <= ShellCut(s) && CleanShellCommand(s) == s[a..b]
  {
    var cut := ShellCut(s);
    ShellCommandIsCut(s);
    var x := s[..cut];
    a, b := StripIsSlice(x);
    assert x[a..b] == s[a..b] by {
      assert forall i :: 0 <= i < b - a ==> x[a..b][i] == s[a + i];
    }
  }

  /** On one line the cleaned command is free of `| ct`: the search would
      have cut at any occurrence left in it. */
  lemma ShellCommandLeavesNoPipeIntoCt(s: string)
    requires '\n' !in s
    ensures forall k :: 0 <= k < |CleanShellCommand(s)| ==> !BarThenCt(CleanShellCommand(s), k)
  {
    var a, b := ShellCommandIsSlice(s);
    forall k | 0 <= k < b - a ensures !BarThenCt(s[a..b], k) {
      NoBarThenCtBeforeCut(s, a, b, k);
    }
  }

  /** A `\|\s*ct` at the start of a suffix is one of the whole string. */
  lemma BarThenCtAfter(x: string, rest: string)
    requires BarThenCt(rest, 0)
    ensures BarThenCt(x + rest, |x|)
  {
    var s := x + rest;
    assert s[|x|..|s|] == rest;
    BarThenCtInSlice(s, |x|, |s|, 0);
  }

  /** Without a `|` there is nothing for either pattern to cut at. */
  lemma NoBarThenCtWithoutBar(s: string)
    requires '|' !in s
    ensures forall k: nat :: !BarThenCt(s, k)
  {
    forall k: nat ensures !BarThenCt(s, k) {
      if k < |s| {
        assert s[k] in s;
      }
    }
  }

  /** A one-line pipeline `cmd | ct ...`, with a command free of `|`: the
      cleaned script is exactly the command. */
  lemma ShellCommandOfPipeline(cmd: string, ws: string, rest: string)
    requires Trimmed(cmd) && '|' !in cmd && AllSpace(ws)
    requires BarThenCt(rest, 0)
    requires '\n' !in cmd + ws + rest
    ensures CleanShellCommand(cmd + ws + rest) == cmd
  {
    var a := cmd + ws;
    var s := a + rest;
    var k := |a|;
    BarThenCtAfter(a, rest);
    forall j | 0 <= j < k ensures !BarThenCt(s, j) {
      assert s[j] == a[j];
      if j < |cmd| {
        assert a[j] == cmd[j] && cmd[j] in cmd;
      } else {
        assert a[j] == ws[j - |cmd|];
      }
    }
    ShellCommandSingleLine(s, k);
    assert s[..k] == [] + cmd + ws;
    StripOfPadded([], cmd, ws);
  }

  /** `cmd|ct` on one line: the pipe at the end is cut off. */
  lemma ShellCommandPipeAtEnd(cmd: string)
    requires Trimmed(cmd) && '|' !in cmd && '\n' !in cmd
    ensures CleanShellCommand(cmd + "|ct") == cmd
  {
    var t := cmd + "|ct";
    var n := |cmd|;
    assert t[n] == '|' && t[n + 1] == 'c' && t[n + 2] == 't' && |t| == n + 3;
    assert '\n' !in t by {
      assert forall i :: 0 <= i < n ==> t[i] == cmd[i];
    }
    assert BarThenCt(t, n) by {
      SkipSpaceStopsAt(t, n + 1, n + 1);
    }
    forall j | 0 <= j < n ensures !BarThenCt(t, j) {
      assert t[j] == cmd[j] && cmd[j] in cmd;
    }
    ShellCommandSingleLine(t, n);
    assert t[..n] == cmd;
    StripOfTrimmed(cmd);
  }

  /** In `cmd|ct<LF>|ct` no match starts on the first line: the one `|`
      there is followed by a line feed that `.*$` cannot pass. */
  lemma NoMatchOnFirstLine(cmd: string)
    requires Trimmed(cmd) && '|' !in cmd
    ensures forall p :: 0 <= p < |cmd| + 3 ==> !MatchesAt(PipeIntoCt, cmd + "|ct" + "\n|ct", p)
  {
    var s := cmd + "|ct" + "\n|ct";
    var n := |cmd|;
    assert s[n] == '|' && s[n + 1] == 'c' && s[n + 2] == 't' && s[n + 3] == '\n' && |s| == n + 7;
    forall p | 0 <= p < n + 3 ensures !PipeIntoCtAt(s, p) {
      var j := SkipSpace(s, p);
      if j < n {
        assert s[j] == cmd[j] && cmd[j] in cmd;
      } else if j == n {
        SkipSpaceStopsAt(s, n + 1, n + 1);
      }
    }
  }

  lemma PipeCtTrimmed(cmd: string)
    requires Trimmed(cmd)
    ensures Trimmed(cmd + "|ct")
  {
    var t := cmd + "|ct";
    assert t[|t| - 1] == 't';
    assert cmd != [] ==> t[0] == cmd[0];
  }

  /** First pass over `cmd|ct<LF>|ct`: `\s*` crosses the line feed and
      `.*$` cannot, so the only match starts at the line feed. */
  lemma ShellCommandFirstOfTwoLines(cmd: string)
    requires Trimmed(cmd) && '|' !in cmd
    ensures CleanShellCommand(cmd + "|ct" + "\n|ct") == cmd + "|ct"
  {
    var t := cmd + "|ct";
    var s := t + "\n|ct";
    var n := |cmd|;
    assert s[n + 3] == '\n' && s[n + 4] == '|' && s[n + 5] == 'c' && s[n + 6] == 't' && |s| == n + 7;
    assert PipeIntoCtAt(s, n + 3) by {
      SkipSpaceStopsAt(s, n + 3, n + 4);
      SkipSpaceStopsAt(s, n + 5, n + 5);
      assert BarThenCt(s, n + 4);
    }
    NoMatchOnFirstLine(cmd);
    ShellCommandCutAt(s, n + 3);
    assert s[..n + 3] == t;
    PipeCtTrimmed(cmd);
    StripOfTrimmed(t);
  }

  /** Across a line feed the cleanup is not idempotent: cleaning
      `cmd|ct<LF>|ct` gives `cmd|ct`, and cleaning that again gives `cmd`. */
  lemma ShellCommandTwiceOnTwoLines(cmd: string)
    requires Trimmed(cmd) && '|' !in cmd && '\n' !in cmd
    ensures CleanShellCommand(cmd + "|ct" + "\n|ct") == cmd + "|ct"
    ensures CleanShellCommand(CleanShellCommand(cmd + "|ct" + "\n|ct")) == cmd != cmd + "|ct"
  {
    ShellCommandFirstOfTwoLines(cmd);
    ShellCommandPipeAtEnd(cmd);
    assert |cmd + "|ct"| == |cmd| + 3;
  }

  lemma ShellCommandIdempotent(s: string)
    requires '\n' !in s
    ensures CleanShellCommand(CleanShellCommand(s)) == CleanShellCommand(s)
  {
    var r := CleanShellCommand(s);
    assert '\n' !in r by {
      var a, b := ShellCommandIsSlice(s);
      assert forall i :: 0 <= i < |r| ==> r[i] == s[a + i];
    }
    ShellCommandLeavesNoPipeIntoCt(s);
    ShellCommandSingleLineUncut(r);
    assert [] + r + [] == r;
    StripOfPadded([], r, []);
  }

  /** `└─$`, the corner of a two-line decorated shell prompt. */
  predicate PromptMarkerAt(s: string, k: nat): (b: bool)
    ensures b <==> k + 3 <= |s| && s[k..k + 3] == "\U{2514}\U{2500}$"
  {
    k + 3 <= |s| && s[k] == '\U{2514}' && s[k + 1] == '\U{2500}' && s[k + 2] == '$'
  }

  /** Alternative (a), `^.*?\|\s*ct.*?$`, succeeds with its `\|` at `k`. */
  predicate DropsLineAt(s: string, k: nat): (b: bool)
    ensures b ==> BarThenCt(s, k)
    ensures '\n' !in s ==> (b <==> BarThenCt(s, k))
  {
    BarThenCt(s, k) && ReachesEnd(s, AfterCt(s, k))
  }

  /** Where the match of the fallback pattern at position 0 ends, or 0 when
      no alternative matches. The lazy `.*?` of alternatives (a) and (b)
      extends over the first line only, and the three alternatives are tried
      in order, the first that matches winning. */
  function PromptMatchEnd(s: string): (e: nat)
    ensures e <= |s|
  {
    var line := FirstIndexOf(s, '\n');
    match Leftmost(LineIntoCt, s, 0, line)
    case Some(k) => EndAnchor(s, AfterCt(s, k))
    case None =>
      match Leftmost(PromptMarker, s, 0, line)
      case Some(k) => SkipSpace(s, k + 3)
      case None =>
        var i := SkipSpace(s, 0);
        if i < |s| && IsDigit(s[i]) then SkipSpace(s, SkipDigits(s, i)) else 0
  }

  /** The ps-line cleanup: the fallback pattern's match deleted, then the
      rest stripped. Every alternative is
      anchored at `^`, so at most one prefix of `s` is deleted. */
  function CleanPromptLine(s: string): (r: string)
    ensures Trimmed(r)
    ensures |r| <= |s|
  {
    Strip(s[PromptMatchEnd(s)..])
  }

  /** Rule (a): a first line piping into `ct` is dropped completely. */
  lemma PromptLineDroppedWhenPipedIntoCt(s: string, k: nat)
    requires k < FirstIndexOf(s, '\n')
    requires BarThenCt(s, k) && ReachesEnd(s, AfterCt(s, k))
    ensures CleanPromptLine(s) == ""
  {
    var line := FirstIndexOf(s, '\n');
    var o := Leftmost(LineIntoCt, s, 0, line);
    assert MatchesAt(LineIntoCt, s, k);
    var e := EndAnchor(s, AfterCt(s, o.value));
    assert PromptMatchEnd(s) == e;
    EndAnchorIsSpace(s, AfterCt(s, o.value));
    assert s[e..] == [] + [] + s[e..];
    StripOfPadded([], [], s[e..]);
  }

  /** On one line, any `\|\s*ct` anywhere empties the line. */
  lemma PromptLineWithPipeIntoCt(s: string, k: nat)
    requires '\n' !in s && BarThenCt(s, k)
    ensures CleanPromptLine(s) == ""
  {
    assert FirstIndexOf(s, '\n') == |s|;
    SingleLineMatch(s, k);
    PromptLineDroppedWhenPipedIntoCt(s, k);
  }

  /** Without the corner character there is no prompt marker. */
  lemma NoPromptMarkerWithoutCorner(s: string)
    requires '\U{2514}' !in s
    ensures forall k: nat :: !PromptMarkerAt(s, k)
  {
    forall k: nat ensures !PromptMarkerAt(s, k) {
      if k < |s| {
        assert s[k] in s;
      }
    }
  }

  /** Rule (b), when (a) does not apply: everything up to and including the
      first `└─$` of the first line goes. */
  lemma PromptMarkerRemoved(s: string, k: nat)
    requires forall j :: 0 <= j < FirstIndexOf(s, '\n') ==> !MatchesAt(LineIntoCt, s, j)
    requires k < FirstIndexOf(s, '\n') && PromptMarkerAt(s, k)
    requires forall j :: 0 <= j < k ==> !MatchesAt(PromptMarker, s, j)
    ensures CleanPromptLine(s) == Strip(s[k + 3..])
  {
    var line := FirstIndexOf(s, '\n');
    LeftmostNone(LineIntoCt, s, 0, line);
    LeftmostIs(PromptMarker, s, 0, line, k);
    var e := SkipSpace(s, k + 3);
    assert PromptMatchEnd(s) == e;
    StripSkipsSpace(s, k + 3, e);
  }

  /** A line that starts with the prompt corner and has no `|` loses the
      corner only: no further rule fires after rule (b). */
  lemma PromptCornerOnly(rest: string)
    requires '|' !in rest
    ensures CleanPromptLine("\U{2514}\U{2500}$" + rest) == Strip(rest)
  {
    var s := "\U{2514}\U{2500}$" + rest;
    assert '|' !in s by {
      assert forall i :: 3 <= i < |s| ==> s[i] == rest[i - 3];
    }
    NoBarThenCtWithoutBar(s);
    assert PromptMarkerAt(s, 0);
    PromptMarkerRemoved(s, 0);
    assert s[3..] == rest;
  }

  /** Rule (c), when neither (a) nor (b) applies: a leading job or history
      number with the whitespace around it goes. */
  lemma PromptIndexRemoved(s: string)
    requires forall j :: 0 <= j < FirstIndexOf(s, '\n') ==> !MatchesAt(LineIntoCt, s, j)
    requires forall j :: 0 <= j < FirstIndexOf(s, '\n') ==> !MatchesAt(PromptMarker, s, j)
    requires SkipSpace(s, 0) < |s| && IsDigit(s[SkipSpace(s, 0)])
    ensures CleanPromptLine(s) == Strip(s[SkipDigits(s, SkipSpace(s, 0))..])
  {
    var line := FirstIndexOf(s, '\n');
    LeftmostNone(LineIntoCt, s, 0, line);
    LeftmostNone(PromptMarker, s, 0, line);
    var d := SkipDigits(s, SkipSpace(s, 0));
    var e := SkipSpace(s, d);
    assert PromptMatchEnd(s) == e;
    StripSkipsSpace(s, d, e);
  }

  /** No rule applies: the line is only trimmed. */
  lemma PromptLineKept(s: string)
    requires forall j :: 0 <= j < FirstIndexOf(s, '\n') ==> !MatchesAt(LineIntoCt, s, j)
    requires forall j :: 0 <= j < FirstIndexOf(s, '\n') ==> !MatchesAt(PromptMarker, s, j)
    requires !(SkipSpace(s, 0) < |s| && IsDigit(s[SkipSpace(s, 0)]))
    ensures CleanPromptLine(s) == Strip(s)
  {
    var line := FirstIndexOf(s, '\n');
    assert PromptMatchEnd(s) == 0 by {
      LeftmostNone(LineIntoCt, s, 0, line);
      LeftmostNone(PromptMarker, s, 0, line);
    }
    assert s[0..] == s;
  }
}
