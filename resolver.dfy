/** Recovery of the command that fed the tool, from what the operating system
    knows about the parent process (`get_parent_command`). Reading
    `/proc/<ppid>/cmdline` and running `ps` are I/O, so their results come in
    as a `ProcessView`, and the visible effects of the lookup are returned as
    a list of `Event`s. */
module Resolver {
  import opened Text
  import opened Cleanup
  import opened Effects

  /** What the two introspection sources produced for the parent process.
      `None` stands for any exception on that path: a vanished process, a
      permission error, a missing `ps`, a `ps` exit status other than 0, or
      bytes that are not UTF-8. */
  datatype ProcessView = ProcessView(
    cmdline: Option<string>,  // contents of /proc/<ppid>/cmdline, NUL-separated
    psLine: Option<string>)   // output of `ps -p <ppid> -o args=`

  /** The elements of `xs` that are not empty, in order. */
  function NonEmpty(xs: seq<string>): (r: seq<string>)
    ensures |r| <= |xs|
    ensures forall i :: 0 <= i < |r| ==> r[i] != "" && r[i] in xs
    decreases |xs|
  {
    if xs == [] then []
    else if xs[0] == "" then NonEmpty(xs[1..])
    else [xs[0]] + NonEmpty(xs[1..])
  }

  lemma {:induction false} NonEmptyAppend(xs: seq<string>, ys: seq<string>)
    ensures NonEmpty(xs + ys) == NonEmpty(xs) + NonEmpty(ys)
    decreases |xs|
  {
    if xs == [] {
      assert xs + ys == ys;
    } else {
      assert (xs + ys)[1..] == xs[1..] + ys;
      NonEmptyAppend(xs[1..], ys);
    }
  }

  lemma {:induction false} NonEmptyKeepsNonEmpty(xs: seq<string>)
    requires forall i :: 0 <= i < |xs| ==> xs[i] != ""
    ensures NonEmpty(xs) == xs
    decreases |xs|
  {
    if xs != [] {
      NonEmptyKeepsNonEmpty(xs[1..]);
      assert xs == [xs[0]] + xs[1..];
    }
  }

  /** The argument list as the tool sees it: the cmdline split at every NUL,
      with the empty pieces dropped. */
  function Fields(raw: string): (args: seq<string>)
    ensures forall i :: 0 <= i < |args| ==> args[i] != "" && '\0' !in args[i]
  {
    SplitPartsLackSep(raw, '\0');
    NonEmpty(Split(raw, '\0'))
  }

  /** The kernel stores each argument followed by a NUL; the tool recovers
      exactly the argument list whenever no argument is empty. */
  lemma FieldsOfCmdline(argv: seq<string>)
    requires forall i :: 0 <= i < |argv| ==> argv[i] != "" && '\0' !in argv[i]
    ensures Fields(Join(argv + [""], '\0')) == argv
  {
    var parts := argv + [""];
    SplitJoin(parts, '\0');
    NonEmptyAppend(argv, [""]);
    NonEmptyKeepsNonEmpty(argv);
  }

  /** The script of a `sh -c <script>` invocation: the argument right after
      the first "-c". */
  function ShellScript(args: seq<string>): (o: Option<string>)
    ensures o.None? <==> forall j :: 0 <= j < |args| - 1 ==> args[j] != "-c"
    ensures o.Some? ==> exists i :: 0 <= i < |args| - 1 && args[i] == "-c"
                                    && (forall j :: 0 <= j < i ==> args[j] != "-c")
                                    && o.value == args[i + 1]
  {
    var i := FirstIndexOf(args, "-c");
    if i + 1 < |args| then Some(args[i + 1]) else None
  }

  /** What `get_parent_command` returns: the cleaned `-c` script if there is
      one, otherwise the cleaned `ps` line, and `None` after any failure. */
  function ParentCommand(proc: ProcessView): (r: Option<string>)
    ensures r.Some? ==> Trimmed(r.value)
    ensures r.None? ==> proc.cmdline.None? || proc.psLine.None?
  {
    match proc.cmdline
    case None => None
    case Some(raw) =>
      match ShellScript(Fields(raw))
      case Some(script) => Some(CleanShellCommand(script))
      case None =>
        match proc.psLine
        case None => None
        case Some(line) => Some(CleanPromptLine(Strip(line)))
  }

  /** The effects `get_parent_command` has, in order. */
  function ResolverTrace(proc: ProcessView): (events: seq<Event>)
    ensures |events| >= 1 && events[0] == ReadCmdline
  {
    match proc.cmdline
    case None => [ReadCmdline, DetectionWarning]
    case Some(raw) =>
      if ShellScript(Fields(raw)).Some? then [ReadCmdline]
      else if proc.psLine.None? then [ReadCmdline, RunPs, DetectionWarning]
      else [ReadCmdline, RunPs]
  }

  /** `get_parent_command`: the `/proc` path first, with an early return
      when it finds a `-c` script, then the `ps` fallback; an exception on
      either path is caught, warned about and turned into `None`. */
  method ResolveParentCommand(proc: ProcessView) returns (cmd: Option<string>, events: seq<Event>)
    ensures cmd == ParentCommand(proc)
    ensures events == ResolverTrace(proc)
  {
    events := [ReadCmdline];
    if proc.cmdline.None? {
      events := events + [DetectionWarning];
      return None, events;
    }
    var args := Fields(proc.cmdline.value);
    if "-c" in args {
      var i := FirstIndexOf(args, "-c") + 1;
      if i < |args| {
        assert ShellScript(args) == Some(args[i]);
        return Some(CleanShellCommand(args[i])), events;
      }
    }
    assert ShellScript(args) == None;
    events := events + [RunPs];
    if proc.psLine.None? {
      events := events + [DetectionWarning];
      return None, events;
    }
    var psOutput := Strip(proc.psLine.value);
    return Some(CleanPromptLine(psOutput)), events;
  }

  /** A failure never escapes: it shows as a warning and a `None` result,
      and a warning is shown exactly when the result is `None`. */
  lemma WarnsIffUndetected(proc: ProcessView)
    ensures DetectionWarning in ResolverTrace(proc) <==> ParentCommand(proc).None?
    ensures Traceback !in ResolverTrace(proc)
  {
  }

  /** With a `-c` script among the arguments `ps` is never consulted, and
      the result is the cleaned script. */
  lemma ScriptPathSkipsPs(proc: ProcessView, script: string)
    requires proc.cmdline.Some? && ShellScript(Fields(proc.cmdline.value)) == Some(script)
    ensures RunPs !in ResolverTrace(proc)
    ensures ParentCommand(proc) == Some(CleanShellCommand(script))
  {
  }

  /** Without a `-c` script the result comes from `ps` alone, whatever else
      the cmdline holds. */
  lemma FallbackUsesPsLine(proc: ProcessView, line: string)
    requires proc.cmdline.Some? && ShellScript(Fields(proc.cmdline.value)).None?
    requires proc.psLine == Some(line)
    ensures RunPs in ResolverTrace(proc)
    ensures ParentCommand(proc) == Some(CleanPromptLine(Strip(line)))
  {
  }

  /** For a shell started as `<shell> ... -c <script>` with non-empty
      arguments, the `/proc` path recovers the script and cleans it. */
  lemma {:induction false} ShellInvocationResolved(before: seq<string>, script: string, after: seq<string>, proc: ProcessView)
    requires forall i :: 0 <= i < |before| ==> before[i] != "" && before[i] != "-c" && '\0' !in before[i]
    requires script != "" && '\0' !in script
    requires forall i :: 0 <= i < |after| ==> after[i] != "" && '\0' !in after[i]
    requires proc.cmdline == Some(Join(before + ["-c", script] + after + [""], '\0'))
    ensures ParentCommand(proc) == Some(CleanShellCommand(script))
    ensures ResolverTrace(proc) == [ReadCmdline]
  {
    var argv := before + ["-c", script] + after;
    assert forall i :: 0 <= i < |argv| ==> argv[i] != "" && '\0' !in argv[i] by {
      forall i | 0 <= i < |argv| ensures argv[i] != "" && '\0' !in argv[i] {
        if i < |before| {
          assert argv[i] == before[i];
        } else if i == |before| {
          assert argv[i] == "-c";
        } else if i == |before| + 1 {
          assert argv[i] == script;
        } else {
          assert argv[i] == after[i - |before| - 2];
        }
      }
    }
    FieldsOfCmdline(argv);
    assert FirstIndexOf(argv, "-c") == |before| by {
      assert argv[|before|] == "-c";
      assert forall j :: 0 <= j < |before| ==> argv[j] == before[j];
    }
    assert argv[|before| + 1] == script;
  }
}
