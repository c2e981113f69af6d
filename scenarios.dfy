/** Concrete runs: the invocations the tool's help describes, and
    the inputs that show where the cleanup heuristics reach their limits. */
module Scenarios {
  import opened Text
  import opened Cleanup
  import opened Effects
  import opened Resolver
  import opened Driver

  /** `echo hello world | ct -m` run by `sh -c`: the script is cut at the
      pipe into the tool. */
  lemma ScriptOfEchoPipeline()
    ensures CleanShellCommand("echo hello world | ct -m") == "echo hello world"
  {
    assert "echo hello world | ct -m" == "echo hello world" + " " + "| ct -m";
    assert BarThenCt("| ct -m", 0) by {
      SkipSpaceStopsAt("| ct -m", 1, 2);
    }
    ShellCommandOfPipeline("echo hello world", " ", "| ct -m");
  }

  /** `ct` is only a prefix test: a pipe into `ctags` is cut as well. */
  lemma ScriptPipingIntoCtags()
    ensures CleanShellCommand("ls|ctags") == "ls"
  {
    assert "ls|ctags" == "ls" + "" + "|ctags";
    assert BarThenCt("|ctags", 0) by {
      SkipSpaceStopsAt("|ctags", 1, 1);
    }
    ShellCommandOfPipeline("ls", "", "|ctags");
  }

  /** `ps` shows a line that pipes into the tool: rule (a) empties it. */
  lemma PsLineOfPipeline()
    ensures CleanPromptLine("git log | ct -b") == ""
  {
    var s := "git log | ct -b";
    assert s == "git log " + "| ct -b";
    assert BarThenCt("| ct -b", 0) by {
      SkipSpaceStopsAt("| ct -b", 1, 2);
    }
    BarThenCtAfter("git log ", "| ct -b");
    PromptLineWithPipeIntoCt(s, 8);
  }

  /** Rule (b) removes the prompt corner, and then no other rule applies:
      the number after it stays. */
  lemma PsLineAfterPromptCorner()
    ensures CleanPromptLine("\U{2514}\U{2500}$ 7 ls") == "7 ls"
  {
    assert "\U{2514}\U{2500}$ 7 ls" == "\U{2514}\U{2500}$" + " 7 ls";
    PromptCornerOnly(" 7 ls");
    assert " 7 ls" == " " + "7 ls" + [];
    StripOfPadded(" ", "7 ls", []);
  }

  /** Rule (c) removes one leading job number, not the next one. */
  lemma PsLineWithJobNumber()
    ensures CleanPromptLine("1 2") == "2"
  {
    var s := "1 2";
    assert FirstIndexOf(s, '\n') == 3;
    NoBarThenCtWithoutBar(s);
    NoPromptMarkerWithoutCorner(s);
    assert SkipSpace(s, 0) == 0;
    assert SkipDigits(s, 0) == 1;
    PromptIndexRemoved(s);
    assert s[1..] == " " + "2" + [];
    StripOfPadded(" ", "2", []);
  }

  /** `bash -c 'echo hello world | ct -m'` is the parent: the `/proc` path
      recovers the command and `ps` is not consulted. */
  lemma ParentIsShellScript(proc: ProcessView)
    requires proc.cmdline == Some(Join(["bash", "-c", "echo hello world | ct -m", ""], '\0'))
    ensures ParentCommand(proc) == Some("echo hello world")
    ensures ResolverTrace(proc) == [ReadCmdline]
  {
    assert ["bash"] + ["-c", "echo hello world | ct -m"] + [] + [""] == ["bash", "-c", "echo hello world | ct -m", ""];
    ShellInvocationResolved(["bash"], "echo hello world | ct -m", [], proc);
    ScriptOfEchoPipeline();
  }

  /** `echo <text> | ct -m`: inline code on the clipboard, the text on
      stdout, and no lookup of the parent. */
  lemma InlineRun(text: string, proc: ProcessView)
    requires Trimmed(text)
    ensures RunTrace(Flags(false, false, true, false), false, text + "\n", proc, Copied)
         == [ClipboardRequest("`" + text + "`"), Stdout(text + "\n")]
  {
    var flags := Flags(false, false, true, false);
    assert Strip(text + "\n") == text by {
      assert text + "\n" == [] + text + "\n";
      assert IsSpace('\n');
      StripOfPadded([], text, "\n");
    }
    ClipboardTextExact(flags, text, ParentCommand(proc));
  }

  /** `... | ct -c` with the command resolved: the clipboard holds the
      command alone, and stdout the trimmed input. */
  lemma CommandOnlyRun(stdin: string, cmd: string, proc: ProcessView)
    requires ParentCommand(proc) == Some(cmd) && cmd != ""
    ensures RunTrace(Flags(false, true, false, false), false, stdin, proc, Copied)
         == ResolverTrace(proc) + [ClipboardRequest(cmd), Stdout(Strip(stdin) + "\n")]
  {
    var flags := Flags(false, true, false, false);
    ClipboardTextExact(flags, Strip(stdin), ParentCommand(proc));
  }

  lemma BlockReport(cmd: string, input: string)
    ensures Wrap(Block, BothPayload(cmd, input)) == "```\n" + "Command:\n" + cmd + "\n\nOutput:\n" + input + "\n```"
  {
  }

  /** `-b -M`: a fenced block around the two-part report. */
  lemma BothAsBlockRun(stdin: string, proc: ProcessView)
    ensures var cmd := CommandText(ParentCommand(proc));
            var input := Strip(stdin);
            (RunTrace(Flags(true, false, false, true), false, stdin, proc, Copied)
             == ResolverTrace(proc)
                + [ClipboardRequest("```\n" + "Command:\n" + cmd + "\n\nOutput:\n" + input + "\n```"), Stdout(input + "\n")])
  {
    var flags := Flags(true, false, false, true);
    ClipboardTextExact(flags, Strip(stdin), ParentCommand(proc));
    BlockReport(CommandText(ParentCommand(proc)), Strip(stdin));
  }

  lemma BlankReport(cmd: string)
    ensures var o := BothPayload(cmd, "");
            |o| > 0 && o[..|o| - 1] == "Command:\n" + cmd + "\n\nOutput:"
  {
    var o := BothPayload(cmd, "");
    assert o == "Command:\n" + cmd + "\n\nOutput:" + "\n";
  }

  /** `-b` on blank input: the report loses its final line feed on the way
      to the clipboard. */
  lemma BothOfBlankInput(stdin: string, proc: ProcessView)
    requires AllSpace(stdin)
    ensures var cmd := CommandText(ParentCommand(proc));
            (RunTrace(Flags(true, false, false, false), false, stdin, proc, Copied)
             == ResolverTrace(proc) + [ClipboardRequest("Command:\n" + cmd + "\n\nOutput:"), Stdout("\n")])
  {
    var flags := Flags(true, false, false, false);
    var cmd := CommandText(ParentCommand(proc));
    assert Strip(stdin) == "" by {
      assert stdin == stdin + "" + [];
      StripOfPadded(stdin, "", []);
    }
    assert Strip(Output(flags, "", ParentCommand(proc))) == "Command:\n" + cmd + "\n\nOutput:" by {
      ClipboardTextExact(flags, "", ParentCommand(proc));
      BlankReport(cmd);
    }
    assert "" + "\n" == "\n";
  }

  /** With `/proc` unreadable the lookup is abandoned with a warning, and
      the marker takes the command's place. */
  lemma CommandNotDetectedRun(stdin: string, proc: ProcessView)
    requires proc.cmdline.None?
    ensures RunTrace(Flags(false, true, false, false), false, stdin, proc, Copied)
         == [ReadCmdline, DetectionWarning, ClipboardRequest(NotDetected), Stdout(Strip(stdin) + "\n")]
  {
    var flags := Flags(false, true, false, false);
    ClipboardTextExact(flags, Strip(stdin), ParentCommand(proc));
  }

  /** A failing `xclip` ends the run before the echo. */
  lemma ClipboardFailureRun(stdin: string, proc: ProcessView)
    ensures RunTrace(Flags(false, false, false, false), false, stdin, proc, XclipFailed)
         == [ClipboardRequest(Strip(stdin)), ClipboardError]
    ensures ExitStatus(false, XclipFailed) == 1
  {
    StripIdempotent(stdin);
  }
}
