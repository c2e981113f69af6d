/** The command-line driver (`main` and `copy_to_clipboard`): it picks what
    goes to the clipboard from the flags, wraps it as Markdown on request,
    hands the stripped text to the clipboard, and echoes the trimmed input
    once the clipboard write succeeded. Standard input, the terminal test,
    the process table and `xclip` come in as parameters; what the run does
    comes out as a list of `Event`s and an exit status. */
module Driver {
  import opened Text
  import opened Effects
  import opened Resolver

  /** The four switches `-b`, `-c`, `-m` and `-M`. */
  datatype Flags = Flags(both: bool, commandOnly: bool, markdownInline: bool, markdownBlock: bool)

  /** What the payload is made of. */
  datatype Mode = Plain | CommandOnly | Both

  /** How the payload is wrapped. */
  datatype Format = Raw | Inline | Block

  /** How the `xclip` call ended: success, a non-zero exit status
      (`CalledProcessError`, reported and turned into exit status 1), or no
      `xclip` to start (`FileNotFoundError`, which nothing catches). */
  datatype ClipboardOutcome = Copied | XclipFailed | XclipMissing

  /** `-c` wins over `-b`; with neither, the payload is the input. */
  function ModeOf(flags: Flags): (m: Mode)
    ensures m == CommandOnly <==> flags.commandOnly
    ensures m == Both <==> flags.both && !flags.commandOnly
  {
    if flags.commandOnly then CommandOnly else if flags.both then Both else Plain
  }

  /** `-m` wins over `-M`; with neither, the payload is left bare. */
  function FormatOf(flags: Flags): (fmt: Format)
    ensures fmt == Inline <==> flags.markdownInline
    ensures fmt == Block <==> flags.markdownBlock && !flags.markdownInline
  {
    if flags.markdownInline then Inline else if flags.markdownBlock then Block else Raw
  }

  const NotDetected: string := "[command not detected]"

  /** The command shown for `-c` and `-b`: the resolved command, or the
      placeholder when it is missing or empty (Python's `or` treats `None`
      and the empty string alike). */
  function CommandText(cmd: Option<string>): (t: string)
    ensures t != ""
    ensures cmd.Some? && cmd.value != "" ==> t == cmd.value
    ensures cmd.None? || cmd.value == "" ==> t == NotDetected
  {
    if cmd.Some? && cmd.value != "" then cmd.value else NotDetected
  }

  /** The `-b` report: the command, a blank line, then the output. */
  function BothPayload(cmd: string, input: string): (p: string)
    ensures |p| == 19 + |cmd| + |input|
    ensures p[0] == 'C' && p[17 + |cmd|] == ':'
    ensures p[|p| - 1] == if input == "" then '\n' else input[|input| - 1]
  {
    "Command:\n" + cmd + "\n\nOutput:\n" + input
  }

  /** A one-line command and the output can be read back off a `-b`
      report: two different pairs never give the same text. */
  lemma {:induction false} BothPayloadInjective(c1: string, i1: string, c2: string, i2: string)
    requires '\n' !in c1 && '\n' !in c2
    requires BothPayload(c1, i1) == BothPayload(c2, i2)
    ensures c1 == c2 && i1 == i2
  {
    var p := BothPayload(c1, i1);
    assert forall j :: 0 <= j < |c1| ==> p[9 + j] == c1[j];
    assert forall j :: 0 <= j < |c2| ==> p[9 + j] == c2[j];
    assert p[9 + |c1|] == '\n' && p[9 + |c2|] == '\n';
    assert |c1| == |c2|;
    assert c1 == p[9..9 + |c1|] == c2;
    assert i1 == p[|p| - |i1|..] == i2;
  }

  /** The payload before wrapping, for the trimmed input and the resolved
      command. */
  function Payload(mode: Mode, input: string, cmd: Option<string>): (p: string)
    ensures mode == Plain ==> p == input
    ensures mode == CommandOnly ==> p == CommandText(cmd)
    ensures mode == Both ==> && |p| == 19 + |CommandText(cmd)| + |input|
                             && p[9..9 + |CommandText(cmd)|] == CommandText(cmd)
                             && p[|p| - |input|..] == input
  {
    match mode
    case Plain => input
    case CommandOnly => CommandText(cmd)
    case Both => BothPayload(CommandText(cmd), input)
  }

  /** Markdown wrapping: inline code or a fenced block. */
  function Wrap(fmt: Format, p: string): (w: string)
    ensures |w| == |p| + (match fmt case Raw => 0 case Inline => 2 case Block => 8)
    ensures fmt == Raw ==> w == p
    ensures fmt != Raw ==> w[0] == '`' && w[|w| - 1] == '`'
  {
    match fmt
    case Raw => p
    case Inline => "`" + p + "`"
    case Block => "```\n" + p + "\n```"
  }

  /** Takes the Markdown delimiters of `fmt` off again, if they are there. */
  function Unwrap(fmt: Format, w: string): (o: Option<string>)
    ensures o.Some? ==> |o.value| <= |w|
  {
    match fmt
    case Raw => Some(w)
    case Inline =>
      if |w| >= 2 && w[0] == '`' && w[|w| - 1] == '`' then Some(w[1..|w| - 1]) else None
    case Block =>
      if |w| >= 8 && w[..4] == "```\n" && w[|w| - 4..] == "\n```" then Some(w[4..|w| - 4]) else None
  }

  lemma UnwrapWrap(fmt: Format, p: string)
    ensures Unwrap(fmt, Wrap(fmt, p)) == Some(p)
  {
    var w := Wrap(fmt, p);
    match fmt
    case Raw =>
    case Inline =>
      assert w[1..|w| - 1] == p;
    case Block =>
      assert w[..4] == "```\n" && w[|w| - 4..] == "\n```";
      assert w[4..|w| - 4] == p;
  }

  lemma WrapUnwrap(fmt: Format, w: string, p: string)
    requires Unwrap(fmt, w) == Some(p)
    ensures Wrap(fmt, p) == w
  {
    match fmt
    case Raw =>
    case Inline =>
      assert w == [w[0]] + w[1..|w| - 1] + [w[|w| - 1]];
    case Block =>
      assert w == w[..4] + w[4..|w| - 4] + w[|w| - 4..];
  }

  /** The text `output` holds when `copy_to_clipboard` is called. */
  function Output(flags: Flags, input: string, cmd: Option<string>): (o: string)
    ensures Unwrap(FormatOf(flags), o) == Some(Payload(ModeOf(flags), input, cmd))
  {
    UnwrapWrap(FormatOf(flags), Payload(ModeOf(flags), input, cmd));
    Wrap(FormatOf(flags), Payload(ModeOf(flags), input, cmd))
  }

  /** The composed payload is already trimmed, except for a `-b` report of
      an empty input, which ends in the line feed after `Output:`. */
  lemma PayloadTrimmed(mode: Mode, input: string, cmd: Option<string>)
    requires Trimmed(input)
    requires cmd.Some? ==> Trimmed(cmd.value)
    ensures var p := Payload(mode, input, cmd);
            if mode == Both && input == "" then |p| > 0 && Trimmed(p[..|p| - 1]) && p[|p| - 1] == '\n'
            else Trimmed(p)
  {
    assert NotDetected[0] == '[' && NotDetected[|NotDetected| - 1] == ']';
    var c := CommandText(cmd);
    assert Trimmed(c);
    if mode == Both {
      var p := BothPayload(c, input);
      if input == "" {
        var r := p[..|p| - 1];
        assert r[0] == 'C' && r[|r| - 1] == ':';
      }
    }
  }

  /** `strip()` before the clipboard changes the composed text in one case
      only: a bare `-b` report of an empty input loses its final line feed. */
  lemma ClipboardTextExact(flags: Flags, input: string, cmd: Option<string>)
    requires Trimmed(input)
    requires cmd.Some? ==> Trimmed(cmd.value)
    ensures var o := Output(flags, input, cmd);
            if ModeOf(flags) == Both && FormatOf(flags) == Raw && input == ""
            then |o| > 0 && Strip(o) == o[..|o| - 1]
            else Strip(o) == o
  {
    var p := Payload(ModeOf(flags), input, cmd);
    var o := Wrap(FormatOf(flags), p);
    PayloadTrimmed(ModeOf(flags), input, cmd);
    if ModeOf(flags) == Both && FormatOf(flags) == Raw && input == "" {
      assert IsSpace('\n');
      StripDropsFinalSpace(o);
    } else {
      StripOfTrimmed(o);
    }
  }

  /** The run as the effects it has, in order. */
  function RunTrace(flags: Flags, stdinIsTty: bool, stdin: string, proc: ProcessView,
                    clipboard: ClipboardOutcome): (events: seq<Event>)
    ensures |events| >= 1
  {
    if stdinIsTty then [Help]
    else
      var input := Strip(stdin);
      LookupTrace(flags, proc)
      + CopyTrace(Output(flags, input, ParentCommand(proc)), clipboard)
      + EchoTrace(input, clipboard)
  }

  /** The effects of looking up the parent command, which only `-c` and
      `-b` do. */
  function LookupTrace(flags: Flags, proc: ProcessView): (events: seq<Event>)
    ensures forall i :: 0 <= i < |events| ==> events[i] in {ReadCmdline, RunPs, DetectionWarning}
    ensures ModeOf(flags) == Plain <==> events == []
  {
    if ModeOf(flags) == Plain then [] else ResolverTrace(proc)
  }

  /** `print(input_text)`, reached only when the clipboard write returned. */
  function EchoTrace(input: string, clipboard: ClipboardOutcome): (events: seq<Event>)
  {
    if clipboard == Copied then [Stdout(input + "\n")] else []
  }

  /** The effects of `copy_to_clipboard(text)`. */
  function CopyTrace(text: string, clipboard: ClipboardOutcome): (events: seq<Event>)
  {
    [ClipboardRequest(Strip(text))]
    + match clipboard
      case Copied => []
      case XclipFailed => [ClipboardError]
      case XclipMissing => [Traceback]
  }

  /** The process exit status. */
  function ExitStatus(stdinIsTty: bool, clipboard: ClipboardOutcome): (status: int)
    ensures status == 0 || status == 1
    ensures status == 0 <==> stdinIsTty || clipboard == Copied
  {
    if stdinIsTty || clipboard == Copied then 0 else 1
  }

  /** `copy_to_clipboard`: the stripped text goes to `xclip`; a failing
      `xclip` is reported and ends the process with status 1, a missing one
      ends it with an uncaught exception. */
  method CopyToClipboard(text: string, clipboard: ClipboardOutcome) returns (events: seq<Event>, ended: bool)
    ensures events == CopyTrace(text, clipboard)
    ensures ended <==> clipboard != Copied
  {
    events := [ClipboardRequest(Strip(text))];
    match clipboard {
      case Copied =>
        ended := false;
      case XclipFailed =>
        events := events + [ClipboardError];
        ended := true;
      case XclipMissing =>
        events := events + [Traceback];
        ended := true;
    }
  }

  /** `main` after argument parsing: the terminal test, the read, the mode
      and format choices that reassign `output` step by step, the clipboard
      write and the echo. */
  method RunCt(flags: Flags, stdinIsTty: bool, stdin: string, proc: ProcessView,
               clipboard: ClipboardOutcome) returns (events: seq<Event>, status: int)
    ensures events == RunTrace(flags, stdinIsTty, stdin, proc, clipboard)
    ensures status == ExitStatus(stdinIsTty, clipboard)
  {
    if stdinIsTty {
      return [Help], 0;
    }
    var inputText := Strip(stdin);
    var output := "";
    var lookup: seq<Event> := [];
    if flags.commandOnly {
      var cmd;
      cmd, lookup := ResolveParentCommand(proc);
      output := CommandText(cmd);
    } else if flags.both {
      var cmd;
      cmd, lookup := ResolveParentCommand(proc);
      output := BothPayload(CommandText(cmd), inputText);
    } else {
      output := inputText;
    }
    assert lookup == LookupTrace(flags, proc);
    assert output == Payload(ModeOf(flags), inputText, ParentCommand(proc));
    if flags.markdownInline {
      output := Wrap(Inline, output);
    } else if flags.markdownBlock {
      output := Wrap(Block, output);
    }
    assert output == Output(flags, inputText, ParentCommand(proc));
    var copied, ended := CopyToClipboard(output, clipboard);
    events := lookup + copied;
    if ended {
      assert EchoTrace(inputText, clipboard) == [];
      return events + [], 1;
    }
    events := events + [Stdout(inputText + "\n")];
    status := 0;
  }

  /** The layout of a piped run: the lookup, one clipboard request, then
      either the echo or the failure report. */
  lemma {:induction false} TraceLayout(lookup: seq<Event>, text: string, input: string, clipboard: ClipboardOutcome)
    requires forall i :: 0 <= i < |lookup| ==> lookup[i] in {ReadCmdline, RunPs, DetectionWarning}
    ensures var events := lookup + CopyTrace(text, clipboard) + EchoTrace(input, clipboard);
            && |events| == |lookup| + 2
            && events[..|lookup|] == lookup
            && (forall i :: |lookup| <= i < |events| ==> !(events[i] in {ReadCmdline, RunPs, DetectionWarning}))
            && events[|lookup|] == ClipboardRequest(Strip(text))
            && (forall i :: 0 <= i < |events| && i != |lookup| ==> !events[i].ClipboardRequest?)
            && (clipboard == Copied <==> events[|events| - 1] == Stdout(input + "\n"))
            && (clipboard != Copied ==> forall i :: 0 <= i < |events| ==> !events[i].Stdout?)
  {
    var events := lookup + CopyTrace(text, clipboard) + EchoTrace(input, clipboard);
    forall i | 0 <= i < |lookup| ensures events[i] == lookup[i] {
    }
  }

  /** The echo is the last thing a run does, and only a successful clipboard
      write is followed by it; otherwise nothing reaches stdout. */
  lemma EchoOnlyAfterCopy(flags: Flags, stdin: string, proc: ProcessView, clipboard: ClipboardOutcome)
    ensures var events := RunTrace(flags, false, stdin, proc, clipboard);
            && (clipboard == Copied <==> events[|events| - 1] == Stdout(Strip(stdin) + "\n"))
            && (clipboard != Copied ==> forall i :: 0 <= i < |events| ==> !events[i].Stdout?)
  {
    var text := Output(flags, Strip(stdin), ParentCommand(proc));
    TraceLayout(LookupTrace(flags, proc), text, Strip(stdin), clipboard);
  }

  /** The clipboard is written exactly once per piped run, with the
      stripped output, right after any command lookup. */
  lemma ClipboardWrittenOnce(flags: Flags, stdin: string, proc: ProcessView, clipboard: ClipboardOutcome)
    ensures var events := RunTrace(flags, false, stdin, proc, clipboard);
            var k := |LookupTrace(flags, proc)|;
            && k < |events|
            && events[k] == ClipboardRequest(Strip(Output(flags, Strip(stdin), ParentCommand(proc))))
            && forall i :: 0 <= i < |events| && i != k ==> !events[i].ClipboardRequest?
  {
    var text := Output(flags, Strip(stdin), ParentCommand(proc));
    TraceLayout(LookupTrace(flags, proc), text, Strip(stdin), clipboard);
  }

  /** The parent process is looked at only for `-c` and `-b`. */
  lemma LookupOnlyWhenNeeded(flags: Flags, stdin: string, proc: ProcessView, clipboard: ClipboardOutcome)
    ensures ReadCmdline in RunTrace(flags, false, stdin, proc, clipboard) <==> flags.commandOnly || flags.both
  {
    var events := RunTrace(flags, false, stdin, proc, clipboard);
    var lookup := LookupTrace(flags, proc);
    TraceLayout(lookup, Output(flags, Strip(stdin), ParentCommand(proc)), Strip(stdin), clipboard);
    if flags.commandOnly || flags.both {
      assert events[0] == events[..|lookup|][0] == ReadCmdline;
    } else {
      assert forall i :: 0 <= i < |events| ==> events[i] != ReadCmdline;
    }
  }

  /** An attached terminal only gets the usage text. */
  lemma TerminalShowsHelp(flags: Flags, stdin: string, proc: ProcessView, clipboard: ClipboardOutcome)
    ensures RunTrace(flags, true, stdin, proc, clipboard) == [Help]
    ensures ExitStatus(true, clipboard) == 0
  {
  }
}
