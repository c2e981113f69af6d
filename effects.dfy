/** What one run of the tool does that can be seen from outside: files and
    programs it consults, what it writes to stdout and stderr, and what it
    hands to the clipboard. */
module Effects {
  /** The visible effects of one run, in order. */
  datatype Event =
    | ReadCmdline              // /proc/<ppid>/cmdline is opened
    | RunPs                    // `ps` is invoked
    | DetectionWarning         // "Command detection warning: ..." on stderr
    | Help                     // usage text on stdout
    | ClipboardRequest(text: string)  // the clipboard write is attempted with this text
    | ClipboardError           // "Clipboard error: ..." on stderr
    | Traceback                // an uncaught exception ends the interpreter
    | Stdout(text: string)     // text written to stdout
}
