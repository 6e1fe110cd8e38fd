/** How a Python call ends, and what its regular expressions do at the end of a line. */
module Python {

  /** A call ends normally, or with an exception. */
  datatype Outcome =
    | Done | ZeroDivisionError | AttributeError | ValueError | IndexError | KeyError | AssertionError | SystemExit

  /** The end anchor of a regular expression also matches before a final line feed. */
  function DropLineFeed(s: string): string {
    if s != [] && s[|s| - 1] == '\n' then s[..|s| - 1] else s
  }
}
