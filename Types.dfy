/** The terminal's value types (src/components/terminal/types.ts), with the
    rendered output of a command reduced to an abstract payload. */
module Types {

  datatype Option<T> = None | Some(value: T)

  /** The two layouts: `"hybrid"` (terminal beside the scrollable résumé) and
      `"terminal"` (terminal only). */
  datatype Mode = Hybrid | TerminalOnly

  /** The mode a toggle switches to. */
  function Flip(m: Mode): (r: Mode)
    ensures r != m
  {
    if m == Hybrid then TerminalOnly else Hybrid
  }

  /** What a result card shows, without its markup: the "command not found"
      error naming the lower-cased token, the toggle confirmation naming the new
      mode, the PDF download notice, the command list, one résumé section, or the
      generic "Command acknowledged" line. */
  datatype Payload =
    | NotFound(token: string)
    | Toggled(mode: Mode)
    | DownloadNotice
    | HelpListing
    | SectionView(section: string)
    | Acknowledged

  /** One entry of the result log. The source's `id` is `"result-"` followed by
      the clock reading and `renderedAt` is the clock reading; both are `stamp`. */
  datatype TerminalResult = TerminalResult(stamp: int, command: string, payload: Payload)

  /** One entry of the execution history. */
  datatype Execution = Execution(command: string, timestamp: int)

  /** The reducer's state: history newest-first, results oldest-first. */
  datatype State = State(history: seq<Execution>, results: seq<TerminalResult>, mode: Mode)
}
