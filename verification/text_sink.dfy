/** The part of the text writer that separator actions observe and change: the
    text written so far, whether the current line is dirty, and whether a line
    break is owed before the next write. The writer itself is not part of this
    model; `Write` is the one rule it is assumed to follow. */
module TextSink {

  const NewLine: string := "\n"

  datatype Sink = Sink(output: string, dirty: bool, pendingBreak: bool)

  /** A text leaves the line dirty when it is not empty and does not end with a break. */
  predicate EndsDirty(text: string) {
    |text| > 0 && text[|text| - 1] != '\n'
  }

  /** The dirty flag agrees with the text written so far. */
  predicate Consistent(s: Sink) {
    s.dirty == EndsDirty(s.output)
  }

  /** True when the owed break would be written before `text`: a break is owed,
      the line is still dirty and `text` does not start a new line by itself. */
  predicate OwesBreakBefore(s: Sink, text: string) {
    s.pendingBreak && s.dirty && |text| > 0 && text[0] != '\n'
  }

  /** The break written before `text`: one if it is owed, none otherwise. */
  function OwedBreak(s: Sink, text: string): string {
    if OwesBreakBefore(s, text) then NewLine else ""
  }

  /** Writes `text`, first settling an owed line break. Writing nothing changes
      nothing; writing something discharges the obligation. */
  function Write(s: Sink, text: string): (r: Sink)
    ensures s.output <= r.output
    ensures text == [] ==> r == s
    ensures text != [] ==> !r.pendingBreak && Consistent(r)
    ensures !OwesBreakBefore(s, text) ==> r.output == s.output + text
    ensures OwesBreakBefore(s, text) ==> r.output == s.output + NewLine + text
    ensures text != [] ==> r.output == s.output + OwedBreak(s, text) + text
  {
    if text == [] then s
    else
      var owed := if OwesBreakBefore(s, text) then NewLine else [];
      Sink(s.output + owed + text, EndsDirty(text), false)
  }

  /** One line break, written through the writer like any other text. */
  function Break(s: Sink): (r: Sink)
    ensures r.output == s.output + NewLine
    ensures !r.dirty && !r.pendingBreak
    ensures Consistent(r)
  {
    Write(s, NewLine)
  }
}
