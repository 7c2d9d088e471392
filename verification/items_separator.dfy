/** The closed set of actions a rendered sequence can take after one of its items
    (the `ItemsSeparatorBehavior` enumeration of CodegenCS). What each action does to
    the output is defined by `SeparatorEngine.ApplyBehavior`. */
module ItemsSeparator {

  datatype ItemsSeparatorBehavior =
    /** Always writes one line break after the item. */
    | WriteLineBreak
    /** Writes a line break only when the current line is dirty. */
    | EnsureLineBreak
    /** Writes nothing now; the next write may not continue the current dirty line. */
    | EnsureLineBreakBeforeNextWrite
    /** Like `EnsureLineBreak`, then one more line break: a full empty line. */
    | EnsureFullEmptyLine
    /** `EnsureFullEmptyLine` after an item of several lines, else `EnsureLineBreak`. */
    | EnsureFullEmptyLineAfterMultilineItems
    /** Writes the configured custom separator verbatim. */
    | WriteCustomSeparator
    /** Writes nothing. */
    | None

  /** True for the one action that defers its effect to the next write. */
  predicate IsDeferred(b: ItemsSeparatorBehavior) {
    b == EnsureLineBreakBeforeNextWrite
  }
}
