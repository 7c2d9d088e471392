/** `RenderEnumerableOptions`: how the items of a rendered sequence are separated,
    its literal defaults, the custom-separator factory and the six named presets.
    CodegenCS builds a fresh mutable instance per preset; here options are values. */
module RenderOptions {
  import opened ItemsSeparator

  /** The constructor's default arguments are CodegenCS's property initialisers. */
  datatype RenderEnumerableOptions = RenderEnumerableOptions(
    customSeparator: string := ", ",
    betweenItemsBehavior: ItemsSeparatorBehavior := EnsureLineBreakBeforeNextWrite,
    afterLastItemBehavior: ItemsSeparatorBehavior := EnsureLineBreakBeforeNextWrite)

  /** `new RenderEnumerableOptions()`. Note that both behaviours are the deferred
      break, not the auto-spacer that the extension methods' documentation calls
      the default: that one is the writer's own default, a separate setting. */
  function Default(): (o: RenderEnumerableOptions)
    ensures o.customSeparator == ", "
    ensures o.betweenItemsBehavior == EnsureLineBreakBeforeNextWrite
    ensures o.afterLastItemBehavior == EnsureLineBreakBeforeNextWrite
  {
    RenderEnumerableOptions()
  }

  /** Options that separate the items with `customSeparator`; a single-line list
      ends with nothing, any other with a deferred line break. */
  function CreateWithCustomSeparator(customSeparator: string, singleLine: bool := false): (o: RenderEnumerableOptions)
    ensures o.customSeparator == customSeparator
    ensures o.betweenItemsBehavior == WriteCustomSeparator
    ensures o.afterLastItemBehavior == ItemsSeparatorBehavior.None <==> singleLine
    ensures !singleLine ==> o.afterLastItemBehavior == Default().afterLastItemBehavior
  {
    Default().(
      customSeparator := customSeparator,
      betweenItemsBehavior := WriteCustomSeparator,
      afterLastItemBehavior := if singleLine then ItemsSeparatorBehavior.None else EnsureLineBreakBeforeNextWrite)
  }

  /** The options `CreateWithCustomSeparator` can produce. */
  predicate IsCustomSeparatorOptions(o: RenderEnumerableOptions) {
    && o.betweenItemsBehavior == WriteCustomSeparator
    && (o.afterLastItemBehavior == ItemsSeparatorBehavior.None || o.afterLastItemBehavior == EnsureLineBreakBeforeNextWrite)
  }

  /** The factory is inverted by reading back its two inputs, and its image is
      exactly the custom-separator options. */
  lemma CreateWithCustomSeparatorRoundTrip(o: RenderEnumerableOptions)
    ensures IsCustomSeparatorOptions(o)
        <==> o == CreateWithCustomSeparator(o.customSeparator, o.afterLastItemBehavior == ItemsSeparatorBehavior.None)
  {
  }

  /** Line break after each item unless it already ended with one. */
  function LineBreaksWithoutSpacer(): (o: RenderEnumerableOptions)
    ensures o == Default().(betweenItemsBehavior := EnsureLineBreak)
    ensures o.customSeparator == ", " && o.afterLastItemBehavior == EnsureLineBreakBeforeNextWrite
  {
    RenderEnumerableOptions(betweenItemsBehavior := EnsureLineBreak)
  }

  /** A full empty line between the items. */
  function LineBreaksWithSpacer(): (o: RenderEnumerableOptions)
    ensures o == Default().(betweenItemsBehavior := EnsureFullEmptyLine)
    ensures o.customSeparator == ", " && o.afterLastItemBehavior == EnsureLineBreakBeforeNextWrite
  {
    RenderEnumerableOptions(betweenItemsBehavior := EnsureFullEmptyLine)
  }

  /** A full empty line after multi-line items, a plain line break after the others. */
  function LineBreaksWithAutoSpacer(): (o: RenderEnumerableOptions)
    ensures o == Default().(betweenItemsBehavior := EnsureFullEmptyLineAfterMultilineItems)
    ensures o.customSeparator == ", " && o.afterLastItemBehavior == EnsureLineBreakBeforeNextWrite
  {
    RenderEnumerableOptions(betweenItemsBehavior := EnsureFullEmptyLineAfterMultilineItems)
  }

  /** Items joined by ", " with nothing after the last one. */
  function SingleLineCSV(): (o: RenderEnumerableOptions)
    ensures o.customSeparator == ", "
    ensures o.betweenItemsBehavior == WriteCustomSeparator
    ensures o.afterLastItemBehavior == ItemsSeparatorBehavior.None
  {
    CreateWithCustomSeparator(", ", singleLine := true)
  }

  /** Items joined by a comma and a line break, deferred break after the last. */
  function MultiLineCSV(): (o: RenderEnumerableOptions)
    ensures o.customSeparator == ",\n"
    ensures o.betweenItemsBehavior == WriteCustomSeparator
    ensures o.afterLastItemBehavior == EnsureLineBreakBeforeNextWrite
  {
    CreateWithCustomSeparator(",\n")
  }

  /** Items joined by a comma and two line breaks, deferred break after the last. */
  function SpacedMultiLineCSV(): (o: RenderEnumerableOptions)
    ensures o.customSeparator == ",\n\n"
    ensures o.betweenItemsBehavior == WriteCustomSeparator
    ensures o.afterLastItemBehavior == EnsureLineBreakBeforeNextWrite
  {
    CreateWithCustomSeparator(",\n\n")
  }

  /** The six presets are six different configurations, none of them the plain
      default; the three CSV presets are the factory's, the other three are not. */
  lemma PresetsAreDistinct()
    ensures var ps := [LineBreaksWithoutSpacer(), LineBreaksWithSpacer(), LineBreaksWithAutoSpacer(),
                       SingleLineCSV(), MultiLineCSV(), SpacedMultiLineCSV()];
            && (forall i, j :: 0 <= i < j < |ps| ==> ps[i] != ps[j])
            && (forall i :: 0 <= i < |ps| ==> ps[i] != Default())
            && (forall i :: 0 <= i < |ps| ==> (IsCustomSeparatorOptions(ps[i]) <==> 3 <= i))
  {
  }
}
