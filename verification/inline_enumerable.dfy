/** `InlineIEnumerable<T>` and the `Render*` extension methods: a sequence paired
    with the options to render it with, or with none, meaning "whatever the writer's
    default is". */
module InlineEnumerables {
  import opened ItemsSeparator
  import opened RenderOptions
  import Wrappers

  datatype InlineEnumerable<T> = InlineEnumerable(
    items: seq<T>,
    renderOptions: Wrappers.Option<RenderEnumerableOptions>)

  /** `items.Render()`: no options of its own. */
  function Render<T>(items: seq<T>): (r: InlineEnumerable<T>)
    ensures r.items == items
    ensures r.renderOptions.None?
  {
    InlineEnumerable(items, Wrappers.None)
  }

  /** `items.Render(customRenderOptions)`: the options are kept as given. */
  function RenderWith<T>(items: seq<T>, customRenderOptions: RenderEnumerableOptions): (r: InlineEnumerable<T>)
    ensures r.items == items
    ensures r.renderOptions == Wrappers.Some(customRenderOptions)
  {
    InlineEnumerable(items, Wrappers.Some(customRenderOptions))
  }

  /** `items.RenderWithLineBreaks(useLineSpacer)`: line-break presets, with an
      empty line between the items exactly when `useLineSpacer` holds. */
  function RenderWithLineBreaks<T>(items: seq<T>, useLineSpacer: bool := true): (r: InlineEnumerable<T>)
    ensures r.items == items
    ensures r.renderOptions.Some?
    ensures r.renderOptions.value.betweenItemsBehavior == EnsureFullEmptyLine <==> useLineSpacer
    ensures !useLineSpacer ==> r.renderOptions.value.betweenItemsBehavior == EnsureLineBreak
    ensures r.renderOptions.value == Default().(betweenItemsBehavior := r.renderOptions.value.betweenItemsBehavior)
  {
    RenderWith(items, if useLineSpacer then LineBreaksWithSpacer() else LineBreaksWithoutSpacer())
  }

  /** `items.RenderAsSingleLineCSV()`: commas between, nothing after the last. */
  function RenderAsSingleLineCSV<T>(items: seq<T>): (r: InlineEnumerable<T>)
    ensures r.items == items
    ensures r.renderOptions.Some?
    ensures r.renderOptions.value.customSeparator == ", "
    ensures r.renderOptions.value.betweenItemsBehavior == WriteCustomSeparator
    ensures r.renderOptions.value.afterLastItemBehavior == ItemsSeparatorBehavior.None
  {
    RenderWith(items, SingleLineCSV())
  }

  /** The options a writer whose default is `writerDefault` renders `e` with. */
  function EffectiveOptions<T>(e: InlineEnumerable<T>, writerDefault: RenderEnumerableOptions): (o: RenderEnumerableOptions)
    ensures e.renderOptions.Some? ==> o == e.renderOptions.value
    ensures e.renderOptions.None? ==> o == writerDefault
  {
    e.renderOptions.GetOr(writerDefault)
  }

  /** A sequence wrapped without options follows every writer's default, and one
      wrapped with options ignores it. */
  lemma EffectiveOptionsOfWrappers<T>(items: seq<T>, o: RenderEnumerableOptions, writerDefault: RenderEnumerableOptions)
    ensures EffectiveOptions(Render(items), writerDefault) == writerDefault
    ensures EffectiveOptions(RenderWith(items, o), writerDefault) == o
    ensures EffectiveOptions(RenderWithLineBreaks(items, true), writerDefault) == LineBreaksWithSpacer()
    ensures EffectiveOptions(RenderWithLineBreaks(items, false), writerDefault) == LineBreaksWithoutSpacer()
    ensures EffectiveOptions(RenderAsSingleLineCSV(items), writerDefault) == SingleLineCSV()
  {
  }
}
