# CodegenCS enumerable separators, in Dafny

A model of how CodegenCS separates the items of an `IEnumerable` that is
interpolated into a template (`src/CodegenCS/InterpolatedTypes/IEnumerables.cs`):

- `items_separator.dfy` — `ItemsSeparatorBehavior`, the closed set of seven
  separator actions.
- `render_options.dfy` — `RenderEnumerableOptions`: custom separator, the action
  between items, the action after the last item, their literal defaults, the
  `CreateWithCustomSeparator` factory and the six named presets.
- `inline_enumerable.dfy` — `InlineIEnumerable<T>` and the extension methods
  `Render`, `Render(options)`, `RenderWithLineBreaks` and `RenderAsSingleLineCSV`;
  an absent options value means "use the writer's default".
- `text_sink.dfy` — the writer state the actions act on: output text, whether
  the current line is dirty, and whether a line break is owed before the next write.
- `separator_engine.dfy` — what each action does to that state (taken from the
  enumeration's documentation), and the rendering of a sequence: write each item,
  then apply the between-items action after every item but the last and the
  after-last action after the last.
- `wrappers.dfy` — an `Option` type for CodegenCS's `null`.

Decisions:

- The writer (`ICodegenTextWriter`) is not part of this model. Its one rule used
  here, in `TextSink.Write`, is how an owed line break is paid: it is written
  before the next non-empty text only if the line is still dirty and that text
  does not begin with a line break itself. IEnumerables.cs contains no writer
  code; the rule follows the documentation of `EnsureLineBreakBeforeNextWrite`
  (lines 176-182), which ties the owed break to a dirty line and says the action
  exists so that a template writing its own line break after the sequence does
  not get two. A writer that paid the owed break unconditionally, even on a clean
  line, would be a design alternative; it would turn that case into an empty line.
- `new RenderEnumerableOptions()` has both actions `EnsureLineBreakBeforeNextWrite`
  and separator `", "`, as the property initialisers say (lines 92-104), even
  though the extension documentation calls the auto-spacer "the default"
  (lines 43-49, 133). That auto-spacer is the writer's own default setting, which
  is a parameter (`writerDefault`) of `SeparatorEngine.RenderInline`.
- Nothing in CodegenCS validates the custom separator, so no configuration
  error is modelled.
- An item is opaque: `RenderedItem(text, lines)` is the text its renderer wrote
  and the number of lines that took.
- A line break is `"\n"`.
- `EnsureFullEmptyLine` always writes one more break after the ensured one,
  following "on top of that it writes a full empty line" (line 187), rather than
  stopping once the output already ends in an empty line, the reading "at least
  a full empty line" (line 186) would also allow. So an item that itself ends
  with `"x\n\n"` is followed by a second empty line.

## Model

| member | source | states |
|---|---|---|
| RenderOptions.Default | src/CodegenCS/InterpolatedTypes/IEnumerables.cs:92-108 | A default options value has separator ", " and the deferred break both between items and after the last, not the auto-spacer |
| RenderOptions.CreateWithCustomSeparator | src/CodegenCS/InterpolatedTypes/IEnumerables.cs:110-115 | The factory keeps the separator, always writes it between items, and ends with nothing exactly when single-line, else with the deferred break |
| RenderOptions.CreateWithCustomSeparatorRoundTrip | src/CodegenCS/InterpolatedTypes/IEnumerables.cs:110-115 | Reading back separator and single-line flag rebuilds the options exactly when they are custom-separator options, so the factory's image is exactly those |
| RenderOptions.LineBreaksWithoutSpacer | src/CodegenCS/InterpolatedTypes/IEnumerables.cs:118-122 | The default with only the between-items action changed, to EnsureLineBreak |
| RenderOptions.LineBreaksWithSpacer | src/CodegenCS/InterpolatedTypes/IEnumerables.cs:124-128 | The default with only the between-items action changed, to EnsureFullEmptyLine |
| RenderOptions.LineBreaksWithAutoSpacer | src/CodegenCS/InterpolatedTypes/IEnumerables.cs:130-135 | The default with only the between-items action changed, to EnsureFullEmptyLineAfterMultilineItems |
| RenderOptions.SingleLineCSV | src/CodegenCS/InterpolatedTypes/IEnumerables.cs:137-141 | Separator ", " written between items, nothing after the last |
| RenderOptions.MultiLineCSV | src/CodegenCS/InterpolatedTypes/IEnumerables.cs:143-147 | Separator ",\n" written between items, deferred break after the last |
| RenderOptions.SpacedMultiLineCSV | src/CodegenCS/InterpolatedTypes/IEnumerables.cs:149-153 | Separator ",\n\n" written between items, deferred break after the last |
| RenderOptions.PresetsAreDistinct | src/CodegenCS/InterpolatedTypes/IEnumerables.cs:117-156 | The six presets are pairwise different and differ from the default; exactly the three CSV presets are factory-made |
| InlineEnumerables.Render | src/CodegenCS/InterpolatedTypes/IEnumerables.cs:42-54 | Wrapping without options keeps the items and leaves the options unset |
| InlineEnumerables.RenderWith | src/CodegenCS/InterpolatedTypes/IEnumerables.cs:57-65 | Wrapping with options keeps the items and stores the options unchanged |
| InlineEnumerables.RenderWithLineBreaks | src/CodegenCS/InterpolatedTypes/IEnumerables.cs:68-73 | Keeps the items; chooses a line-break preset that puts an empty line between items exactly when the spacer flag is set |
| InlineEnumerables.RenderAsSingleLineCSV | src/CodegenCS/InterpolatedTypes/IEnumerables.cs:76-79 | Keeps the items; commas between, nothing after the last |
| InlineEnumerables.EffectiveOptions | src/CodegenCS/InterpolatedTypes/IEnumerables.cs:14-25 | Unset options mean the writer's default; set ones are used as they are |
| InlineEnumerables.EffectiveOptionsOfWrappers | src/CodegenCS/InterpolatedTypes/IEnumerables.cs:51-79 | Each extension resolves to the writer's default, the given options, or its preset, whatever the writer's default is |
| TextSink.Write | src/CodegenCS/InterpolatedTypes/IEnumerables.cs:175-182 | Writing only appends; an owed break is paid once, before text that would continue the dirty line, and writing discharges the obligation |
| TextSink.Break | src/CodegenCS/InterpolatedTypes/IEnumerables.cs:164-167 | A line break appends exactly one "\n" and leaves a clean line |
| SeparatorEngine.ApplyBehavior | src/CodegenCS/InterpolatedTypes/IEnumerables.cs:162-208 | No action removes output or breaks dirty-flag consistency, and only the deferred action can arm a pending break |
| SeparatorEngine.ApplyBehaviorIsWrite | src/CodegenCS/InterpolatedTypes/IEnumerables.cs:162-208 | Every immediate action equals one write of the text the action table gives for a dirty or clean line |
| SeparatorEngine.EnsureBreak | src/CodegenCS/InterpolatedTypes/IEnumerables.cs:169-173 | A dirty line gets one break and becomes clean; a clean line is untouched |
| SeparatorEngine.EnsureLineBreakSemantics | src/CodegenCS/InterpolatedTypes/IEnumerables.cs:169-173 | EnsureLineBreak breaks only a dirty line, is a no-op on a clean one, and applying it twice equals applying it once |
| SeparatorEngine.WriteLineBreakSemantics | src/CodegenCS/InterpolatedTypes/IEnumerables.cs:164-167 | WriteLineBreak always appends exactly one break |
| SeparatorEngine.EnsureFullEmptyLineSemantics | src/CodegenCS/InterpolatedTypes/IEnumerables.cs:185-190 | EnsureFullEmptyLine is EnsureLineBreak plus one break, so non-empty output ends in a full empty line |
| SeparatorEngine.AutoSpacerSemantics | src/CodegenCS/InterpolatedTypes/IEnumerables.cs:192-195 | The auto-spacer is EnsureFullEmptyLine after multi-line items (line 193) and EnsureLineBreak otherwise (the preset documentation at line 131) |
| SeparatorEngine.QuietBehaviorsSemantics | src/CodegenCS/InterpolatedTypes/IEnumerables.cs:175-206 | The deferred action writes nothing and only owes a break; None changes nothing |
| SeparatorEngine.CustomSeparatorSemantics | src/CodegenCS/InterpolatedTypes/IEnumerables.cs:198-201 | With no break owed, the custom separator is appended verbatim |
| SeparatorEngine.DeferredBreakAvoidsEmptyLine | src/CodegenCS/InterpolatedTypes/IEnumerables.cs:175-182 | If the following text starts with a line break, deferring yields one break where EnsureLineBreak yields two |
| SeparatorEngine.DeferredBreakIsHonoured | src/CodegenCS/InterpolatedTypes/IEnumerables.cs:175-177 | Text written on the dirty line after the deferred action starts on a new line, preceded by exactly one break |
| SeparatorEngine.RenderItems | src/CodegenCS/InterpolatedTypes/IEnumerables.cs:94-104 | Rendering a sequence only appends to the output and keeps the dirty flag consistent |
| SeparatorEngine.ScheduleShape | src/CodegenCS/InterpolatedTypes/IEnumerables.cs:94-104 | The between action follows every item but the last and the after-last action only the last; none for zero items |
| SeparatorEngine.RenderFollowsSchedule | src/CodegenCS/InterpolatedTypes/IEnumerables.cs:94-104 | Rendering equals writing the items with the scheduled actions after them |
| SeparatorEngine.ShortSequences | src/CodegenCS/InterpolatedTypes/IEnumerables.cs:94-104 | An empty sequence changes nothing; a single item never applies the between-items action |
| SeparatorEngine.RenderLoop | src/CodegenCS/InterpolatedTypes/IEnumerables.cs:94-104 | The item-by-item loop with one-item lookahead computes the same state as the recursive definition |
| SeparatorEngine.DeferredBreakNotRetroactive | src/CodegenCS/InterpolatedTypes/IEnumerables.cs:100-104 | A deferred after-last action writes no trailing break: output as with None after the last item, break only owed |
| SeparatorEngine.CustomSeparatorJoins | src/CodegenCS/InterpolatedTypes/IEnumerables.cs:110-115 | Starting with no break owed, factory options render the items joined by the separator, owing a break at the end exactly when not single-line and there was an item |
| SeparatorEngine.RenderIsJoinWith | src/CodegenCS/InterpolatedTypes/IEnumerables.cs:94-104 | Items that each write text, with the between action after item i writing the i-th separator on the line that item left (dirty or clean), render as any break owed at the start, then the items joined by those separators, then one after-last action |
| SeparatorEngine.LineBreakPresetsJoin | src/CodegenCS/InterpolatedTypes/IEnumerables.cs:117-135 | On items that each write text: a break follows an item only if it ended mid-line, WithSpacer adds an empty line after every item, AutoSpacer only after multi-line items, and a break is owed at the end; a break owed at the start is paid first; items all ending mid-line get one break or an empty line between each two |
| SeparatorEngine.PlainPresetJoin | src/CodegenCS/InterpolatedTypes/IEnumerables.cs:118-122 | On items that each write text: after any break owed at the start is paid, LineBreaksWithoutSpacer adds a break after an item unless it ended with its own, and owes one at the end |
| SeparatorEngine.SpacedPresetJoin | src/CodegenCS/InterpolatedTypes/IEnumerables.cs:124-128 | On items that each write text: after any break owed at the start is paid, LineBreaksWithSpacer ensures a break after each item and then an empty line, and owes one at the end |
| SeparatorEngine.AutoSpacerPresetJoin | src/CodegenCS/InterpolatedTypes/IEnumerables.cs:130-135 | On items that each write text: after any break owed at the start is paid, LineBreaksWithAutoSpacer ensures a break after each item and an empty line only after multi-line items, for any mix, and owes one at the end |
| SeparatorEngine.RenderInline | src/CodegenCS/InterpolatedTypes/IEnumerables.cs:12-25 | Rendering a wrapped sequence only appends to the output |
| SeparatorEngine.SingleLineCsvJoinsWithCommas | src/CodegenCS/InterpolatedTypes/IEnumerables.cs:76-79 | Starting with no break owed, RenderAsSingleLineCSV joins the items with ", " and writes and owes nothing after the last |
| SeparatorEngine.UnsetOptionsFollowWriterDefault | src/CodegenCS/InterpolatedTypes/IEnumerables.cs:42-54 | Rendering without options is rendering with the writer's default |
| SeparatorEngine.SingleLineCsvExample | src/CodegenCS/InterpolatedTypes/IEnumerables.cs:137-141 | "a", "b", "c" render as "a, b, c" with nothing owed |
| SeparatorEngine.LineBreaksWithSpacerExample | src/CodegenCS/InterpolatedTypes/IEnumerables.cs:124-128 | "x", "y" render as "x\n\ny" with a break owed |
| SeparatorEngine.MultiLineCsvExample | src/CodegenCS/InterpolatedTypes/IEnumerables.cs:143-147 | "a", "b" render as "a,\nb" with a break owed |
| SeparatorEngine.AutoSpacerMixedExample | src/CodegenCS/InterpolatedTypes/IEnumerables.cs:130-135 | A two-line item "a1\na2" then single-line "b", "c" render as "a1\na2\n\nb\nc": an empty line only after the multi-line item, a break owed |
| SeparatorEngine.LineBreaksOnEndedItemsExample | src/CodegenCS/InterpolatedTypes/IEnumerables.cs:118-122 | Items "x\n", "y\n" that end with their own break render as "x\ny\n" under LineBreaksWithoutSpacer: no break added between them |

## Left out

- The writer itself (`ICodegenTextWriter`, its dirty-line tracking, indentation,
  `DefaultIEnumerableRenderOptions`): not part of this model; its state is the
  `Sink` record and its default options are a parameter.
- Turning an item into text (strings, `Func<string>`, `FormattableString`,
  nested templates) and the line counting of what an item wrote: an item is an
  opaque text and line count.
- The platform line terminator: a line break is always `"\n"`.
- The `IInlineIEnumerable` interface and its `object Items` view
  (IEnumerables.cs:215-224): a C# typing device with no behaviour.
- Lazy, single-pass enumeration and errors thrown by an item's renderer: items
  are a finite `seq`, fully rendered.
- Mutable property setters and a fresh options instance per preset access:
  options are immutable values, so presets are plain functions.
- SeparatorEngine.CustomSeparatorSemantics: states the verbatim append only when
  no line break is owed, because a break owed by an earlier deferred action is
  paid by the writer before the separator is written.
- SeparatorEngine.CustomSeparatorJoins: states the joined output only when the
  render starts with no line break owed, for the same reason.
- SeparatorEngine.SingleLineCsvJoinsWithCommas: states the joined output only
  when the render starts with no line break owed, for the same reason.
- SeparatorEngine.RenderIsJoinWith: stated for items that each write some text;
  an item that writes nothing leaves the line as the previous write left it,
  which the per-position statement of `RenderFollowsSchedule` still covers.
- SeparatorEngine.LineBreakPresetsJoin: stated for items that each write some
  text, for the same reason.
- SeparatorEngine.PlainPresetJoin: stated for items that each write some text,
  as `RenderIsJoinWith`.
- SeparatorEngine.SpacedPresetJoin: stated for items that each write some text,
  as `RenderIsJoinWith`.
- SeparatorEngine.AutoSpacerPresetJoin: stated for items that each write some
  text, as `RenderIsJoinWith`.
