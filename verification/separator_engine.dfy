/** What the separator actions do to the writer's state, and the rendering of a
    sequence: each item is written, then the between-items action follows every
    item but the last and the after-last action follows the last. Turning an item
    into text is not modelled: an item is the text it wrote and its line count. */
module SeparatorEngine {
  import opened ItemsSeparator
  import opened RenderOptions
  import opened TextSink
  import opened InlineEnumerables

  /** An item as its renderer left it: the text it wrote and how many lines that took. */
  datatype RenderedItem = RenderedItem(text: string, lines: nat)

  /** A line break if the current line is dirty, nothing otherwise. */
  function EnsureBreak(s: Sink): (r: Sink)
    ensures s.dirty ==> r.output == s.output + NewLine && !r.dirty && !r.pendingBreak
    ensures !s.dirty ==> r == s
  {
    if s.dirty then Break(s) else s
  }

  /** Applies separator action `b` after an item that took `itemLines` lines. */
  function ApplyBehavior(s: Sink, b: ItemsSeparatorBehavior, opts: RenderEnumerableOptions, itemLines: nat): (r: Sink)
    ensures s.output <= r.output
    ensures Consistent(s) ==> Consistent(r)
    ensures r.pendingBreak ==> s.pendingBreak || IsDeferred(b)
  {
    match b
    case WriteLineBreak => Break(s)
    case EnsureLineBreak => EnsureBreak(s)
    case EnsureLineBreakBeforeNextWrite => s.(pendingBreak := true)
    case EnsureFullEmptyLine => Break(EnsureBreak(s))
    case EnsureFullEmptyLineAfterMultilineItems =>
      if itemLines > 1 then Break(EnsureBreak(s)) else EnsureBreak(s)
    case WriteCustomSeparator => Write(s, opts.customSeparator)
    case None => s
  }

  /** The text an immediate action writes on a line that is dirty or clean: the
      table of actions, independent of the writer. */
  function ImmediateText(b: ItemsSeparatorBehavior, opts: RenderEnumerableOptions, itemLines: nat, dirty: bool): string
    requires !IsDeferred(b)
  {
    var ensured := if dirty then NewLine else "";
    match b
    case WriteLineBreak => NewLine
    case EnsureLineBreak => ensured
    case EnsureFullEmptyLine => ensured + NewLine
    case EnsureFullEmptyLineAfterMultilineItems => if itemLines > 1 then ensured + NewLine else ensured
    case WriteCustomSeparator => opts.customSeparator
    case None => ""
  }

  /** Every action but the deferred one is a single write of the text the table
      gives for the current line: it never adds breaks of its own beyond that. */
  lemma ApplyBehaviorIsWrite(s: Sink, b: ItemsSeparatorBehavior, opts: RenderEnumerableOptions, itemLines: nat)
    requires !IsDeferred(b)
    ensures ApplyBehavior(s, b, opts, itemLines) == Write(s, ImmediateText(b, opts, itemLines, s.dirty))
  {
  }

  /** `EnsureLineBreak` breaks a dirty line, leaves a clean one alone, and is idempotent. */
  lemma EnsureLineBreakSemantics(s: Sink, opts: RenderEnumerableOptions, itemLines: nat)
    ensures var r := ApplyBehavior(s, EnsureLineBreak, opts, itemLines);
            && (s.dirty ==> r.output == s.output + NewLine && !r.dirty)
            && (!s.dirty ==> r == s)
            && ApplyBehavior(r, EnsureLineBreak, opts, itemLines) == r
  {
  }

  /** `WriteLineBreak` always writes exactly one line break. */
  lemma WriteLineBreakSemantics(s: Sink, opts: RenderEnumerableOptions, itemLines: nat)
    ensures var r := ApplyBehavior(s, WriteLineBreak, opts, itemLines);
            r.output == s.output + NewLine && !r.dirty
  {
  }

  /** `EnsureFullEmptyLine` is `EnsureLineBreak` followed by one more break, so
      after any non-empty output it leaves a full empty line. */
  lemma EnsureFullEmptyLineSemantics(s: Sink, opts: RenderEnumerableOptions, itemLines: nat)
    ensures var r := ApplyBehavior(s, EnsureFullEmptyLine, opts, itemLines);
            && r == Break(ApplyBehavior(s, EnsureLineBreak, opts, itemLines))
            && (Consistent(s) && |s.output| > 0 ==> r.output[|r.output| - 2..] == NewLine + NewLine)
  {
  }

  /** The auto-spacer gives a full empty line after an item of several lines and
      only a line break after a single-line one. */
  lemma AutoSpacerSemantics(s: Sink, opts: RenderEnumerableOptions, itemLines: nat)
    ensures itemLines > 1 ==> ApplyBehavior(s, EnsureFullEmptyLineAfterMultilineItems, opts, itemLines)
                              == ApplyBehavior(s, EnsureFullEmptyLine, opts, itemLines)
    ensures itemLines <= 1 ==> ApplyBehavior(s, EnsureFullEmptyLineAfterMultilineItems, opts, itemLines)
                               == ApplyBehavior(s, EnsureLineBreak, opts, itemLines)
  {
  }

  /** The deferred break writes nothing and only records the obligation; the two
      actions that write nothing at all leave the state as it was. */
  lemma QuietBehaviorsSemantics(s: Sink, opts: RenderEnumerableOptions, itemLines: nat)
    ensures var r := ApplyBehavior(s, EnsureLineBreakBeforeNextWrite, opts, itemLines);
            r.output == s.output && r.dirty == s.dirty && r.pendingBreak
    ensures ApplyBehavior(s, ItemsSeparatorBehavior.None, opts, itemLines) == s
    ensures opts.customSeparator == "" ==> ApplyBehavior(s, WriteCustomSeparator, opts, itemLines) == s
  {
  }

  /** The custom separator is appended verbatim unless a break was already owed by
      earlier code; the action itself reasons about no line breaks. */
  lemma CustomSeparatorSemantics(s: Sink, opts: RenderEnumerableOptions, itemLines: nat)
    ensures var r := ApplyBehavior(s, WriteCustomSeparator, opts, itemLines);
            !s.pendingBreak ==> r.output == s.output + opts.customSeparator
  {
  }

  /** Why the deferred break exists: when the text that follows the sequence starts
      with its own line break, deferring gives one break where `EnsureLineBreak`
      gives two, an unwanted empty line. */
  lemma DeferredBreakAvoidsEmptyLine(s: Sink, opts: RenderEnumerableOptions, itemLines: nat, rest: string)
    requires s.dirty
    ensures Write(ApplyBehavior(s, EnsureLineBreakBeforeNextWrite, opts, itemLines), NewLine + rest).output
            == s.output + NewLine + rest
    ensures Write(ApplyBehavior(s, EnsureLineBreak, opts, itemLines), NewLine + rest).output
            == s.output + NewLine + NewLine + rest
  {
  }

  /** ... and when the following text starts on the same line, the owed break is
      written before it, exactly once. */
  lemma DeferredBreakIsHonoured(s: Sink, opts: RenderEnumerableOptions, itemLines: nat, next: string)
    requires s.dirty
    requires |next| > 0 && next[0] != '\n'
    ensures var r := Write(ApplyBehavior(s, EnsureLineBreakBeforeNextWrite, opts, itemLines), next);
            r.output == s.output + NewLine + next && !r.pendingBreak
  {
  }

  /** The action that follows item `i` of `n`. */
  function BehaviorAfter(opts: RenderEnumerableOptions, n: nat, i: nat): ItemsSeparatorBehavior
    requires i < n
  {
    if i == n - 1 then opts.afterLastItemBehavior else opts.betweenItemsBehavior
  }

  /** Renders `items` into `s`: writes each item, then applies the action for its
      position, looking one item ahead to know whether it is the last. */
  function RenderItems(s: Sink, items: seq<RenderedItem>, opts: RenderEnumerableOptions): (r: Sink)
    ensures s.output <= r.output
    ensures Consistent(s) ==> Consistent(r)
    decreases |items|
  {
    if |items| == 0 then s
    else
      var written := Write(s, items[0].text);
      var b := BehaviorAfter(opts, |items|, 0);
      RenderItems(ApplyBehavior(written, b, opts, items[0].lines), items[1..], opts)
  }

  /** The actions applied, in order, when rendering `n` items. */
  function Schedule(opts: RenderEnumerableOptions, n: nat): (r: seq<ItemsSeparatorBehavior>)
    ensures |r| == n
  {
    if n == 0 then []
    else if n == 1 then [opts.afterLastItemBehavior]
    else [opts.betweenItemsBehavior] + Schedule(opts, n - 1)
  }

  /** Writes each item and applies the action paired with it. */
  function RunSteps(s: Sink, items: seq<RenderedItem>, actions: seq<ItemsSeparatorBehavior>, opts: RenderEnumerableOptions): Sink
    requires |actions| == |items|
    decreases |items|
  {
    if |items| == 0 then s
    else RunSteps(ApplyBehavior(Write(s, items[0].text), actions[0], opts, items[0].lines), items[1..], actions[1..], opts)
  }

  /** The between-items action follows every item but the last and the after-last
      action only the last: none for no items, never the between action for one. */
  lemma {:induction false} ScheduleShape(opts: RenderEnumerableOptions, n: nat)
    ensures forall i :: 0 <= i < n - 1 ==> Schedule(opts, n)[i] == opts.betweenItemsBehavior
    ensures n > 0 ==> Schedule(opts, n)[n - 1] == opts.afterLastItemBehavior
    ensures n == 0 ==> Schedule(opts, n) == []
    ensures n == 1 ==> Schedule(opts, n) == [opts.afterLastItemBehavior]
  {
    if n > 1 {
      ScheduleShape(opts, n - 1);
      var r := Schedule(opts, n);
      assert r[1..] == Schedule(opts, n - 1);
    }
  }

  /** Rendering is writing the items with the scheduled actions between them. */
  lemma {:induction false} RenderFollowsSchedule(s: Sink, items: seq<RenderedItem>, opts: RenderEnumerableOptions)
    ensures RenderItems(s, items, opts) == RunSteps(s, items, Schedule(opts, |items|), opts)
    decreases |items|
  {
    if |items| > 0 {
      var next := ApplyBehavior(Write(s, items[0].text), BehaviorAfter(opts, |items|, 0), opts, items[0].lines);
      RenderFollowsSchedule(next, items[1..], opts);
      if |items| > 1 {
        assert Schedule(opts, |items|)[1..] == Schedule(opts, |items| - 1);
      }
    }
  }

  /** An empty sequence writes nothing; one item is followed by the after-last
      action alone, whatever the between-items action is. */
  lemma ShortSequences(s: Sink, item: RenderedItem, opts: RenderEnumerableOptions, other: ItemsSeparatorBehavior)
    ensures RenderItems(s, [], opts) == s
    ensures RenderItems(s, [item], opts)
            == ApplyBehavior(Write(s, item.text), opts.afterLastItemBehavior, opts, item.lines)
    ensures RenderItems(s, [item], opts) == RenderItems(s, [item], opts.(betweenItemsBehavior := other))
  {
  }

  /** A deferred break after the last item never writes a trailing line break:
      the output is what it would be with nothing after the last item, and the
      break is only owed. */
  lemma {:induction false} DeferredBreakNotRetroactive(s: Sink, items: seq<RenderedItem>, opts: RenderEnumerableOptions)
    requires |items| > 0
    requires opts.afterLastItemBehavior == EnsureLineBreakBeforeNextWrite
    ensures var r := RenderItems(s, items, opts);
            var quiet := RenderItems(s, items, opts.(afterLastItemBehavior := ItemsSeparatorBehavior.None));
            r.output == quiet.output && r.dirty == quiet.dirty && r.pendingBreak
    decreases |items|
  {
    var quietOpts := opts.(afterLastItemBehavior := ItemsSeparatorBehavior.None);
    var written := Write(s, items[0].text);
    if |items| > 1 {
      var b := opts.betweenItemsBehavior;
      assert ApplyBehavior(written, b, opts, items[0].lines) == ApplyBehavior(written, b, quietOpts, items[0].lines);
      DeferredBreakNotRetroactive(ApplyBehavior(written, b, opts, items[0].lines), items[1..], opts);
    }
  }

  /** The texts of the items. */
  function Texts(items: seq<RenderedItem>): (r: seq<string>)
    ensures |r| == |items|
    ensures forall i :: 0 <= i < |items| ==> r[i] == items[i].text
  {
    seq(|items|, i requires 0 <= i < |items| => items[i].text)
  }

  /** `texts` with `sep` between each two. */
  function Join(texts: seq<string>, sep: string): string {
    if |texts| == 0 then ""
    else if |texts| == 1 then texts[0]
    else texts[0] + sep + Join(texts[1..], sep)
  }

  /** Joining a list of two or more is its head, the separator, and the joined rest. */
  lemma JoinCons(texts: seq<string>, sep: string)
    requires |texts| > 1
    ensures forall prefix: string {:trigger prefix + Join(texts, sep)} ::
              prefix + texts[0] + sep + Join(texts[1..], sep) == prefix + Join(texts, sep)
  {
  }

  /** With a custom separator and no break owed at the start, the output is the
      items joined by the separator; a break is owed at the end exactly when the
      options are not single-line and there was an item. */
  lemma {:induction false} CustomSeparatorJoins(s: Sink, items: seq<RenderedItem>, sep: string, singleLine: bool)
    requires !s.pendingBreak
    ensures var r := RenderItems(s, items, CreateWithCustomSeparator(sep, singleLine));
            && r.output == s.output + Join(Texts(items), sep)
            && (r.pendingBreak <==> !singleLine && |items| > 0)
    decreases |items|
  {
    var opts := CreateWithCustomSeparator(sep, singleLine);
    if |items| == 1 {
      assert RenderItems(s, items, opts)
          == ApplyBehavior(Write(s, items[0].text), opts.afterLastItemBehavior, opts, items[0].lines);
    } else if |items| > 1 {
      var next := ApplyBehavior(Write(s, items[0].text), WriteCustomSeparator, opts, items[0].lines);
      assert next.output == s.output + items[0].text + sep && !next.pendingBreak by {
        var written := Write(s, items[0].text);
        assert written.output == s.output + items[0].text && !written.pendingBreak;
      }
      assert RenderItems(s, items, opts) == RenderItems(next, items[1..], opts);
      CustomSeparatorJoins(next, items[1..], sep, singleLine);
      JoinCons(Texts(items), sep);
      assert Texts(items)[1..] == Texts(items[1..]);
    }
  }

  /** Every item writes some text. */
  predicate AllNonEmpty(items: seq<RenderedItem>) {
    forall i :: 0 <= i < |items| ==> |items[i].text| > 0
  }

  /** Every item writes text that leaves its line dirty. */
  predicate AllDirty(items: seq<RenderedItem>) {
    forall i :: 0 <= i < |items| ==> EndsDirty(items[i].text)
  }

  /** `texts` with `seps[i]` between `texts[i]` and `texts[i + 1]`. */
  function JoinWith(texts: seq<string>, seps: seq<string>): string
    requires |texts| > 0 && |seps| == |texts| - 1
    decreases |texts|
  {
    if |texts| == 1 then texts[0]
    else texts[0] + seps[0] + JoinWith(texts[1..], seps[1..])
  }

  /** The same separator in each of `n` gaps. */
  function UniformGaps(n: nat, sep: string): (r: seq<string>)
    ensures |r| == n
  {
    seq(n, i => sep)
  }

  /** Joining with the same separator in every gap is `Join`. */
  lemma {:induction false} JoinWithUniform(texts: seq<string>, sep: string)
    requires |texts| > 0
    ensures JoinWith(texts, UniformGaps(|texts| - 1, sep)) == Join(texts, sep)
    decreases |texts|
  {
    if |texts| > 1 {
      assert UniformGaps(|texts| - 1, sep)[1..] == UniformGaps(|texts| - 2, sep);
      JoinWithUniform(texts[1..], sep);
    }
  }

  /** Joining two or more texts is the head, the first separator, and the joined rest. */
  lemma JoinWithCons(prefix: string, texts: seq<string>, seps: seq<string>)
    requires |texts| > 1 && |seps| == |texts| - 1
    ensures prefix + texts[0] + seps[0] + JoinWith(texts[1..], seps[1..]) == prefix + JoinWith(texts, seps)
  {
  }

  /** When every item writes some text and the between-items action after item
      `i` writes `seps[i]` on the line that item left, rendering is writing the
      items joined by those separators and then applying the after-last action
      once. A break owed at the start is paid before the first item. */
  lemma RenderIsJoinWith(s: Sink, items: seq<RenderedItem>, opts: RenderEnumerableOptions, seps: seq<string>)
    requires |items| > 0 && |seps| == |items| - 1
    requires AllNonEmpty(items)
    requires !IsDeferred(opts.betweenItemsBehavior)
    requires forall i :: 0 <= i < |items| - 1 ==>
               ImmediateText(opts.betweenItemsBehavior, opts, items[i].lines, EndsDirty(items[i].text)) == seps[i]
    ensures RenderItems(s, items, opts)
            == ApplyBehavior(Sink(s.output + OwedBreak(s, items[0].text) + JoinWith(Texts(items), seps),
                                  EndsDirty(items[|items| - 1].text), false),
                             opts.afterLastItemBehavior, opts, items[|items| - 1].lines)
  {
    var paid := Sink(s.output + OwedBreak(s, items[0].text), s.dirty, false);
    SameFirstWrite(s, paid, items, opts);
    RenderIsJoinWithPaid(paid, items, opts, seps);
  }

  /** Two starts on which the first item's write lands in the same state render
      the same. */
  lemma SameFirstWrite(s: Sink, t: Sink, items: seq<RenderedItem>, opts: RenderEnumerableOptions)
    requires |items| > 0 && |items[0].text| > 0
    requires t == Sink(s.output + OwedBreak(s, items[0].text), s.dirty, false)
    ensures RenderItems(s, items, opts) == RenderItems(t, items, opts)
  {
    assert Write(s, items[0].text) == Write(t, items[0].text);
  }

  /** `RenderIsJoinWith` from a start that owes no break. */
  lemma {:induction false} RenderIsJoinWithPaid(s: Sink, items: seq<RenderedItem>, opts: RenderEnumerableOptions, seps: seq<string>)
    requires !s.pendingBreak
    requires |items| > 0 && |seps| == |items| - 1
    requires AllNonEmpty(items)
    requires !IsDeferred(opts.betweenItemsBehavior)
    requires forall i :: 0 <= i < |items| - 1 ==>
               ImmediateText(opts.betweenItemsBehavior, opts, items[i].lines, EndsDirty(items[i].text)) == seps[i]
    ensures RenderItems(s, items, opts)
            == ApplyBehavior(Sink(s.output + JoinWith(Texts(items), seps),
                                  EndsDirty(items[|items| - 1].text), false),
                             opts.afterLastItemBehavior, opts, items[|items| - 1].lines)
    decreases |items|
  {
    if |items| == 1 {
      JoinLastStep(s, items, opts);
    } else {
      var next := ApplyBehavior(Write(s, items[0].text), opts.betweenItemsBehavior, opts, items[0].lines);
      JoinFirstStep(s, items, opts, seps[0]);
      JoinRestGaps(items, opts, seps);
      RenderIsJoinWithPaid(next, items[1..], opts, seps[1..]);
      assert Texts(items)[1..] == Texts(items[1..]);
      JoinWithCons(s.output, Texts(items), seps);
    }
  }

  /** A single item: its write pays any owed break, then the after-last action. */
  lemma JoinLastStep(s: Sink, items: seq<RenderedItem>, opts: RenderEnumerableOptions)
    requires |items| == 1 && |items[0].text| > 0
    ensures RenderItems(s, items, opts)
            == ApplyBehavior(Sink(s.output + OwedBreak(s, items[0].text) + items[0].text, EndsDirty(items[0].text), false),
                             opts.afterLastItemBehavior, opts, items[0].lines)
  {
    assert RenderItems(s, items, opts)
        == ApplyBehavior(Write(s, items[0].text), opts.afterLastItemBehavior, opts, items[0].lines);
  }

  /** The per-gap condition carries over from a sequence to its tail. */
  lemma JoinRestGaps(items: seq<RenderedItem>, opts: RenderEnumerableOptions, seps: seq<string>)
    requires |items| > 1 && |seps| == |items| - 1
    requires AllNonEmpty(items)
    requires !IsDeferred(opts.betweenItemsBehavior)
    requires forall i :: 0 <= i < |items| - 1 ==>
               ImmediateText(opts.betweenItemsBehavior, opts, items[i].lines, EndsDirty(items[i].text)) == seps[i]
    ensures AllNonEmpty(items[1..])
    ensures forall i :: 0 <= i < |items| - 2 ==>
              ImmediateText(opts.betweenItemsBehavior, opts, items[1..][i].lines, EndsDirty(items[1..][i].text)) == seps[1..][i]
  {
    forall i | 0 <= i < |items| - 2
      ensures ImmediateText(opts.betweenItemsBehavior, opts, items[1..][i].lines, EndsDirty(items[1..][i].text)) == seps[1..][i]
    {
      assert items[1..][i] == items[i + 1];
    }
  }

  /** The first item of two or more: its write pays any owed break, and the
      between-items action then writes `sep0`, leaving no break owed. */
  lemma JoinFirstStep(s: Sink, items: seq<RenderedItem>, opts: RenderEnumerableOptions, sep0: string)
    requires |items| > 1 && |items[0].text| > 0
    requires !IsDeferred(opts.betweenItemsBehavior)
    requires ImmediateText(opts.betweenItemsBehavior, opts, items[0].lines, EndsDirty(items[0].text)) == sep0
    ensures var next := ApplyBehavior(Write(s, items[0].text), opts.betweenItemsBehavior, opts, items[0].lines);
            && next.output == s.output + OwedBreak(s, items[0].text) + items[0].text + sep0
            && !next.pendingBreak
            && RenderItems(s, items, opts) == RenderItems(next, items[1..], opts)
  {
    var written := Write(s, items[0].text);
    ApplyBehaviorIsWrite(written, opts.betweenItemsBehavior, opts, items[0].lines);
  }

  /** The break `EnsureLineBreak` adds after `text`: one, unless `text` already
      ended with a line break. */
  function EnsuredBreak(text: string): string {
    if EndsDirty(text) then "\n" else ""
  }

  /** The gaps `LineBreaksWithoutSpacer` leaves: a break unless the item ended with one. */
  function PlainGaps(items: seq<RenderedItem>): (r: seq<string>)
    requires |items| > 0
    ensures |r| == |items| - 1
  {
    seq(|items| - 1, i requires 0 <= i < |items| - 1 => EnsuredBreak(items[i].text))
  }

  /** The gaps `LineBreaksWithSpacer` leaves: the ensured break, then an empty line. */
  function SpacedGaps(items: seq<RenderedItem>): (r: seq<string>)
    requires |items| > 0
    ensures |r| == |items| - 1
  {
    seq(|items| - 1, i requires 0 <= i < |items| - 1 => EnsuredBreak(items[i].text) + "\n")
  }

  /** The gaps the auto-spacer leaves: an empty line after a multi-line item, only
      the ensured break after any other. */
  function AutoSpacerGaps(items: seq<RenderedItem>): (r: seq<string>)
    requires |items| > 0
    ensures |r| == |items| - 1
  {
    seq(|items| - 1, i requires 0 <= i < |items| - 1 =>
      if items[i].lines > 1 then EnsuredBreak(items[i].text) + "\n" else EnsuredBreak(items[i].text))
  }

  /** The three line-break presets on items that each write some text. After an
      item that ended mid-line a break is added, after one that ended with its own
      line break none is; `WithSpacer` then adds an empty line after every item and
      the auto-spacer only after the multi-line ones. After the last item nothing
      is written and a break is owed. On items that all end mid-line this is one
      break, or an empty line, between each two. */
  lemma LineBreakPresetsJoin(s: Sink, items: seq<RenderedItem>)
    requires |items| > 0
    requires AllNonEmpty(items)
    ensures var lastDirty := EndsDirty(items[|items| - 1].text);
            && RenderItems(s, items, LineBreaksWithoutSpacer())
               == Sink(s.output + OwedBreak(s, items[0].text) + JoinWith(Texts(items), PlainGaps(items)), lastDirty, true)
            && RenderItems(s, items, LineBreaksWithSpacer())
               == Sink(s.output + OwedBreak(s, items[0].text) + JoinWith(Texts(items), SpacedGaps(items)), lastDirty, true)
            && RenderItems(s, items, LineBreaksWithAutoSpacer())
               == Sink(s.output + OwedBreak(s, items[0].text) + JoinWith(Texts(items), AutoSpacerGaps(items)), lastDirty, true)
    ensures AllDirty(items) ==> RenderItems(s, items, LineBreaksWithoutSpacer()) == Sink(s.output + OwedBreak(s, items[0].text) + Join(Texts(items), "\n"), true, true)
    ensures AllDirty(items) ==> RenderItems(s, items, LineBreaksWithSpacer()) == Sink(s.output + OwedBreak(s, items[0].text) + Join(Texts(items), "\n\n"), true, true)
  {
    PlainPresetJoin(s, items);
    SpacedPresetJoin(s, items);
    AutoSpacerPresetJoin(s, items);
    if AllDirty(items) {
      DirtyItemGaps(items);
      JoinWithUniform(Texts(items), "\n");
      JoinWithUniform(Texts(items), "\n\n");
    }
  }

  /** `LineBreaksWithoutSpacer` renders the items joined by `PlainGaps`, then owes a break. */
  lemma PlainPresetJoin(s: Sink, items: seq<RenderedItem>)
    requires |items| > 0
    requires AllNonEmpty(items)
    ensures RenderItems(s, items, LineBreaksWithoutSpacer())
            == Sink(s.output + OwedBreak(s, items[0].text) + JoinWith(Texts(items), PlainGaps(items)), EndsDirty(items[|items| - 1].text), true)
  {
    var opts := LineBreaksWithoutSpacer();
    forall i | 0 <= i < |items| - 1
      ensures ImmediateText(opts.betweenItemsBehavior, opts, items[i].lines, EndsDirty(items[i].text)) == PlainGaps(items)[i]
    {
    }
    RenderIsJoinWith(s, items, opts, PlainGaps(items));
  }

  /** `LineBreaksWithSpacer` renders the items joined by `SpacedGaps`, then owes a break. */
  lemma SpacedPresetJoin(s: Sink, items: seq<RenderedItem>)
    requires |items| > 0
    requires AllNonEmpty(items)
    ensures RenderItems(s, items, LineBreaksWithSpacer())
            == Sink(s.output + OwedBreak(s, items[0].text) + JoinWith(Texts(items), SpacedGaps(items)), EndsDirty(items[|items| - 1].text), true)
  {
    var opts := LineBreaksWithSpacer();
    forall i | 0 <= i < |items| - 1
      ensures ImmediateText(opts.betweenItemsBehavior, opts, items[i].lines, EndsDirty(items[i].text)) == SpacedGaps(items)[i]
    {
    }
    RenderIsJoinWith(s, items, opts, SpacedGaps(items));
  }

  /** `LineBreaksWithAutoSpacer` renders the items joined by `AutoSpacerGaps`, then owes a break. */
  lemma AutoSpacerPresetJoin(s: Sink, items: seq<RenderedItem>)
    requires |items| > 0
    requires AllNonEmpty(items)
    ensures RenderItems(s, items, LineBreaksWithAutoSpacer())
            == Sink(s.output + OwedBreak(s, items[0].text) + JoinWith(Texts(items), AutoSpacerGaps(items)), EndsDirty(items[|items| - 1].text), true)
  {
    var opts := LineBreaksWithAutoSpacer();
    forall i | 0 <= i < |items| - 1
      ensures ImmediateText(opts.betweenItemsBehavior, opts, items[i].lines, EndsDirty(items[i].text)) == AutoSpacerGaps(items)[i]
    {
    }
    RenderIsJoinWith(s, items, opts, AutoSpacerGaps(items));
  }

  /** On items that all end mid-line, the line-break gaps are uniform. */
  lemma DirtyItemGaps(items: seq<RenderedItem>)
    requires |items| > 0
    requires AllDirty(items)
    ensures PlainGaps(items) == UniformGaps(|items| - 1, "\n")
    ensures SpacedGaps(items) == UniformGaps(|items| - 1, "\n\n")
  {
    var twoBreaks: string := "\n" + "\n";
    assert twoBreaks == "\n\n" by {
      assert |twoBreaks| == 2 && twoBreaks[0] == '\n' && twoBreaks[1] == '\n';
    }
    forall i | 0 <= i < |items| - 1
      ensures SpacedGaps(items)[i] == "\n\n"
    {
      assert EnsuredBreak(items[i].text) == "\n";
    }
  }

  /** Renders the items one at a time, deciding for each whether it is the last. */
  method RenderLoop(s: Sink, items: seq<RenderedItem>, opts: RenderEnumerableOptions) returns (r: Sink)
    ensures r == RenderItems(s, items, opts)
  {
    r := s;
    var i := 0;
    while i < |items|
      invariant 0 <= i <= |items|
      invariant RenderItems(r, items[i..], opts) == RenderItems(s, items, opts)
    {
      var isLast := i + 1 == |items|;
      var b := if isLast then opts.afterLastItemBehavior else opts.betweenItemsBehavior;
      r := Write(r, items[i].text);
      r := ApplyBehavior(r, b, opts, items[i].lines);
      assert items[i..][1..] == items[i + 1..];
      i := i + 1;
    }
  }

  /** Renders a wrapped sequence: items through `renderItem`, options from the
      wrapper or, when it has none, the writer's default. */
  function RenderInline<T>(s: Sink, e: InlineEnumerable<T>, writerDefault: RenderEnumerableOptions,
                           renderItem: T -> RenderedItem): (r: Sink)
    ensures s.output <= r.output
  {
    var rendered := seq(|e.items|, i requires 0 <= i < |e.items| => renderItem(e.items[i]));
    RenderItems(s, rendered, EffectiveOptions(e, writerDefault))
  }

  /** `RenderAsSingleLineCSV` joins the items with ", " and writes and owes
      nothing after the last one, whatever the writer's default. */
  lemma SingleLineCsvJoinsWithCommas<T>(s: Sink, items: seq<T>, writerDefault: RenderEnumerableOptions,
                                        renderItem: T -> RenderedItem)
    requires !s.pendingBreak
    ensures var r := RenderInline(s, RenderAsSingleLineCSV(items), writerDefault, renderItem);
            && r.output == s.output + Join(seq(|items|, i requires 0 <= i < |items| => renderItem(items[i]).text), ", ")
            && !r.pendingBreak
  {
    var e := RenderAsSingleLineCSV(items);
    var rendered := seq(|e.items|, i requires 0 <= i < |e.items| => renderItem(e.items[i]));
    assert RenderInline(s, e, writerDefault, renderItem) == RenderItems(s, rendered, CreateWithCustomSeparator(", ", true));
    CustomSeparatorJoins(s, rendered, ", ", true);
    assert Texts(rendered) == seq(|items|, i requires 0 <= i < |items| => renderItem(items[i]).text);
  }

  /** A sequence wrapped without options renders exactly as if wrapped with the
      writer's default. */
  lemma UnsetOptionsFollowWriterDefault<T>(s: Sink, items: seq<T>, writerDefault: RenderEnumerableOptions,
                                           other: RenderEnumerableOptions, renderItem: T -> RenderedItem)
    ensures RenderInline(s, Render(items), writerDefault, renderItem)
            == RenderInline(s, RenderWith(items, writerDefault), other, renderItem)
  {
  }

  const Clean := Sink("", false, false)

  /** Single-line CSV on "a", "b", "c" gives "a, b, c" and nothing after. */
  lemma SingleLineCsvExample()
    ensures var r := RenderItems(Clean, [RenderedItem("a", 1), RenderedItem("b", 1), RenderedItem("c", 1)], SingleLineCSV());
            r.output == "a, b, c" && !r.pendingBreak
  {
    var items := [RenderedItem("a", 1), RenderedItem("b", 1), RenderedItem("c", 1)];
    CustomSeparatorJoins(Clean, items, ", ", true);
    assert Texts(items) == ["a", "b", "c"];
    assert Join(["a", "b", "c"], ", ") == "a, b, c" by {
      assert ["a", "b", "c"][1..] == ["b", "c"];
      assert ["b", "c"][1..] == ["c"];
    }
  }

  /** Line breaks with spacer on "x", "y" gives "x\n\ny" and owes a break. */
  lemma LineBreaksWithSpacerExample()
    ensures var r := RenderItems(Clean, [RenderedItem("x", 1), RenderedItem("y", 1)], LineBreaksWithSpacer());
            r.output == "x\n\ny" && r.pendingBreak
  {
  }

  /** Multi-line CSV on "a", "b" gives "a,\nb" and owes a break. */
  lemma MultiLineCsvExample()
    ensures var r := RenderItems(Clean, [RenderedItem("a", 1), RenderedItem("b", 1)], MultiLineCSV());
            r.output == "a,\nb" && r.pendingBreak
  {
  }

  /** Auto-spacer on a two-line item then two single-line ones: an empty line
      after the first only, and a break owed at the end. */
  lemma AutoSpacerMixedExample()
    ensures var r := RenderItems(Clean, [RenderedItem("a1\na2", 2), RenderedItem("b", 1), RenderedItem("c", 1)],
                                 LineBreaksWithAutoSpacer());
            r.output == "a1\na2\n\nb\nc" && r.pendingBreak
  {
  }

  /** Line breaks without spacer on items that end with their own line break:
      no break is added between them. */
  lemma LineBreaksOnEndedItemsExample()
    ensures var r := RenderItems(Clean, [RenderedItem("x\n", 1), RenderedItem("y\n", 1)], LineBreaksWithoutSpacer());
            r.output == "x\ny\n" && !r.dirty && r.pendingBreak
  {
  }
}
