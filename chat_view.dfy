/**
 * The thread view: grouping a conversation's messages under date separators,
 * the compose box (send and template insertion) and the delivery tick of a
 * message bubble.
 */
module ChatView {
  import opened Wrappers
  import opened Text
  import opened Types
  import opened Utils
  import Seqs

  // ---------------------------------------------------------------------------
  // Date groups

  /** One date separator and the messages under it. */
  datatype MessageGroup = MessageGroup(date: DateLabel, messages: seq<Message>)

  /** `formatDate(msg.timestamp)` with today's calendar-day number `today`. */
  function LabelOf(m: Message, today: int): (l: DateLabel)
    ensures l == Today <==> DayNumber(m.timestamp) == today
  {
    FormatDate(today, DayNumber(m.timestamp))
  }

  /** The messages of the groups, one group after the other. */
  function Flatten(groups: seq<MessageGroup>): (ms: seq<Message>)
    ensures groups == [] ==> ms == []
  {
    if groups == [] then [] else Flatten(groups[..|groups| - 1]) + groups[|groups| - 1].messages
  }

  /** Each group is non-empty and all its messages carry its label. */
  ghost predicate GroupsLabelled(groups: seq<MessageGroup>, today: int) {
    forall g :: g in groups ==> g.messages != [] && forall m :: m in g.messages ==> LabelOf(m, today) == g.date
  }

  /** Adjacent groups have different labels. */
  ghost predicate AdjacentLabelsDiffer(groups: seq<MessageGroup>) {
    forall k :: 0 < k < |groups| ==> groups[k - 1].date != groups[k].date
  }

  ghost predicate WellGrouped(groups: seq<MessageGroup>, today: int) {
    GroupsLabelled(groups, today) && AdjacentLabelsDiffer(groups)
  }

  /**
   * The grouping pass of the thread view: a new group whenever a message's
   * label differs from the previous message's, else the message joins the
   * last group. Nothing is sorted.
   */
  method GroupByDate(messages: seq<Message>, today: int) returns (groups: seq<MessageGroup>)
    ensures Flatten(groups) == messages
    ensures WellGrouped(groups, today)
    ensures |groups| <= |messages|
    ensures messages == [] <==> groups == []
  {
    groups := [];
    var currentDate: Option<DateLabel> := None;
    var i := 0;
    while i < |messages|
      invariant 0 <= i <= |messages|
      invariant Flatten(groups) == messages[..i]
      invariant WellGrouped(groups, today)
      invariant |groups| <= i
      invariant currentDate == LastDate(groups)
    {
      var msg := messages[i];
      var msgDate := LabelOf(msg, today);
      if currentDate != Some(msgDate) {
        StartGroup(groups, msg, today);
        currentDate := Some(msgDate);
        groups := groups + [MessageGroup(msgDate, [msg])];
      } else {
        JoinLastGroup(groups, msg, today);
        var last := groups[|groups| - 1];
        groups := groups[..|groups| - 1] + [MessageGroup(last.date, last.messages + [msg])];
      }
      assert messages[..i + 1] == messages[..i] + [msg];
      i := i + 1;
    }
    assert messages[..i] == messages;
  }

  /** The label of the last group, none for no groups. */
  function LastDate(groups: seq<MessageGroup>): (d: Option<DateLabel>)
    ensures d.None? <==> groups == []
  {
    if groups == [] then None else Some(groups[|groups| - 1].date)
  }

  /** A message whose label differs from the last group's opens a new group. */
  lemma StartGroup(groups: seq<MessageGroup>, msg: Message, today: int)
    requires WellGrouped(groups, today)
    requires groups == [] || groups[|groups| - 1].date != LabelOf(msg, today)
    ensures var next := groups + [MessageGroup(LabelOf(msg, today), [msg])];
      WellGrouped(next, today) && Flatten(next) == Flatten(groups) + [msg]
  {
    var next := groups + [MessageGroup(LabelOf(msg, today), [msg])];
    assert next[..|next| - 1] == groups;
    forall g | g in next ensures g in groups || g == next[|next| - 1] { }
  }

  /** A message with the last group's label joins that group. */
  lemma JoinLastGroup(groups: seq<MessageGroup>, msg: Message, today: int)
    requires WellGrouped(groups, today) && groups != []
    requires groups[|groups| - 1].date == LabelOf(msg, today)
    ensures var last := groups[|groups| - 1];
      var next := groups[..|groups| - 1] + [MessageGroup(last.date, last.messages + [msg])];
      WellGrouped(next, today) && Flatten(next) == Flatten(groups) + [msg]
  {
    var last := groups[|groups| - 1];
    var init := groups[..|groups| - 1];
    var next := init + [MessageGroup(last.date, last.messages + [msg])];
    assert next[..|next| - 1] == init;
    assert Flatten(groups) == Flatten(init) + last.messages;
    assert last in groups;
    forall g | g in next ensures g in init || g == next[|next| - 1] { }
    forall g | g in init ensures g in groups { }
  }

  /** A labelled, non-empty grouping is empty exactly when it holds no message. */
  lemma FlattenEmpty(groups: seq<MessageGroup>, today: int)
    requires GroupsLabelled(groups, today)
    ensures groups == [] <==> Flatten(groups) == []
  {
    if groups != [] {
      assert groups[|groups| - 1] in groups;
    }
  }

  /** A labelled grouping holds its last group's messages at its end. */
  lemma FlattenLast(groups: seq<MessageGroup>, today: int)
    requires GroupsLabelled(groups, today) && groups != []
    ensures var f, last := Flatten(groups), groups[|groups| - 1];
      && |last.messages| <= |f| && f[|f| - |last.messages|..] == last.messages
      && f[..|f| - |last.messages|] == Flatten(groups[..|groups| - 1])
      && LabelOf(f[|f| - 1], today) == last.date
  {
    var f, last := Flatten(groups), groups[|groups| - 1];
    assert last in groups;
    assert f[|f| - 1] == last.messages[|last.messages| - 1];
    assert last.messages[|last.messages| - 1] in last.messages;
  }

  /** Leaving out the last group keeps a grouping well formed. */
  lemma WellGroupedInit(groups: seq<MessageGroup>, today: int)
    requires WellGrouped(groups, today) && groups != []
    ensures WellGrouped(groups[..|groups| - 1], today)
  {
    var init := groups[..|groups| - 1];
    forall g | g in init ensures g in groups { }
  }

  /** Every message of the last group carries the last group's label. */
  lemma LastGroupLabels(groups: seq<MessageGroup>, today: int)
    requires GroupsLabelled(groups, today) && groups != []
    ensures var f, last := Flatten(groups), groups[|groups| - 1];
      forall k :: |f| - |last.messages| <= k < |f| ==> LabelOf(f[k], today) == last.date
  {
    var f, last := Flatten(groups), groups[|groups| - 1];
    FlattenLast(groups, today);
    assert last in groups;
    forall k | |f| - |last.messages| <= k < |f| ensures LabelOf(f[k], today) == last.date {
      assert f[k] == last.messages[k - (|f| - |last.messages|)];
      assert f[k] in last.messages;
    }
  }

  /** The message just before the last group carries a different label than that group. */
  lemma LabelBeforeLastGroup(groups: seq<MessageGroup>, today: int)
    requires WellGrouped(groups, today) && groups != []
    requires |groups[|groups| - 1].messages| < |Flatten(groups)|
    ensures var f, last := Flatten(groups), groups[|groups| - 1];
      LabelOf(f[|f| - |last.messages| - 1], today) != last.date
  {
    var f, last := Flatten(groups), groups[|groups| - 1];
    var init := groups[..|groups| - 1];
    var fi := Flatten(init);
    FlattenLast(groups, today);
    WellGroupedInit(groups, today);
    FlattenEmpty(init, today);
    FlattenLast(init, today);
    assert init[|init| - 1] == groups[|groups| - 2];
    assert f[|f| - |last.messages| - 1] == fi[|fi| - 1];
  }

  /** Under two well-formed groupings of the same messages, the last group of one is no longer than the other's. */
  lemma LastGroupNoLonger(ga: seq<MessageGroup>, gb: seq<MessageGroup>, today: int)
    requires WellGrouped(ga, today) && WellGrouped(gb, today)
    requires Flatten(ga) == Flatten(gb) && ga != [] && gb != []
    ensures |ga[|ga| - 1].messages| <= |gb[|gb| - 1].messages|
  {
    var f := Flatten(ga);
    var la, lb := ga[|ga| - 1], gb[|gb| - 1];
    LastGroupLabels(ga, today);
    LastGroupLabels(gb, today);
    FlattenLast(ga, today);
    if |f| > |lb.messages| {
      LabelBeforeLastGroup(gb, today);
    }
  }

  /** Two well-formed groupings of the same messages end in the same group, after the same messages. */
  lemma SameLastGroup(ga: seq<MessageGroup>, gb: seq<MessageGroup>, today: int)
    requires WellGrouped(ga, today) && WellGrouped(gb, today)
    requires Flatten(ga) == Flatten(gb) && ga != [] && gb != []
    ensures ga[|ga| - 1] == gb[|gb| - 1]
    ensures Flatten(ga[..|ga| - 1]) == Flatten(gb[..|gb| - 1])
  {
    LastGroupNoLonger(ga, gb, today);
    LastGroupNoLonger(gb, ga, today);
    FlattenLast(ga, today);
    FlattenLast(gb, today);
  }

  /**
   * The grouping is determined by the messages: two well-formed groupings of
   * the same message sequence are equal, so the properties `GroupByDate`
   * promises characterise its result completely.
   */
  lemma {:induction false} GroupingUnique(ga: seq<MessageGroup>, gb: seq<MessageGroup>, today: int)
    requires WellGrouped(ga, today) && WellGrouped(gb, today)
    requires Flatten(ga) == Flatten(gb)
    ensures ga == gb
    decreases |ga|
  {
    FlattenEmpty(ga, today);
    FlattenEmpty(gb, today);
    if Flatten(ga) != [] {
      SameLastGroup(ga, gb, today);
      WellGroupedInit(ga, today);
      WellGroupedInit(gb, today);
      GroupingUnique(ga[..|ga| - 1], gb[..|gb| - 1], today);
      Seqs.InitLastEqual(ga, gb);
    }
  }

  /**
   * Messages out of day order give a label twice: today, yesterday, today
   * yields three groups, the first and the last both labelled today.
   */
  lemma LabelRecursWhenUnsorted(groups: seq<MessageGroup>, today: int, a: Message, b: Message, c: Message)
    requires DayNumber(a.timestamp) == today && DayNumber(b.timestamp) == today - 1 && DayNumber(c.timestamp) == today
    requires WellGrouped(groups, today) && Flatten(groups) == [a, b, c]
    ensures |groups| == 3 && groups[0].date == Today && groups[1].date == Yesterday && groups[2].date == Today
  {
    var expected := [MessageGroup(Today, [a]), MessageGroup(Yesterday, [b]), MessageGroup(Today, [c])];
    assert Flatten(expected[..1]) == [a] by {
      assert expected[..1][..0] == [];
    }
    assert Flatten(expected[..2]) == [a, b] by {
      assert expected[..2][..1] == expected[..1];
    }
    assert Flatten(expected) == [a, b, c] by {
      assert expected[..2] == expected[..|expected| - 1];
    }
    assert GroupsLabelled(expected, today) by {
      assert LabelOf(a, today) == Today && LabelOf(c, today) == Today;
      assert LabelOf(b, today) == Yesterday;
    }
    GroupingUnique(groups, expected, today);
  }

  // ---------------------------------------------------------------------------
  // The compose box

  /** The chat view's local state: the draft text and whether the template picker is open. */
  class Composer {
    var draft: string
    var showTemplates: bool

    constructor ()
      ensures draft == "" && !showTemplates
    {
      draft := "";
      showTemplates := false;
    }

    /**
     * `handleSend`: when the trimmed draft is non-empty, hand the draft on
     * untrimmed (the returned value is the `onSendMessage` argument) and clear it.
     */
    method HandleSend() returns (sent: Option<string>)
      modifies this`draft
      ensures Trim(old(draft)) != "" ==> sent == Some(old(draft)) && draft == ""
      ensures Trim(old(draft)) == "" ==> sent.None? && draft == old(draft)
    {
      if Trim(draft) != "" {
        sent := Some(draft);
        draft := "";
      } else {
        sent := None;
      }
    }

    /** `handleSelectTemplate`: the draft becomes the template body verbatim, placeholders included, and the picker closes. */
    method HandleSelectTemplate(t: WhatsAppTemplate)
      modifies this`draft, this`showTemplates
      ensures draft == t.content && !showTemplates
    {
      draft := t.content;
      showTemplates := false;
    }
  }

  // ---------------------------------------------------------------------------
  // Delivery ticks

  /** The tick icon of a bubble: none, one grey tick, or two ticks (blue when read). */
  datatype Tick = NoTick | SingleTick | DoubleTick(blue: bool)

  /** Unsupported messages show no tick; otherwise outgoing ones show their status's tick. */
  function StatusTick(m: Message): (r: Tick)
    ensures r != NoTick <==> m.isOutgoing && m.kind != Some(Unsupported) && m.status.Some?
    ensures r == SingleTick <==> r != NoTick && m.status == Some(Sent)
    ensures r.DoubleTick? <==> r != NoTick && m.status != Some(Sent)
    ensures r.DoubleTick? ==> (r.blue <==> m.status == Some(Read))
  {
    if m.kind == Some(Unsupported) then NoTick
    else if !m.isOutgoing then NoTick
    else match m.status
      case None => NoTick
      case Some(Read) => DoubleTick(true)
      case Some(Delivered) => DoubleTick(false)
      case Some(Sent) => SingleTick
  }

  /** The order of the delivery states. */
  function StatusRank(s: Option<DeliveryStatus>): nat {
    match s
    case None => 0
    case Some(Sent) => 1
    case Some(Delivered) => 2
    case Some(Read) => 3
  }

  /** The number of ticks shown, with the blue pair above the grey. */
  function TickRank(t: Tick): nat {
    match t
    case NoTick => 0
    case SingleTick => 1
    case DoubleTick(blue) => if blue then 3 else 2
  }

  /** A message further along in delivery never shows fewer ticks. */
  lemma TickFollowsStatus(m: Message, s: DeliveryStatus)
    requires StatusRank(m.status) <= StatusRank(Some(s))
    ensures TickRank(StatusTick(m)) <= TickRank(StatusTick(m.(status := Some(s))))
  {
  }
}
