/**
 * The page's tab counters: for each status, the number of conversations of the
 * unfiltered list with that status.
 */
module HomePage {
  import opened Types
  import opened Wrappers
  import opened Text
  import opened UseChat
  import ChatView
  import Seqs

  datatype TabCounts = TabCounts(open: nat, snoozed: nat, done: nat)

  /** `allConversations.filter((c) => c.status === s).length`. */
  function CountInTab(all: seq<Conversation>, s: ConversationStatus): (n: nat)
    ensures n <= |all|
    ensures n == 0 <==> forall i :: 0 <= i < |all| ==> all[i].status != s
  {
    var r := ConversationsInTab(all, s);
    assert r != [] ==> r[0] in r;
    assert forall i :: 0 <= i < |all| ==> all[i] in all;
    |r|
  }

  /** `tabCounts`, computed from the unfiltered list alone (no search string, no active tab). */
  function ComputeTabCounts(all: seq<Conversation>): (r: TabCounts)
    ensures r.open + r.snoozed + r.done == |all|
    ensures r.open == multiset(Statuses(all))[Open]
    ensures r.snoozed == multiset(Statuses(all))[Snoozed]
    ensures r.done == multiset(Statuses(all))[Done]
  {
    CountsPartition(all);
    CountIsMultiplicity(all, Open);
    CountIsMultiplicity(all, Snoozed);
    CountIsMultiplicity(all, Done);
    TabCounts(CountInTab(all, Open), CountInTab(all, Snoozed), CountInTab(all, Done))
  }

  /** The statuses of the list, position by position. */
  function Statuses(cs: seq<Conversation>): (ss: seq<ConversationStatus>)
    ensures |ss| == |cs| && forall i :: 0 <= i < |cs| ==> ss[i] == cs[i].status
  {
    seq(|cs|, i requires 0 <= i < |cs| => cs[i].status)
  }

  /** A tab's count is the multiplicity of its status among the statuses. */
  lemma {:induction false} CountIsMultiplicity(cs: seq<Conversation>, s: ConversationStatus)
    ensures CountInTab(cs, s) == multiset(Statuses(cs))[s]
  {
    if cs != [] {
      CountIsMultiplicity(cs[1..], s);
      assert Statuses(cs) == [cs[0].status] + Statuses(cs[1..]);
    }
  }

  /** Every conversation is in exactly one tab, so the three counts add up to the list length. */
  lemma {:induction false} CountsPartition(cs: seq<Conversation>)
    ensures CountInTab(cs, Open) + CountInTab(cs, Snoozed) + CountInTab(cs, Done) == |cs|
  {
    if cs != [] {
      CountsPartition(cs[1..]);
    }
  }

  /** Lists with the same statuses in the same places have the same counts. */
  lemma SameStatusesSameCounts(cs: seq<Conversation>, cs': seq<Conversation>)
    requires |cs| == |cs'|
    requires forall i :: 0 <= i < |cs| ==> cs[i].status == cs'[i].status
    ensures ComputeTabCounts(cs) == ComputeTabCounts(cs')
  {
    assert Statuses(cs) == Statuses(cs');
  }

  /** Sending a message leaves the counts as they were. */
  lemma SendKeepsCounts(cs: seq<Conversation>, id: string, m: Message, lastTime: int)
    ensures ComputeTabCounts(WithMessageAppended(cs, id, m, lastTime)) == ComputeTabCounts(cs)
  {
    SameStatusesSameCounts(cs, WithMessageAppended(cs, id, m, lastTime));
  }

  /** The delivery step leaves the counts as they were. */
  lemma DeliverKeepsCounts(cs: seq<Conversation>, convId: string, msgId: string)
    ensures ComputeTabCounts(WithMessageDelivered(cs, convId, msgId)) == ComputeTabCounts(cs)
  {
    SameStatusesSameCounts(cs, WithMessageDelivered(cs, convId, msgId));
  }

  /** Adding a note leaves the counts as they were. */
  lemma AddNoteKeepsCounts(cs: seq<Conversation>, id: string, n: Note)
    ensures ComputeTabCounts(WithNoteAppended(cs, id, n)) == ComputeTabCounts(cs)
  {
    SameStatusesSameCounts(cs, WithNoteAppended(cs, id, n));
  }

  /** Marking as read (and so selecting) leaves the counts as they were. */
  lemma MarkAsReadKeepsCounts(cs: seq<Conversation>, id: string)
    ensures ComputeTabCounts(WithUnreadCleared(cs, id)) == ComputeTabCounts(cs)
  {
    SameStatusesSameCounts(cs, WithUnreadCleared(cs, id));
  }

  /** The number of conversations with id `id` and status `t`. */
  function CountWithIdAndStatus(cs: seq<Conversation>, id: string, t: ConversationStatus): (n: nat)
    ensures n <= |cs|
  {
    Seqs.Count(cs, (c: Conversation) => c.id == id && c.status == t)
  }

  /** The number of conversations with id `id` and a status other than `s`. */
  function CountWithIdNotInTab(cs: seq<Conversation>, id: string, s: ConversationStatus): (n: nat)
    ensures n <= |cs|
  {
    Seqs.Count(cs, (c: Conversation) => c.id == id && c.status != s)
  }

  /** Setting status `s` takes out of every other tab exactly its conversations with `id`. */
  lemma {:induction false} UpdateStatusLeavesTab(cs: seq<Conversation>, id: string, s: ConversationStatus, t: ConversationStatus)
    requires t != s
    ensures CountInTab(WithStatus(cs, id, s), t) == CountInTab(cs, t) - CountWithIdAndStatus(cs, id, t)
  {
    if cs != [] {
      var after := WithStatus(cs, id, s);
      UpdateStatusLeavesTab(cs[1..], id, s, t);
      assert after[1..] == WithStatus(cs[1..], id, s);
      Seqs.CountCons(cs, (c: Conversation) => c.status == t);
      Seqs.CountCons(after, (c: Conversation) => c.status == t);
      Seqs.CountCons(cs, (c: Conversation) => c.id == id && c.status == t);
    }
  }

  /** Setting status `s` brings into tab `s` every conversation with `id` that was elsewhere. */
  lemma {:induction false} UpdateStatusEntersTab(cs: seq<Conversation>, id: string, s: ConversationStatus)
    ensures CountInTab(WithStatus(cs, id, s), s) == CountInTab(cs, s) + CountWithIdNotInTab(cs, id, s)
  {
    if cs != [] {
      var after := WithStatus(cs, id, s);
      UpdateStatusEntersTab(cs[1..], id, s);
      assert after[1..] == WithStatus(cs[1..], id, s);
      Seqs.CountCons(cs, (c: Conversation) => c.status == s);
      Seqs.CountCons(after, (c: Conversation) => c.status == s);
      Seqs.CountCons(cs, (c: Conversation) => c.id == id && c.status != s);
    }
  }

  /**
   * The send button as the page wires it: the chat view's `handleSend` passes
   * the untrimmed draft to the container's `sendMessage`, which trims it again.
   * The draft is cleared whenever it is not blank, also when the send is a
   * no-op because no id is active. The page shows the compose box only while
   * `activeConversation` exists (src/components/ChatView.tsx:70-82), so there
   * that case needs the active id to be the empty string and some
   * conversation to have the id "".
   */
  method SendDraft(composer: ChatView.Composer, chat: ChatState, messageId: string, sentAt: int, lastMessageAt: int)
    returns (pending: Option<PendingDelivery>)
    modifies composer`draft, chat`conversations
    ensures Trim(old(composer.draft)) == "" ==>
      composer.draft == old(composer.draft) && chat.conversations == old(chat.conversations) && pending.None?
    ensures Trim(old(composer.draft)) != "" ==> composer.draft == ""
    ensures Trim(old(composer.draft)) != "" && !old(chat.HasActiveId()) ==>
      chat.conversations == old(chat.conversations) && pending.None?
    ensures Trim(old(composer.draft)) != "" && old(chat.HasActiveId()) ==>
      && pending == Some(PendingDelivery(chat.activeConversationId.value, messageId))
      && chat.conversations == WithMessageAppended(old(chat.conversations), chat.activeConversationId.value,
           Message(messageId, Trim(old(composer.draft)), sentAt, true, Some(Sent), Some(ContentKind.Text)), lastMessageAt)
  {
    var sent := composer.HandleSend();
    if sent.Some? {
      pending := chat.SendMessage(sent.value, messageId, sentAt, lastMessageAt);
    } else {
      pending := None;
    }
  }
}
