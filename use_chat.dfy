/**
 * The conversation state container (`useChat`): the conversation list, the
 * active conversation id, the active status tab and the search string, the two
 * derived views and the mutations. Each mutation replaces the list by a
 * rewrite of the matching elements; the rewrites are the functions below.
 */
module UseChat {
  import opened Wrappers
  import opened Text
  import opened Types
  import Seqs

  /** The author name `addNote` records. */
  const NoteAuthor := "Sie"

  // ---------------------------------------------------------------------------
  // List rewrites

  /** `prev.map((conv) => conv.id === id ? f(conv) : conv)`. */
  function UpdateWhere(cs: seq<Conversation>, id: string, f: Conversation -> Conversation): (r: seq<Conversation>)
    ensures |r| == |cs|
    ensures forall i :: 0 <= i < |cs| ==> r[i] == if cs[i].id == id then f(cs[i]) else cs[i]
  {
    seq(|cs|, i requires 0 <= i < |cs| => if cs[i].id == id then f(cs[i]) else cs[i])
  }

  /** Rewriting with an idempotent, id-preserving step twice is rewriting once. */
  lemma UpdateWhereIdempotent(cs: seq<Conversation>, id: string, f: Conversation -> Conversation)
    requires forall c :: f(c).id == c.id && f(f(c)) == f(c)
    ensures UpdateWhere(UpdateWhere(cs, id, f), id, f) == UpdateWhere(cs, id, f)
  {
  }

  /** `updateConversationStatus`'s rewrite: only the status of the conversations with `id` changes. */
  function WithStatus(cs: seq<Conversation>, id: string, s: ConversationStatus): (r: seq<Conversation>)
    ensures |r| == |cs|
    ensures forall i :: 0 <= i < |cs| ==> r[i].status == if cs[i].id == id then s else cs[i].status
    ensures forall i :: 0 <= i < |cs| ==> r[i].(status := cs[i].status) == cs[i]
  {
    UpdateWhere(cs, id, (c: Conversation) => c.(status := s))
  }

  /** `markAsRead`'s rewrite: only the unread counter of the conversations with `id` changes, to 0. */
  function WithUnreadCleared(cs: seq<Conversation>, id: string): (r: seq<Conversation>)
    ensures |r| == |cs|
    ensures forall i :: 0 <= i < |cs| ==> r[i].unreadCount == if cs[i].id == id then 0 else cs[i].unreadCount
    ensures forall i :: 0 <= i < |cs| ==> r[i].(unreadCount := cs[i].unreadCount) == cs[i]
  {
    UpdateWhere(cs, id, (c: Conversation) => c.(unreadCount := 0))
  }

  /** Setting a status twice is setting it once. */
  lemma WithStatusIdempotent(cs: seq<Conversation>, id: string, s: ConversationStatus)
    ensures WithStatus(WithStatus(cs, id, s), id, s) == WithStatus(cs, id, s)
  {
    UpdateWhereIdempotent(cs, id, (c: Conversation) => c.(status := s));
  }

  /** Marking as read twice is marking once. */
  lemma WithUnreadClearedIdempotent(cs: seq<Conversation>, id: string)
    ensures WithUnreadCleared(WithUnreadCleared(cs, id), id) == WithUnreadCleared(cs, id)
  {
    UpdateWhereIdempotent(cs, id, (c: Conversation) => c.(unreadCount := 0));
  }

  /**
   * `sendMessage`'s rewrite: the conversations with `id` get `m` appended, and
   * their preview becomes its text; notes, status and unread counter stay.
   */
  function WithMessageAppended(cs: seq<Conversation>, id: string, m: Message, lastTime: int): (r: seq<Conversation>)
    ensures |r| == |cs|
    ensures forall i :: 0 <= i < |cs| && cs[i].id != id ==> r[i] == cs[i]
    ensures forall i :: 0 <= i < |cs| && cs[i].id == id ==>
      && r[i].messages == cs[i].messages + [m]
      && r[i].lastMessage == r[i].messages[|r[i].messages| - 1].text
      && r[i].lastMessageTime == lastTime
      && r[i].(messages := cs[i].messages, lastMessage := cs[i].lastMessage, lastMessageTime := cs[i].lastMessageTime) == cs[i]
  {
    UpdateWhere(cs, id, (c: Conversation) => c.(messages := c.messages + [m], lastMessage := m.text, lastMessageTime := lastTime))
  }

  /** `addNote`'s rewrite: the conversations with `id` get `n` appended to their notes, a missing list read as empty. */
  function WithNoteAppended(cs: seq<Conversation>, id: string, n: Note): (r: seq<Conversation>)
    ensures |r| == |cs|
    ensures forall i :: 0 <= i < |cs| && cs[i].id != id ==> r[i] == cs[i]
    ensures forall i :: 0 <= i < |cs| && cs[i].id == id ==>
      && r[i].notes == Some(NotesOf(cs[i]) + [n])
      && r[i].(notes := cs[i].notes) == cs[i]
  {
    UpdateWhere(cs, id, (c: Conversation) => c.(notes := Some(NotesOf(c) + [n])))
  }

  /** `messages.map((msg) => msg.id === msgId ? { ...msg, status: 'delivered' } : msg)`. */
  function MarkDelivered(ms: seq<Message>, msgId: string): (r: seq<Message>)
    ensures |r| == |ms|
    ensures forall k :: 0 <= k < |ms| && ms[k].id != msgId ==> r[k] == ms[k]
    ensures forall k :: 0 <= k < |ms| && ms[k].id == msgId ==> r[k] == ms[k].(status := Some(Delivered))
  {
    seq(|ms|, k requires 0 <= k < |ms| => if ms[k].id == msgId then ms[k].(status := Some(Delivered)) else ms[k])
  }

  /** The delivery step's rewrite: in the conversations with `convId`, the messages with `msgId` become delivered. */
  function WithMessageDelivered(cs: seq<Conversation>, convId: string, msgId: string): (r: seq<Conversation>)
    ensures |r| == |cs|
    ensures forall i :: 0 <= i < |cs| && cs[i].id != convId ==> r[i] == cs[i]
    ensures forall i :: 0 <= i < |cs| && cs[i].id == convId ==>
      r[i] == cs[i].(messages := MarkDelivered(cs[i].messages, msgId))
  {
    UpdateWhere(cs, convId, (c: Conversation) => c.(messages := MarkDelivered(c.messages, msgId)))
  }

  /** A conversation holds a message with id `msgId`. */
  predicate HasMessage(c: Conversation, msgId: string) {
    exists k :: 0 <= k < |c.messages| && c.messages[k].id == msgId
  }

  /** When the target message is gone (or its conversation is), the delivery step changes nothing. */
  lemma DeliveredMissingIsNoop(cs: seq<Conversation>, convId: string, msgId: string)
    requires forall i :: 0 <= i < |cs| && cs[i].id == convId ==> !HasMessage(cs[i], msgId)
    ensures WithMessageDelivered(cs, convId, msgId) == cs
  {
    var r := WithMessageDelivered(cs, convId, msgId);
    forall i | 0 <= i < |cs| ensures r[i] == cs[i] {
      if cs[i].id == convId {
        assert MarkDelivered(cs[i].messages, msgId) == cs[i].messages;
      }
    }
  }

  /**
   * Sending a message whose id is new and then delivering it is the same as
   * having sent it already delivered: the step touches that message only.
   */
  lemma SendThenDeliver(cs: seq<Conversation>, id: string, m: Message, lastTime: int)
    requires forall i :: 0 <= i < |cs| && cs[i].id == id ==> !HasMessage(cs[i], m.id)
    ensures WithMessageDelivered(WithMessageAppended(cs, id, m, lastTime), id, m.id)
         == WithMessageAppended(cs, id, m.(status := Some(Delivered)), lastTime)
  {
    var sent := WithMessageAppended(cs, id, m, lastTime);
    var lhs := WithMessageDelivered(sent, id, m.id);
    var rhs := WithMessageAppended(cs, id, m.(status := Some(Delivered)), lastTime);
    forall i | 0 <= i < |cs| ensures lhs[i] == rhs[i] {
      if cs[i].id == id {
        var ms := cs[i].messages;
        assert MarkDelivered(ms + [m], m.id) == ms + [m.(status := Some(Delivered))] by {
          forall k | 0 <= k < |ms| ensures ms[k].id != m.id {
            assert !HasMessage(cs[i], m.id);
          }
        }
      }
    }
  }

  /** Delivering twice is delivering once. */
  lemma WithMessageDeliveredIdempotent(cs: seq<Conversation>, convId: string, msgId: string)
    ensures WithMessageDelivered(WithMessageDelivered(cs, convId, msgId), convId, msgId)
         == WithMessageDelivered(cs, convId, msgId)
  {
    var once := WithMessageDelivered(cs, convId, msgId);
    var twice := WithMessageDelivered(once, convId, msgId);
    forall i | 0 <= i < |cs| ensures twice[i] == once[i] {
      if cs[i].id == convId {
        assert MarkDelivered(MarkDelivered(cs[i].messages, msgId), msgId) == MarkDelivered(cs[i].messages, msgId);
      }
    }
  }

  // ---------------------------------------------------------------------------
  // Derived views

  /** The index of the first conversation with id `id` (`Array.prototype.find`), if any. */
  function FirstWithId(cs: seq<Conversation>, id: string): (r: Option<nat>)
    ensures r.Some? ==> r.value < |cs| && cs[r.value].id == id
    ensures r.Some? ==> forall j :: 0 <= j < r.value ==> cs[j].id != id
    ensures r.None? <==> forall j :: 0 <= j < |cs| ==> cs[j].id != id
  {
    if cs == [] then None
    else if cs[0].id == id then Some(0)
    else match FirstWithId(cs[1..], id)
      case None => None
      case Some(k) => Some(k + 1)
  }

  /** The search part of the list filter: empty, or name / preview case-insensitively, or phone raw. */
  predicate MatchesSearch(c: Conversation, query: string): (b: bool)
    ensures b <==>
      || query == ""
      || (exists i: nat :: OccursAt(ToLower(c.contactName), ToLower(query), i))
      || (exists i: nat :: OccursAt(c.contactPhone, query, i))
      || (exists i: nat :: OccursAt(ToLower(c.lastMessage), ToLower(query), i))
  {
    ContainsIffOccurs(ToLower(c.contactName), ToLower(query));
    ContainsIffOccurs(c.contactPhone, query);
    ContainsIffOccurs(ToLower(c.lastMessage), ToLower(query));
    || query == ""
    || ContainsIgnoringCase(c.contactName, query)
    || Contains(c.contactPhone, query)
    || ContainsIgnoringCase(c.lastMessage, query)
  }

  /** A conversation is listed when it is in the active tab and matches the search. */
  predicate ConversationVisible(c: Conversation, tab: TabFilter, query: string): (b: bool)
    ensures b ==> c.status == tab
    ensures query == "" ==> (b <==> c.status == tab)
  {
    c.status == tab && MatchesSearch(c, query)
  }

  /** `filteredConversations` as a function of the list, the tab and the search string. */
  function FilterConversations(cs: seq<Conversation>, tab: TabFilter, query: string): (r: seq<Conversation>)
    ensures Seqs.IsSubsequence(r, cs)
    ensures forall c :: c in r ==> c.status == tab && MatchesSearch(c, query)
    ensures forall c :: c in cs && c.status == tab && MatchesSearch(c, query) ==> c in r
    ensures forall c :: c in cs ==> multiset(r)[c] == if c.status == tab && MatchesSearch(c, query) then multiset(cs)[c] else 0
  {
    Seqs.Filter(cs, c => ConversationVisible(c, tab, query))
  }

  /** The conversations with status `tab`, in list order. */
  function ConversationsInTab(cs: seq<Conversation>, tab: TabFilter): (r: seq<Conversation>)
    ensures Seqs.IsSubsequence(r, cs)
    ensures forall c :: c in r ==> c.status == tab
    ensures forall c :: c in cs && c.status == tab ==> c in r
    ensures forall c :: c in cs ==> multiset(r)[c] == if c.status == tab then multiset(cs)[c] else 0
  {
    Seqs.Filter(cs, (c: Conversation) => c.status == tab)
  }

  /** With an empty search the list is exactly the conversations of the active tab. */
  lemma EmptySearchListsTab(cs: seq<Conversation>, tab: TabFilter)
    ensures FilterConversations(cs, tab, "") == ConversationsInTab(cs, tab)
  {
    Seqs.FilterCongruent(cs, c => ConversationVisible(c, tab, ""), (c: Conversation) => c.status == tab);
  }

  /** A raw hit on name or preview is a hit too, so the case-insensitive match only widens it. */
  lemma RawHitMatches(c: Conversation, query: string)
    requires Contains(c.contactName, query) || Contains(c.lastMessage, query)
    ensures MatchesSearch(c, query)
  {
    if Contains(c.contactName, query) {
      ContainsImpliesContainsIgnoringCase(c.contactName, query);
    } else {
      ContainsImpliesContainsIgnoringCase(c.lastMessage, query);
    }
  }

  /** Searching "lisa" finds "Lisa Schmidt" by name, although the raw substring test fails. */
  lemma SearchFindsNameIgnoringCase(c: Conversation)
    requires c.contactName == "Lisa Schmidt"
    ensures MatchesSearch(c, "lisa")
    ensures !Contains(c.contactName, "lisa")
  {
    var name := c.contactName;
    assert OccursAt(ToLower(name), ToLower("lisa"), 0) by {
      assert ToLower("lisa") == "lisa";
      assert ToLower(name)[..4] == "lisa" by {
        assert ToLower(name)[0] == 'l';
      }
    }
    assert forall k :: 0 <= k < |name| ==> name[k] != 'l';
    MissingFirstCharNotContained(name, "lisa");
  }

  /** Searching "+49 151" finds a conversation by the raw phone number. */
  lemma SearchFindsPhone(c: Conversation)
    requires c.contactPhone == "+49 151 2345678"
    ensures MatchesSearch(c, "+49 151")
  {
    assert OccursAt(c.contactPhone, "+49 151", 0);
    ContainsIffOccurs(c.contactPhone, "+49 151");
  }

  /** What the delivery timer captured: the conversation active at send time and the new message's id. */
  datatype PendingDelivery = PendingDelivery(conversationId: string, messageId: string)

  // ---------------------------------------------------------------------------
  // The container

  class ChatState {
    var conversations: seq<Conversation>
    var activeConversationId: Option<string>
    var activeTab: TabFilter
    var searchQuery: string

    /** `initialConversations[0]?.id || null`; the tab starts on "open", the search empty. */
    constructor (initial: seq<Conversation>)
      ensures conversations == initial
      ensures activeConversationId == if initial != [] && initial[0].id != "" then Some(initial[0].id) else None
      ensures activeTab == Open && searchQuery == ""
    {
      conversations := initial;
      activeConversationId := if initial != [] && initial[0].id != "" then Some(initial[0].id) else None;
      activeTab := Open;
      searchQuery := "";
    }

    /** `!activeConversationId` is false: an id is set and it is not the empty string. */
    predicate HasActiveId(): (b: bool)
      reads this
      ensures b <==> activeConversationId !in {None, Some("")}
    {
      activeConversationId.Some? && activeConversationId.value != ""
    }

    /** No conversation before index `i` has the active id. */
    predicate FirstActive(i: nat)
      reads this
    {
      forall j :: 0 <= j < i && j < |conversations| ==> Some(conversations[j].id) != activeConversationId
    }

    /** `activeConversation`: the first conversation whose id is the active id, or none. */
    function ActiveConversation(): (r: Option<Conversation>)
      reads this
      ensures activeConversationId.None? ==> r.None?
      ensures r.Some? ==> activeConversationId == Some(r.value.id) && r.value in conversations
      ensures r.Some? ==> exists i :: 0 <= i < |conversations| && conversations[i] == r.value && FirstActive(i)
      ensures r.None? <==> forall j :: 0 <= j < |conversations| ==> Some(conversations[j].id) != activeConversationId
    {
      match activeConversationId
      case None => None
      case Some(id) =>
        match FirstWithId(conversations, id)
        case None => None
        case Some(i) => Some(conversations[i])
    }

    /** `filteredConversations` (returned as `conversations`). */
    function FilteredConversations(): (r: seq<Conversation>)
      reads this
      ensures Seqs.IsSubsequence(r, conversations)
      ensures forall c :: c in r ==> c.status == activeTab && MatchesSearch(c, searchQuery)
      ensures forall c :: c in conversations && c.status == activeTab && MatchesSearch(c, searchQuery) ==> c in r
      ensures forall c :: c in conversations ==>
        multiset(r)[c] == if c.status == activeTab && MatchesSearch(c, searchQuery) then multiset(conversations)[c] else 0
      ensures searchQuery == "" ==> r == ConversationsInTab(conversations, activeTab)
    {
      EmptySearchListsTab(conversations, activeTab);
      FilterConversations(conversations, activeTab, searchQuery)
    }

    /** `setActiveTab`. */
    method SetActiveTab(tab: TabFilter)
      modifies this`activeTab
      ensures activeTab == tab
    {
      activeTab := tab;
    }

    /** `setSearchQuery`. */
    method SetSearchQuery(query: string)
      modifies this`searchQuery
      ensures searchQuery == query
    {
      searchQuery := query;
    }

    /**
     * `sendMessage(text)`. The clock reads and the `Date.now()` id are the
     * parameters `messageId`, `sentAt` (the message timestamp) and
     * `lastMessageAt` (the preview timestamp, a second clock read). The
     * returned delivery is what the timer will later apply with `Deliver`.
     */
    method SendMessage(text: string, messageId: string, sentAt: int, lastMessageAt: int) returns (pending: Option<PendingDelivery>)
      modifies this`conversations
      ensures !old(HasActiveId()) || Trim(text) == "" ==> conversations == old(conversations) && pending.None?
      ensures old(HasActiveId()) && Trim(text) != "" ==>
        && pending == Some(PendingDelivery(activeConversationId.value, messageId))
        && conversations == WithMessageAppended(old(conversations), activeConversationId.value,
             Message(messageId, Trim(text), sentAt, true, Some(Sent), Some(ContentKind.Text)), lastMessageAt)
    {
      if !HasActiveId() || Trim(text) == "" {
        return None;
      }
      var id := activeConversationId.value;
      var newMessage := Message(messageId, Trim(text), sentAt, true, Some(Sent), Some(ContentKind.Text));
      conversations := WithMessageAppended(conversations, id, newMessage, lastMessageAt);
      pending := Some(PendingDelivery(id, messageId));
    }

    /** The timer callback of `sendMessage`, applied to the state current when it fires. */
    method Deliver(p: PendingDelivery)
      modifies this`conversations
      ensures conversations == WithMessageDelivered(old(conversations), p.conversationId, p.messageId)
    {
      conversations := WithMessageDelivered(conversations, p.conversationId, p.messageId);
    }

    /** `addNote(text)`; the id and the creation time are parameters. */
    method AddNote(text: string, noteId: string, createdAt: int)
      modifies this`conversations
      ensures !old(HasActiveId()) || Trim(text) == "" ==> conversations == old(conversations)
      ensures old(HasActiveId()) && Trim(text) != "" ==>
        conversations == WithNoteAppended(old(conversations), activeConversationId.value,
          Note(noteId, Trim(text), createdAt, NoteAuthor))
    {
      if !HasActiveId() || Trim(text) == "" {
        return;
      }
      var newNote := Note(noteId, Trim(text), createdAt, NoteAuthor);
      conversations := WithNoteAppended(conversations, activeConversationId.value, newNote);
    }

    /** `updateConversationStatus(id, status)`. */
    method UpdateConversationStatus(id: string, status: ConversationStatus)
      modifies this`conversations
      ensures conversations == WithStatus(old(conversations), id, status)
    {
      conversations := WithStatus(conversations, id, status);
    }

    /** `markAsRead(id)`. */
    method MarkAsRead(id: string)
      modifies this`conversations
      ensures conversations == WithUnreadCleared(old(conversations), id)
    {
      conversations := WithUnreadCleared(conversations, id);
    }

    /** `selectConversation(id)`: the id becomes active even when no conversation has it. */
    method SelectConversation(id: string)
      modifies this`activeConversationId, this`conversations
      ensures activeConversationId == Some(id)
      ensures conversations == WithUnreadCleared(old(conversations), id)
      ensures ActiveConversation().Some? ==> ActiveConversation().value.unreadCount == 0
      ensures ActiveConversation().Some? <==> exists j :: 0 <= j < |old(conversations)| && old(conversations)[j].id == id
    {
      activeConversationId := Some(id);
      MarkAsRead(id);
      ghost var r := ActiveConversation();
      if r.Some? {
        var i := FirstWithId(conversations, id).value;
        assert conversations[i].id == id;
      }
    }
  }
}
