/**
 * The domain records of the inbox. Timestamps (`Date`) are milliseconds since
 * the epoch; optional fields (`field?: T`) are `Option`s.
 */
module Types {
  import opened Wrappers

  /** A conversation's status: exactly one of three values. */
  datatype ConversationStatus = Open | Snoozed | Done

  /** The status tabs of the conversation list: the same three values. */
  type TabFilter = ConversationStatus

  /** The delivery status of an outgoing message. */
  datatype DeliveryStatus = Sent | Delivered | Read

  /** The content kind of a message (`type` in the source). */
  datatype ContentKind = Text | Template | Image | Unsupported

  datatype Message = Message(
    id: string,
    text: string,
    timestamp: int,
    isOutgoing: bool,
    status: Option<DeliveryStatus>,
    kind: Option<ContentKind>)

  datatype Note = Note(id: string, text: string, createdAt: int, author: string)

  datatype Conversation = Conversation(
    id: string,
    contactName: string,
    contactPhone: string,
    avatar: Option<string>,
    lastMessage: string,
    lastMessageTime: int,
    unreadCount: int,
    status: ConversationStatus,
    labels: Option<seq<string>>,
    messages: seq<Message>,
    notes: Option<seq<Note>>)

  datatype WhatsAppTemplate = WhatsAppTemplate(
    id: string,
    name: string,
    category: string,
    content: string,
    variables: Option<seq<string>>)

  datatype User = User(id: string, name: string, email: string, avatar: Option<string>, organization: string)

  /** `conv.notes || []`: a missing note list reads as the empty one. */
  function NotesOf(c: Conversation): (ns: seq<Note>)
    ensures c.notes.None? ==> ns == []
    ensures c.notes.Some? ==> ns == c.notes.value
  {
    c.notes.GetOr([])
  }
}
