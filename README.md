# Inbox core of a WhatsApp-Business-style helpdesk UI, modelled in Dafny

The system is a front-end mock-up of a business messaging inbox: a list of
conversations split into three status tabs (open, snoozed, done) with a
search box, a message thread with date separators and delivery ticks, canned
reply templates, and internal notes. All data lives in memory.

This project models its logic:

- `UseChat` (`src/hooks/useChat.ts`): the state container, as the class
  `ChatState` with the four state fields (conversation list, active
  conversation id, active tab, search string), the derived views
  `ActiveConversation` and `FilteredConversations`, and the mutations
  `SendMessage`, `Deliver` (the delayed "mark as delivered" callback, as an
  explicit step), `AddNote`, `UpdateConversationStatus`, `MarkAsRead` and
  `SelectConversation`. Each mutation replaces the list by a rewrite of the
  matching conversations (`WithMessageAppended`, `WithMessageDelivered`,
  `WithNoteAppended`, `WithStatus`, `WithUnreadCleared`); the lemmas about
  these rewrites state the frames, idempotence and the send/deliver relation.
- `Utils` (`src/lib/utils.ts`): relative-time bucketing, the calendar-day
  label of a thread separator, and the class-name joiner `cn`.
- `ChatView` (`src/components/ChatView.tsx`): the date-grouping pass over a
  thread (a loop, proved against the properties that determine its result
  uniquely), the compose box (`handleSend`, `handleSelectTemplate`) and the
  delivery tick of a bubble.
- `TemplateModal` (`src/components/TemplateModal.tsx`): the category list,
  the template filter, the preview and the placeholder chips.
- `HomePage` (`src/app/page.tsx`): the per-tab counters and the wiring of the
  send button to the container.
- `Types` (`src/types/index.ts`): the records and enumerations.
- Helper modules with no source file of their own: `Wrappers` (an `Option`
  type for `T | null` and optional fields), `Text` (the JavaScript string
  primitives `trim`, `toLowerCase`, `includes`, `join` and `split`) and
  `Seqs` (`filter`, order-preserving sub-lists, `Array.from(new Set(..))`).

Modelling choices:

- Timestamps (`Date`) are integers: milliseconds since the epoch. A calendar
  day is `DayNumber(ms) = floor(ms / 86 400 000)`.
- The clock (`Date.now()`, `new Date()`) and the ids made from it are
  parameters of the operations that read them. `sendMessage` reads the clock
  twice, once for the message timestamp and once for `lastMessageTime`, so
  `SendMessage` takes two times. The ids come from milliseconds, so two sends
  in the same millisecond share an id. The delivery step then marks both
  messages, and the model shows this (`MarkDelivered` changes every message
  with the id).
- `Math.floor(x / k)` with `k > 0` is Dafny's `x / k`; they agree for
  negative `x` too, which is where a future timestamp lands.
- `!activeConversationId` holds for `null` and for the empty string, and
  `HasActiveId` says the same. `selectConversation("")` therefore makes the
  id active, but send and add-note still do nothing.
- The delivery timer closes over the id that was active at send time and
  over the new message's id. `SendMessage` returns these as a
  `PendingDelivery`, and `Deliver` applies them to whatever state is current
  when it runs.
- The delivery step sets `delivered` whatever the message's status is. A
  message already marked `read` would drop back to `delivered`. The model
  keeps this.
- Locale strings are kept as constructors that carry what the string
  depends on. `AbsoluteDate` holds no value; the caller supplies its text to
  `DistanceText`. `WeekdayName(weekday)` stands for the weekday name and
  `FullDate(day)` for the day/month/year text. Label equality in the
  grouping is therefore the source's string equality. A consequence:
  `formatDate` gives future days the weekday name too, so five days ahead
  and two days back get the same label (`FutureDayLabelRecurs`).
- Only `sendMessage` sets `lastMessage` and `lastMessageTime`, so only
  `WithMessageAppended` states that the list preview equals the last message.
- `cn` takes `string | boolean | undefined | null`. `true` is truthy, so it
  is kept and joined as the text `"true"`.

## Model

| member | source | states |
|---|---|---|
| Types.NotesOf | src/types/index.ts:21 | a missing note list reads as the empty list, a present one as itself |
| Text.LowerChar | src/hooks/useChat.ts:21 | an upper-case ASCII letter becomes the lower-case letter 32 code points further on; every other character is unchanged |
| Text.ToLower | src/hooks/useChat.ts:21 | same length; each character is lower-cased on its own, in place |
| Text.Contains | src/hooks/useChat.ts:22 | the empty needle is always contained; a contained needle is no longer than the text |
| Text.ContainsIffOccurs | src/hooks/useChat.ts:21-23 | the text contains the needle exactly when the needle occurs at some index of the text |
| Text.MissingFirstCharNotContained | src/hooks/useChat.ts:21-23 | a non-empty needle whose first character never appears in the text is not contained in it |
| Text.Trim | src/hooks/useChat.ts:29 | the trimmed text is empty exactly when every character is whitespace; otherwise it starts and ends with non-whitespace; it occurs in the input at an index a with only whitespace before a and after its end, so only leading and trailing whitespace is removed |
| Text.SplitJoin | src/lib/utils.ts:61 | splitting a join on a separator that no part contains gives the parts back |
| Seqs.Filter | src/hooks/useChat.ts:17 | the result is an order-preserving sub-list of the input; every element satisfying the predicate occurs in it as often as in the input, every other element not at all |
| Seqs.Distinct | src/components/TemplateModal.tsx:17 | no duplicates; exactly the elements of the input; ordered by first appearance |
| Utils.FormatDistanceToNow | src/lib/utils.ts:1-30 | elapsed time below 60 s (negative included) is "just now"; 1 min to below 60 min gives minutes n = floor(ms/60000), 1 ≤ n ≤ 59; 1 h to below 24 h gives hours, 1 ≤ n ≤ 23; 24 h to below 7 d gives days, 1 ≤ n ≤ 6; 7 d or more gives the absolute date; each bucket holds exactly its interval |
| Utils.FormatDistanceMonotone | src/lib/utils.ts:3-22 | more elapsed time never gives an earlier bucket, nor a smaller count within the same bucket |
| Utils.DayWord | src/lib/utils.ts:21 | the word is "Tag" exactly when n = 1, otherwise "Tagen" |
| Utils.DistanceText | src/lib/utils.ts:5-29 | the texts "Gerade eben", "vor n Min.", "vor n Std.", "vor n Tag/Tagen", or the locale date |
| Utils.ParseDecimalOfDecimal | src/lib/utils.ts:11 | reading back the decimal numeral a template literal writes gives the number |
| Utils.DistanceTextInjective | src/lib/utils.ts:5-22 | two relative texts are equal only when bucket and count are equal |
| Utils.FormatDate | src/lib/utils.ts:39-58 | with d = today's day minus the message's day: d = 0 gives today, d = 1 yesterday, any other d < 7 (negative included) the weekday of the message day, d ≥ 7 the full date of the message day |
| Utils.FutureDayLabelRecurs | src/lib/utils.ts:49-50 | a day five days ahead and a day two days back get the same weekday label |
| Utils.Truthy | src/lib/utils.ts:61 | a string entry is kept exactly when it is non-empty, a boolean exactly when it is true; undefined and null are never kept |
| Utils.ClassText | src/lib/utils.ts:61 | a string entry is written as itself; a kept entry is never written as the empty string |
| Utils.KeptClasses | src/lib/utils.ts:61 | one text per truthy entry, in order: the i-th text is the JavaScript String() of the i-th truthy entry; none of them is the empty string |
| Utils.Cn | src/lib/utils.ts:60-62 | with no truthy entry the result is the empty string |
| Utils.CnWords | src/lib/utils.ts:60-62 | when no entry contains a space, splitting the result on spaces gives exactly the truthy entries in order, all non-empty (single spaces, none leading or trailing) |
| UseChat.UpdateWhere | src/hooks/useChat.ts:100 | the list keeps its length and order; conversations with the id are rewritten, all others stay |
| UseChat.UpdateWhereIdempotent | src/hooks/useChat.ts:108 | rewriting twice with an idempotent id-preserving step equals rewriting once |
| UseChat.WithStatus | src/hooks/useChat.ts:97-104 | same length; conversations with the id get the new status, all others keep theirs; nothing but the status changes |
| UseChat.WithStatusIdempotent | src/hooks/useChat.ts:100 | setting a status twice equals setting it once |
| UseChat.WithUnreadCleared | src/hooks/useChat.ts:106-110 | same length; conversations with the id get unread count 0, others keep theirs; nothing but the counter changes |
| UseChat.WithUnreadClearedIdempotent | src/hooks/useChat.ts:108 | marking as read twice equals marking once |
| UseChat.WithMessageAppended | src/hooks/useChat.ts:40-51 | conversations with the id get the message appended and a preview equal to the new last message's text and the given time; notes, status, unread count and all other conversations are unchanged |
| UseChat.WithNoteAppended | src/hooks/useChat.ts:83-92 | conversations with the id get the note appended to their notes (a missing list read as empty); messages and all other conversations are unchanged |
| UseChat.MarkDelivered | src/hooks/useChat.ts:60-62 | messages with the id become delivered, all others are unchanged, the length is kept |
| UseChat.WithMessageDelivered | src/hooks/useChat.ts:54-67 | only the messages with the id, inside the conversations with the captured id, change |
| UseChat.DeliveredMissingIsNoop | src/hooks/useChat.ts:54-67 | when the message id is no longer present, delivery changes nothing |
| UseChat.WithMessageDeliveredIdempotent | src/hooks/useChat.ts:54-67 | delivering twice equals delivering once |
| UseChat.SendThenDeliver | src/hooks/useChat.ts:31-67 | sending a message with a fresh id and then delivering it equals sending it already delivered: the timer touches that message alone |
| UseChat.FirstWithId | src/hooks/useChat.ts:15 | the result is the first index with the id, or none when no conversation has it |
| UseChat.MatchesSearch | src/hooks/useChat.ts:19-23 | matches exactly when the query is empty, or the lower-cased query occurs in the lower-cased name, or the raw query occurs in the raw phone, or the lower-cased query occurs in the lower-cased preview |
| UseChat.ConversationVisible | src/hooks/useChat.ts:18-24 | a visible conversation has the tab's status; with an empty query a conversation is visible exactly when it has the tab's status |
| UseChat.FilterConversations | src/hooks/useChat.ts:17-25 | an order-preserving sub-list; each conversation with the active tab's status that matches the search occurs as often as in the input, every other one not at all |
| UseChat.ConversationsInTab | src/hooks/useChat.ts:18 | an order-preserving sub-list; each conversation with the status occurs as often as in the input, every other one not at all |
| UseChat.EmptySearchListsTab | src/hooks/useChat.ts:20 | with an empty search the list is exactly the conversations of the active tab |
| UseChat.RawHitMatches | src/hooks/useChat.ts:20-23 | a raw substring hit on name or preview also matches the case-insensitive search |
| UseChat.SearchFindsNameIgnoringCase | src/hooks/useChat.ts:21 | "lisa" finds "Lisa Schmidt" by name, although the raw substring test fails |
| UseChat.SearchFindsPhone | src/hooks/useChat.ts:22 | "+49 151" finds a conversation by its phone number |
| UseChat.ChatState.constructor | src/hooks/useChat.ts:8-13 | the list is the initial one; the active id is the first conversation's id when that is non-empty, else none; tab open; search empty |
| UseChat.ChatState.ActiveConversation | src/hooks/useChat.ts:15 | the first conversation whose id equals the active id; none when no id is active or none matches |
| UseChat.ChatState.FilteredConversations | src/hooks/useChat.ts:17-25 | an order-preserving sub-list of the conversations; each one in the active tab that matches the search string occurs as often as in the list, every other one not at all; with an empty search exactly the tab's conversations |
| UseChat.ChatState.SetActiveTab | src/hooks/useChat.ts:12 | the tab is the given one; nothing else changes |
| UseChat.ChatState.SetSearchQuery | src/hooks/useChat.ts:13 | the search string is the given one; nothing else changes |
| UseChat.ChatState.HasActiveId | src/hooks/useChat.ts:29 | holds exactly when the active id is neither missing nor the empty string (the `!activeConversationId` guard, also at line 74) |
| UseChat.ChatState.SendMessage | src/hooks/useChat.ts:27-51 | no-op without an active id or with blank text; otherwise appends one outgoing, sent, text message with the trimmed text to the active conversation, and returns the delivery to schedule |
| UseChat.ChatState.Deliver | src/hooks/useChat.ts:54-67 | the new list is the delivery rewrite of the current one, for the captured conversation and message ids |
| UseChat.ChatState.AddNote | src/hooks/useChat.ts:72-95 | no-op without an active id or with blank text; otherwise appends one note with the trimmed text and author "Sie" to the active conversation |
| UseChat.ChatState.UpdateConversationStatus | src/hooks/useChat.ts:97-104 | the new list is the status rewrite; selection, tab and search are unchanged |
| UseChat.ChatState.MarkAsRead | src/hooks/useChat.ts:106-110 | the new list is the unread-clearing rewrite; selection, tab and search are unchanged |
| UseChat.ChatState.SelectConversation | src/hooks/useChat.ts:112-118 | the id becomes active even when no conversation has it; the unread counters of its conversations become 0; the active conversation exists exactly when some conversation has the id, and its counter is 0 |
| ChatView.LabelOf | src/components/ChatView.tsx:89 | a message is labelled today exactly when it lies on today's calendar day |
| ChatView.GroupByDate | src/components/ChatView.tsx:84-96 | concatenating the groups gives the messages back exactly; every group is non-empty and its messages carry its label; adjacent groups differ in label; no messages give no groups; never more groups than messages |
| ChatView.GroupingUnique | src/components/ChatView.tsx:84-96 | two groupings with those properties of the same messages are equal, so the properties determine the result |
| ChatView.LabelRecursWhenUnsorted | src/components/ChatView.tsx:88-96 | messages from today, yesterday and today give three groups, the first and last both labelled today: nothing is sorted |
| ChatView.Composer.constructor | src/components/ChatView.tsx:42-43 | the draft starts empty and the picker closed |
| ChatView.Composer.HandleSend | src/components/ChatView.tsx:51-56 | with a non-blank draft, passes the untrimmed draft on and clears it; with a blank one, passes nothing and keeps the draft |
| ChatView.Composer.HandleSelectTemplate | src/components/ChatView.tsx:65-68 | the draft becomes the template body verbatim and the picker closes |
| ChatView.StatusTick | src/components/ChatView.tsx:233-273 | a tick shows exactly for an outgoing, supported message with a status; read and delivered show a double tick (blue exactly for read), sent a single tick |
| ChatView.TickFollowsStatus | src/components/ChatView.tsx:261-273 | a status further along never shows fewer ticks |
| TemplateModal.Categories | src/components/TemplateModal.tsx:17 | no duplicates; exactly the templates' categories; in order of first appearance |
| TemplateModal.MatchesSearch | src/components/TemplateModal.tsx:20-23 | matches exactly when the query is empty, or the lower-cased query occurs in the lower-cased name or in the lower-cased content |
| TemplateModal.MatchesCategory | src/components/TemplateModal.tsx:24 | with no category or the empty one every template matches; otherwise exactly the templates of that category |
| TemplateModal.FilteredTemplates | src/components/TemplateModal.tsx:19-26 | an order-preserving sub-list of the templates; each template matching both the search and the category occurs as often as in the input, every other one not at all |
| TemplateModal.FilteredTemplatesUnconstrained | src/components/TemplateModal.tsx:20-24 | with an empty search and no (or an empty) category every template is returned |
| TemplateModal.FilteredTemplatesIgnoresQueryCase | src/components/TemplateModal.tsx:22-23 | a query and its lower-cased form select the same templates |
| TemplateModal.Preview | src/components/TemplateModal.tsx:139 | the first min(150, length) characters of the body followed by "..." |
| TemplateModal.VariableChip | src/components/TemplateModal.tsx:149 | the chip of v is "{{", v, "}}" |
| TemplateModal.VariableChips | src/components/TemplateModal.tsx:141-152 | one chip per listed variable, in order; none when the list is missing |
| HomePage.CountInTab | src/app/page.tsx:30-32 | at most the list length; zero exactly when no conversation has the status |
| HomePage.ComputeTabCounts | src/app/page.tsx:28-33 | each count is the multiplicity of its status in the unfiltered list; the three add up to the list length |
| HomePage.CountIsMultiplicity | src/app/page.tsx:30-32 | a tab's count equals the number of occurrences of its status |
| HomePage.CountsPartition | src/app/page.tsx:29-32 | open + snoozed + done equals the number of conversations |
| HomePage.SameStatusesSameCounts | src/app/page.tsx:29-32 | lists with the same statuses in the same places have the same counts |
| HomePage.SendKeepsCounts | src/hooks/useChat.ts:40-51 | sending leaves the counts unchanged |
| HomePage.DeliverKeepsCounts | src/hooks/useChat.ts:54-67 | the delivery step leaves the counts unchanged |
| HomePage.AddNoteKeepsCounts | src/hooks/useChat.ts:83-92 | adding a note leaves the counts unchanged |
| HomePage.MarkAsReadKeepsCounts | src/hooks/useChat.ts:106-118 | marking as read, and so selecting, leaves the counts unchanged |
| HomePage.UpdateStatusLeavesTab | src/hooks/useChat.ts:97-104 | a status change takes out of every other tab exactly its conversations with the id |
| HomePage.UpdateStatusEntersTab | src/hooks/useChat.ts:97-104 | a status change adds to the target tab every conversation with the id that was elsewhere |
| HomePage.SendDraft | src/app/page.tsx:115 | the send button: a blank draft changes nothing; otherwise the draft is cleared and, with an active id, the trimmed draft is appended to the active conversation |

## Left out

- The real `setTimeout` delay and any timing between sends and deliveries: the callback is the explicit step `Deliver`.
- Clock reads (`Date.now()`, `new Date()`) and `generateId` (`Math.random`): times and ids are parameters.
- Locale formatting (`toLocaleDateString`, `toLocaleTimeString`, and `formatTime`, which is only that): kept as opaque constructors or supplied text.
- Time zones and daylight saving: calendar days are counted in UTC, so `formatDate`'s local-midnight construction is a plain day difference.
- Text.ToLower: models `toLowerCase` for the ASCII letters only; other characters are left as they are, because Unicode case mapping is out of scope.
- TemplateModal.Preview: counts Unicode scalar values, whereas `substring` counts UTF-16 code units; they differ only for characters outside the Basic Multilingual Plane.
- React's rendering, memoisation (`useCallback`) and batching of state updates: each setter call is one sequential step.
- The presentational parts: JSX, styling, icons, the scroll effect, the `window.innerWidth` check, the sidebar, contact-details, notes and template-picker visibility toggles, and the components `ConversationList`, `ContactDetails` and `NotesPanel` (whose submit guard is `handleSend`'s).
- The seed data in `src/data/mockData.ts`: it is data, not logic, and its previews do not always equal the last message.
