# groupCycle chat store, modelled in Dafny

groupCycle is an iOS group-chat app that keeps its data in a Firebase
Realtime Database. This project models the app's data-access layer,
`DatabaseManager`, which works on that tree:

- a user node `<safe email>` holds `first_name`, `last_name` and
  `conversations`, a list of conversation entries (`id`,
  `other_user_email`, `name`, `latest_message` = {`date`, `message`,
  `is_read`});
- a conversation node `conversation_<message id>` holds `messages`, the
  append-only log of message entries (`id`, `type`, `content`, `date`,
  `sender_email`, `is_read`, `name`);
- a `users` directory lists every registered user's `name` and safe `email`.

Firebase keys may not contain `.` (among other characters), so email
addresses are turned into keys by `safeEmail`, which replaces every `.` and
every `@` with `-`. `GroupCycleUser` carries the same rule and derives the
user's profile picture file name from it.

The modules:

- `Strings`: character replacement and suffixes.
- `Models`: the app's value types (`GroupCycleUser`, `Group`,
  `LatestMessage`, `Sender`, `Message`, `MessageKind`).
- `Store`: the database tree as a map from top-level keys to JSON-like
  values. It provides child reads and writes, the `as? [[String : Any]]`
  cast with its inverse, and Swift's `compactMap`.
- `Codec`: the dictionaries the manager writes, and the decoders its readers
  run over the lists they fetch.
- `ConversationList`: the list algorithms. These are the latest-message
  upsert loop of `sendMessages`, the position scan of `deleteConversation`
  and the `first(where:)` of `conversationExists`.
- `Updates`: each write operation step by step, as a function from the old
  tree and the set of refused keys to the success flag and the new tree,
  with lemmas about what each step leaves behind.
- `DatabaseManager`: `safeEmail` and the class `Manager`. The class holds the
  tree as a field; each write operation is a method that updates it, and each
  read is a function of it. Each write method is proved to leave exactly the
  tree its step function in `Updates` describes.

A database write can fail. The model gives every `Manager` a fixed set
`rejected` of top-level keys whose writes the store refuses. A write under
any other key succeeds. Each method's contract states the outcome for both
cases. Values that the app reads from `UserDefaults` (the caller's email and
display name) are parameters, and so are the date formatter and its parser.

## Model

| member | source | states |
|---|---|---|
| Strings.ReplaceAll | groupCycle/Models/GroupCycleUser.swift:16-17 | `replacingOccurrences` of one character: same length; each position holds the replacement where the input held the target and is unchanged elsewhere; the target no longer occurs |
| Models.GroupCycleUser.SafeEmail | groupCycle/Models/GroupCycleUser.swift:15-19 | the key has the email's length, contains no `.` and no `@`, and differs from the email only where the email had `.` or `@`, which became `-` |
| Models.GroupCycleUser.ProfilePictureFileName | groupCycle/Models/GroupCycleUser.swift:21-23 | the file name is the safe email followed by `_profile_picture.png`, so it begins with the safe email, ends with the suffix, and contains no `@` |
| DatabaseManager.SafeEmail | groupCycle/Helpers/Firebase/DatabaseManager.swift:16-20 | the manager's key function: same length, no `.` or `@` left, each `.`/`@` turned into `-`, all other characters kept in place |
| DatabaseManager.SafeEmailIdempotent | groupCycle/Helpers/Firebase/DatabaseManager.swift:428-445 | applying `safeEmail` to a key that is already safe (as `sendMessages` does to `currentEmail`) changes nothing |
| DatabaseManager.SafeEmailFixedPoint | groupCycle/Helpers/Firebase/DatabaseManager.swift:16-20 | a string is its own safe email exactly when it contains neither `.` nor `@` |
| DatabaseManager.UserSafeEmailAgrees | groupCycle/Models/GroupCycleUser.swift:15-19 | the user model's `safeEmail` and the manager's `safeEmail` give the same key for the same address |
| DatabaseManager.SafeEmailCollision | groupCycle/Helpers/Firebase/DatabaseManager.swift:16-20 | the key function is not injective: `a.b@c` and `a-b-c` map to the same node |
| Codec.ConversationId | groupCycle/Helpers/Firebase/DatabaseManager.swift:72 | the conversation id is `conversation_` followed by the message id |
| Codec.ConversationIdInjective | groupCycle/Helpers/Firebase/DatabaseManager.swift:72 | different first-message ids give different conversation ids |
| Codec.MessageText | groupCycle/Helpers/Firebase/DatabaseManager.swift:47-70 | the text preview is the text of a `.text` message and empty for every other kind |
| Codec.LatestMessageValue | groupCycle/Helpers/Firebase/DatabaseManager.swift:335-339 | the preview dictionary holds the given date and text, with `is_read` false |
| Codec.ConversationEntry | groupCycle/Helpers/Firebase/DatabaseManager.swift:74-94 | a conversation entry holds the given id, counterpart key and name, and the given preview |
| Codec.MessageEntry | groupCycle/Helpers/Firebase/DatabaseManager.swift:178-186 | a log entry holds the message id, its kind name, its text, the date string, the sender's key and name, with `is_read` false |
| Codec.NewConversationEntries | groupCycle/Helpers/Firebase/DatabaseManager.swift:72-94 | the caller's and the recipient's entries share the id and the unread latest message; the caller's entry names the other user and the given name, the recipient's the caller's key and name |
| Codec.NewConversationEntriesDecode | groupCycle/Helpers/Firebase/DatabaseManager.swift:74-94 | both new entries decode as conversations, and the two decoded conversations have the same id and the same latest message |
| Codec.DecodeGroup | groupCycle/Helpers/Firebase/DatabaseManager.swift:211-223 | an entry decodes exactly when `id`, `name` and `other_user_email` are strings and `latest_message` is a dictionary with string `date` and `message` and an `is_read` that casts to `Bool` (a boolean, or the number 0 or 1); the conversation then carries those values, the preview included |
| Codec.DecodeGroupBridgesNumericIsRead | groupCycle/Helpers/Firebase/DatabaseManager.swift:212-222 | a preview whose `is_read` is stored as the number 1 decodes as read, since `as? Bool` bridges the number |
| Codec.ConversationEntryRoundTrip | groupCycle/Helpers/Firebase/DatabaseManager.swift:211-223 | every entry the manager writes decodes back to the conversation it describes |
| Codec.DecodeGroups | groupCycle/Helpers/Firebase/DatabaseManager.swift:211-223 | the list reader returns no more conversations than entries, each decoded from some stored entry |
| Codec.DecodeGroupsDropsMalformed | groupCycle/Helpers/Firebase/DatabaseManager.swift:211-223 | a malformed entry is skipped; the entries around it decode as if it were absent |
| Codec.DecodeGroupsKeepsAll | groupCycle/Helpers/Firebase/DatabaseManager.swift:211-223 | no entry is lost exactly when every entry is well formed |
| Codec.DecodeMessage | groupCycle/Helpers/Firebase/DatabaseManager.swift:237-252 | an entry decodes exactly when `name`, `id`, `content`, `sender_email`, `type` and `date` are strings, `is_read` casts to `Bool` (a boolean, or the number 0 or 1) and `date` parses; the message is then a text message with that content, id, sender key, name, parsed date and an empty photo URL |
| Codec.DecodeMessages | groupCycle/Helpers/Firebase/DatabaseManager.swift:237-252 | the log reader returns no more messages than entries, each decoded from some stored entry, every one a text message with an empty photo URL |
| Codec.DecodeMessagesDropsMalformed | groupCycle/Helpers/Firebase/DatabaseManager.swift:237-252 | a malformed message entry is skipped; the entries around it decode as if it were absent |
| Codec.DecodeMessagesKeepsAll | groupCycle/Helpers/Firebase/DatabaseManager.swift:237-252 | no message is lost exactly when every entry decodes |
| Codec.MessageEntryRoundTrip | groupCycle/Helpers/Firebase/DatabaseManager.swift:178-186 | a message entry the manager writes decodes back to the message's id, date and text, from the given sender, whenever the parser inverts the formatter |
| Store.Child | groupCycle/Helpers/Firebase/DatabaseManager.swift:205 | reading `key/field` finds a value exactly when the node has that field |
| Store.WithChild | groupCycle/Helpers/Firebase/DatabaseManager.swift:327 | writing `key/field` sets that child and leaves the node's other fields and every other node as they were |
| Store.AsBool | groupCycle/Helpers/Firebase/DatabaseManager.swift:218 | `as? Bool` succeeds on a boolean and on the numbers 0 and 1, giving true exactly for `true` and 1 |
| Store.AsRecords | groupCycle/Helpers/Firebase/DatabaseManager.swift:206 | the `as? [[String : Any]]` cast succeeds only on a list all of whose items are dictionaries, and keeps them in order |
| Store.RecordsRoundTrip | groupCycle/Helpers/Firebase/DatabaseManager.swift:325-327 | a list of dictionaries written to the tree is read back by the cast unchanged |
| Store.CompactMap | groupCycle/Helpers/Firebase/DatabaseManager.swift:211 | `compactMap` yields no more elements than its input, each the image of some input element |
| Store.CompactMapAppend | groupCycle/Helpers/Firebase/DatabaseManager.swift:211 | `compactMap` of a concatenation is the concatenation of the `compactMap`s |
| Store.CompactMapDrops | groupCycle/Helpers/Firebase/DatabaseManager.swift:237 | an element the transform rejects contributes nothing |
| Store.CompactMapKeepsAll | groupCycle/Helpers/Firebase/DatabaseManager.swift:237 | the output is as long as the input exactly when the transform accepts every element |
| ConversationList.FirstWith | groupCycle/Helpers/Firebase/DatabaseManager.swift:346-355 | the scan position is the first entry whose `id` is the conversation, or the list length when none matches |
| ConversationList.UpsertLatestMessage | groupCycle/Helpers/Firebase/DatabaseManager.swift:341-383 | the loop computes the upserted list: with no list, the single new entry; otherwise the first matching entry gets the new latest message, or the new entry is appended |
| ConversationList.UpsertReplacesFirstMatch | groupCycle/Helpers/Firebase/DatabaseManager.swift:357-361 | when an entry matches, the list keeps its length, only that entry's `latest_message` changes, and every other entry is untouched |
| ConversationList.UpsertAppendsWhenMissing | groupCycle/Helpers/Firebase/DatabaseManager.swift:362-371 | when no entry matches, the old list is kept as a prefix and the new entry follows it |
| ConversationList.UpsertIntoSetsLatest | groupCycle/Helpers/Firebase/DatabaseManager.swift:341-383 | after the upsert, the conversation's first entry carries the new latest message |
| ConversationList.ScanPositionToRemove | groupCycle/Helpers/Firebase/DatabaseManager.swift:484-492 | the removal scan stops at the first entry with the id, and runs to the list length when none has it |
| ConversationList.DeleteMissingIdOutOfRange | groupCycle/Helpers/Firebase/DatabaseManager.swift:484-493 | for the list `[{id: "conversation_a"}]` and the id `conversation_b`, the scan returns 1, the list's length, so the position given to `remove(at:)` is out of range |
| ConversationList.RemoveFirst | groupCycle/Helpers/Firebase/DatabaseManager.swift:483-493 | removal fails exactly when no entry has the id, and otherwise shortens the list by one |
| ConversationList.RemoveFirstRemovesExactlyFirstMatch | groupCycle/Helpers/Firebase/DatabaseManager.swift:483-493 | removal drops the first matching entry only; the entries before and after it stay in order, and the multiset loses exactly that entry |
| ConversationList.FirstForCounterpart | groupCycle/Helpers/Firebase/DatabaseManager.swift:518-523 | `first(where:)` returns the first entry whose `other_user_email` is the sender's key, and nothing when none is |
| Updates.Appended | groupCycle/Helpers/Firebase/DatabaseManager.swift:96-106 | appending to a fetched list, or starting a one-entry list when there was none, keeps the old entries as a prefix and ends with the new one |
| DatabaseManager.AppendedEntryReadBack | groupCycle/Helpers/Firebase/DatabaseManager.swift:204-227 | after a conversation entry is appended, the conversation reader returns the old conversations followed by the new one |
| DatabaseManager.FirstMessageReadBack | groupCycle/Helpers/Firebase/DatabaseManager.swift:230-256 | reading a freshly created conversation log returns exactly the first message, as text, from the caller |
| DatabaseManager.Manager.CreateNewConversation | groupCycle/Helpers/Firebase/DatabaseManager.swift:29-139 | leaves the tree `Updates.CreatedTree` describes. It succeeds exactly when the caller's node exists and the caller's node and log writes go through, and changes nothing when the node is missing. On success the log holds the one first message. The caller's list gains its entry (followed by the mirror entry in a conversation with oneself) and the caller's other fields stay. The recipient's list gains the mirror entry whenever that write is accepted, even after a refused caller write, and its other fields stay. No other node changes, and no refused node |
| DatabaseManager.Manager.AppendConversation | groupCycle/Helpers/Firebase/DatabaseManager.swift:96-106 | the recipient's list gains the entry when the write is accepted, and nothing changes when it is refused; the node's other fields and the other nodes stay as they were |
| DatabaseManager.Manager.WriteUserNode | groupCycle/Helpers/Firebase/DatabaseManager.swift:109-136 | the caller's node becomes the node read before with the entry appended to its list (or a one-entry list), so its other fields stay; nothing changes when the write is refused |
| DatabaseManager.FirstLog | groupCycle/Helpers/Firebase/DatabaseManager.swift:188-192 | the conversation node holds only `messages`, which reads back as the one first-message entry |
| DatabaseManager.UserNode | groupCycle/Helpers/Firebase/DatabaseManager.swift:556-559 | the user's node holds exactly `first_name` and `last_name`, with the user's names |
| DatabaseManager.UserEntry | groupCycle/Helpers/Firebase/DatabaseManager.swift:567-571 | the directory entry holds exactly `name` (first and last name) and `email` (the safe email), all strings |
| DatabaseManager.Manager.FinishCreatingConversation | groupCycle/Helpers/Firebase/DatabaseManager.swift:141-201 | the conversation node is replaced by a log holding the one encoded first message, sent from the caller's safe email, exactly when the write is accepted |
| DatabaseManager.Manager.GetAllConversations | groupCycle/Helpers/Firebase/DatabaseManager.swift:204-227 | fails exactly when the list is missing or not a list of dictionaries; otherwise returns the decodable entries of the stored list, in order |
| DatabaseManager.Manager.GetAllMessagesForConversation | groupCycle/Helpers/Firebase/DatabaseManager.swift:230-256 | fails exactly when the log is missing or not a list of dictionaries; otherwise returns the decodable entries of the stored log, in order, all of them text |
| DatabaseManager.Manager.SendMessages | groupCycle/Helpers/Firebase/DatabaseManager.swift:259-470 | leaves the tree `Updates.SentTree` describes. It changes nothing without a log or when the log write is refused. It succeeds exactly when the log, sender and recipient writes all go through. The log gains the encoded message at its end. A refused sender write leaves the log append as the only change; after a refused recipient write the sender's list stays upserted. On success both lists are upserted and carry the same new latest message. No field other than `messages` and `conversations` changes, and no refused or unrelated node |
| DatabaseManager.Manager.AppendMessage | groupCycle/Helpers/Firebase/DatabaseManager.swift:315-331 | the log is written back with the new entry at its end, or left as it was when the write is refused |
| DatabaseManager.Manager.UpsertConversation | groupCycle/Helpers/Firebase/DatabaseManager.swift:333-390 | a participant's list is replaced by its upsert for the conversation, whose latest message is then the new one, or left as it was when the write is refused |
| DatabaseManager.Manager.UpdateLatestMessages | groupCycle/Helpers/Firebase/DatabaseManager.swift:333-464 | the sender's list, then the recipient's, are upserted in that order; a refused sender write changes nothing, and after a refused recipient write the sender's list stays upserted; no field other than `conversations` changes |
| DatabaseManager.Manager.DeleteConversation | groupCycle/Helpers/Firebase/DatabaseManager.swift:472-504 | removes the first entry with the id from the caller's list: on success the new tree is the old one with that list written back, so the node's other fields and all other nodes stay; reports a missing list, a missing id or a refused write without changing anything |
| DatabaseManager.Manager.ConversationExists | groupCycle/Helpers/Firebase/DatabaseManager.swift:506-536 | succeeds with the id of the first entry in the recipient's list whose counterpart is the sender's key, and fails when the list is missing or no entry has that counterpart |
| DatabaseManager.Manager.InsertUser | groupCycle/Helpers/Firebase/DatabaseManager.swift:555-596 | leaves the tree `Updates.InsertedTree` describes: writes the user's node with the first and last name, then appends `{name, email}` to `users` (or starts the directory), and succeeds exactly when both writes go through; a refused node write changes nothing, `users` included; no other node changes |
| Updates.UsersAt | groupCycle/Helpers/Firebase/DatabaseManager.swift:567-568 | the `users` directory reads back exactly when it is a list of dictionaries all of whose fields are strings, and then as that list |
| Updates.ChildAfterPutChild | groupCycle/Helpers/Firebase/DatabaseManager.swift:325-327 | after a write of `key/field`, that path reads the new value when the write is accepted, and every other path reads as before |
| Updates.CreateOutcome | groupCycle/Helpers/Firebase/DatabaseManager.swift:37-134 | `createNewConversation` succeeds exactly when the caller's node exists and the caller's and log writes are accepted; without the caller's node nothing is written |
| Updates.CreateCallerRefused | groupCycle/Helpers/Firebase/DatabaseManager.swift:96-118 | when the caller's write is refused, the recipient's entry is still appended and nothing else changes |
| Updates.CreateWritesLog | groupCycle/Helpers/Firebase/DatabaseManager.swift:115-134 | on success the conversation's node is the log written by `finishCreatingConversation` |
| Updates.CreateCallerList | groupCycle/Helpers/Firebase/DatabaseManager.swift:109-129 | an accepted caller write leaves the caller's list with its entry appended, and in a conversation with oneself the recipient's entry after it |
| Updates.CreateKeepsCallerFields | groupCycle/Helpers/Firebase/DatabaseManager.swift:109-129 | the caller's node keeps every field other than `conversations` |
| Updates.CreateRecipientList | groupCycle/Helpers/Firebase/DatabaseManager.swift:96-106 | an accepted recipient write leaves the recipient's list with the mirror entry appended, whatever became of the caller's write, and keeps the recipient's other fields |
| Updates.CreateFrame | groupCycle/Helpers/Firebase/DatabaseManager.swift:29-139 | only the caller's, the recipient's and the conversation's nodes may change, and never a refused one |
| Updates.UpsertedBothFrame | groupCycle/Helpers/Firebase/DatabaseManager.swift:333-464 | the two list steps of `sendMessages` change only the two participants' `conversations` fields, and never a refused node |
| Updates.UpsertedBothLists | groupCycle/Helpers/Firebase/DatabaseManager.swift:333-464 | after an accepted sender write the sender's list is its upsert (unless the recipient's write lands on the same node); after two accepted writes on different nodes the recipient's list is its upsert |
| Updates.UpsertedBothLatest | groupCycle/Helpers/Firebase/DatabaseManager.swift:333-464 | when both list writes are accepted, both lists carry the new preview for the conversation |
| Updates.LogAppendKeepsLists | groupCycle/Helpers/Firebase/DatabaseManager.swift:315-327 | the log append leaves every conversation list as it was |
| Updates.SendOutcome | groupCycle/Helpers/Firebase/DatabaseManager.swift:259-470 | `sendMessages` succeeds exactly when the log exists and all three writes are accepted; without a log, or after a refused log write, nothing changes |
| Updates.SendAppendsLog | groupCycle/Helpers/Firebase/DatabaseManager.swift:315-331 | once the log write is accepted the log ends with the new message, whatever the later steps do |
| Updates.SendStopsAfterLog | groupCycle/Helpers/Firebase/DatabaseManager.swift:327-389 | after a refused sender write, the log append is the only change |
| Updates.SendStopsAfterSender | groupCycle/Helpers/Firebase/DatabaseManager.swift:385-458 | after a refused recipient write, the sender's list stays upserted |
| Updates.SendSetsLatest | groupCycle/Helpers/Firebase/DatabaseManager.swift:333-464 | on success both participants' lists carry the new preview |
| Updates.SendUpsertsBothLists | groupCycle/Helpers/Firebase/DatabaseManager.swift:333-464 | on success with two different participants, each list is its old list with the preview upserted |
| Updates.SendFrame | groupCycle/Helpers/Firebase/DatabaseManager.swift:259-470 | only the log's and the two participants' nodes may change, never a refused one, and no field other than `messages` and `conversations` |
| Updates.InsertOutcome | groupCycle/Helpers/Firebase/DatabaseManager.swift:555-596 | `insertUser` succeeds exactly when both writes are accepted; a refused node write changes nothing |
| Updates.InsertWritesUser | groupCycle/Helpers/Firebase/DatabaseManager.swift:555-596 | an accepted node write leaves the user's node in place; on success `users` is the old directory with the user's entry appended |
| Updates.InsertFrame | groupCycle/Helpers/Firebase/DatabaseManager.swift:555-596 | only the user's node and `users` may change, and never a refused one |

## Left out

- Asynchrony: each Firebase callback becomes the next step of one method, and every read sees the tree as the previous step left it. Concurrent writers, interleaved callbacks and `observe` subscriptions are not modelled.
- `createNewConversation` order: the source issues the caller's node write (lines 115, 129) before the recipient's write, which runs only in the callback of the recipient's read (lines 96-106). The model performs the caller's write, then the recipient's read and write whatever the caller's write returned, then the log write. The recipient's read sees the caller's write, and the recipient's write comes before the log write; in the source both depend on callback timing, which matters only when the recipient's key equals the caller's key or the conversation id.
- `UserDefaults`: the caller's email and name are parameters. The source's silent returns when they are missing are not modelled.
- The date formatter and parser (`ChatViewController.dateFormatter`) are parameters. `MessageEntryRoundTrip` assumes the parser inverts the formatter.
- `messageKindString` is not part of this model. `Codec.KindString` writes the `MessageKind` case name in its place.
- Write failures are abstracted as a fixed set of refused top-level keys; network errors and security rules are not modelled.
- Firebase stores no empty lists. The model keeps an empty list as a list, so an emptied `conversations` reads back as empty rather than missing.
- Firebase path validity: `child()` raises on a path segment containing `.`, `#`, `$`, `[` or `]`, and a `/` inside a value addresses a nested path. The source builds paths from the raw `otherUserEmail`, `email` and conversation ids (lines 96, 100, 104, 205, 393, 455). The model treats every key as one valid top-level segment and does not model the exception or the nesting.
- Stored numbers are integers; floating-point values, and their bridging to `Bool`, are not modelled.
- Strings are sequences of characters; Swift's grapheme clusters are not modelled.
- `DatabaseManager.Manager.DeleteConversation`: the source never calls its completion when the list is missing; the model reports `ListMissing`.
- `DatabaseManager.Manager.InsertUser`: in the branch that creates `users`, the source drops a refused write without calling completion; the model reports `false`.
- `DatabaseManager.Manager.GetAllConversations` and `GetAllMessagesForConversation` model one delivery of their `observe` subscription, not the stream of later deliveries.
- `userExists`, `getAllUsers` and `getDataFor` only pass a snapshot through and are not modelled. `StorageManager`, the extensions and the view models are outside the model.

## Findings

| source | as written | input that shows it | evidently intended | confidence | as-written member | corrected member |
|---|---|---|---|---|---|---|
| groupCycle/Helpers/Firebase/DatabaseManager.swift:484-493 | `positionToRemove` counts every entry when no entry has the id, and `conversations.remove(at: positionToRemove)` is then called with the list length | a caller list `[{id: "conversation_a", …}]` and `conversationID = "conversation_b"`: the scan returns 1, one past the last index, and `remove(at:)` traps | delete only when an entry has the id, and otherwise report that it was not found and leave the list as it is | not executed | ConversationList.DeleteMissingIdOutOfRange | DatabaseManager.Manager.DeleteConversation |
