/** The dictionaries the conversation code writes (conversation list entries,
    their `latest_message` preview, message log entries) and the `compactMap`
    decoders that read them back. */
module Codec {
  import opened Store
  import opened Models

  const ConversationPrefix: string := "conversation_"

  /** The conversation id derived from the first message's id. */
  function ConversationId(messageId: string): (id: string)
    ensures |id| == |ConversationPrefix| + |messageId|
    ensures id[..|ConversationPrefix|] == ConversationPrefix
    ensures id[|ConversationPrefix|..] == messageId
  {
    ConversationPrefix + messageId
  }

  /** Distinct first messages give distinct conversation ids. */
  lemma ConversationIdInjective(a: string, b: string)
    requires ConversationId(a) == ConversationId(b)
    ensures a == b
  {
    assert a == ConversationId(a)[|ConversationPrefix|..];
  }

  /** The `switch` over the message kind: the text for `.text`, the empty
      string for each of the nine other kinds. */
  function MessageText(kind: MessageKind): (message: string)
    ensures kind.Text? ==> message == kind.text
    ensures !kind.Text? ==> message == ""
  {
    match kind
    case Text(messageText) => messageText
    case _ => ""
  }

  /** The `type` tag stored with a message: the name of its kind. */
  function KindString(kind: MessageKind): string {
    match kind
    case Text(_) => "text"
    case AttributedText => "attributedText"
    case Photo => "photo"
    case Video => "video"
    case Location => "location"
    case Emoji => "emoji"
    case Audio => "audio"
    case Contact => "contact"
    case LinkPreview => "linkPreview"
    case Custom => "custom"
  }

  /** The `latest_message` dictionary: date string, text and `is_read == false`. */
  function LatestMessageValue(date: string, message: string): (latest: Value)
    ensures latest.Dict?
    ensures HasString(latest.fields, "date", date) && HasString(latest.fields, "message", message)
    ensures "is_read" in latest.fields && AsBool(latest.fields["is_read"]) == Some(false)
  {
    Dict(map["date" := Str(date), "message" := Str(message), "is_read" := Bool(false)])
  }

  /** A conversation list entry. */
  function ConversationEntry(id: string, otherUserEmail: string, name: string, latest: Value): (entry: Record)
    ensures HasString(entry, "id", id) && HasString(entry, "other_user_email", otherUserEmail)
    ensures HasString(entry, "name", name)
    ensures "latest_message" in entry && entry["latest_message"] == latest
  {
    map["id" := Str(id), "other_user_email" := Str(otherUserEmail), "name" := Str(name), "latest_message" := latest]
  }

  /** A message log entry. */
  function MessageEntry(message: Message, name: string, dateString: string, senderEmail: string): (entry: Record)
    ensures HasString(entry, "id", message.messageId)
    ensures HasString(entry, "type", KindString(message.kind))
    ensures HasString(entry, "content", MessageText(message.kind))
    ensures HasString(entry, "date", dateString)
    ensures HasString(entry, "sender_email", senderEmail)
    ensures HasString(entry, "name", name)
    ensures "is_read" in entry && AsBool(entry["is_read"]) == Some(false)
  {
    map[
      "id" := Str(message.messageId),
      "type" := Str(KindString(message.kind)),
      "content" := Str(MessageText(message.kind)),
      "date" := Str(dateString),
      "sender_email" := Str(senderEmail),
      "is_read" := Bool(false),
      "name" := Str(name)
    ]
  }

  /** The two entries `createNewConversation` builds: the caller's, pointing at
      the other user, and the recipient's, pointing back at the caller. */
  function NewConversationEntries(
    firstMessage: Message, safeEmail: string, currentName: string,
    otherUserEmail: string, name: string, dateString: string): (entries: (Record, Record))
    ensures var id := ConversationId(firstMessage.messageId);
      && HasString(entries.0, "id", id) && HasString(entries.1, "id", id)
      && "latest_message" in entries.0 && "latest_message" in entries.1
      && entries.0["latest_message"] == entries.1["latest_message"]
      && HasString(entries.0, "other_user_email", otherUserEmail)
      && HasString(entries.1, "other_user_email", safeEmail)
      && HasString(entries.0, "name", name)
      && HasString(entries.1, "name", currentName)
  {
    var latest := LatestMessageValue(dateString, MessageText(firstMessage.kind));
    var conversationID := ConversationId(firstMessage.messageId);
    (ConversationEntry(conversationID, otherUserEmail, name, latest),
     ConversationEntry(conversationID, safeEmail, currentName, latest))
  }

  /** Decoder of one conversation list entry; `None` when a required field is
      missing or has the wrong type. */
  function DecodeGroup(dictionary: Record): (g: Option<Group>)
    ensures g.Some? <==>
      && IsString(dictionary, "id") && IsString(dictionary, "name")
      && IsString(dictionary, "other_user_email") && IsDict(dictionary, "latest_message")
      && IsString(dictionary["latest_message"].fields, "date")
      && IsString(dictionary["latest_message"].fields, "message")
      && IsBool(dictionary["latest_message"].fields, "is_read")
    ensures g.Some? ==>
      && HasString(dictionary, "id", g.value.id)
      && HasString(dictionary, "name", g.value.name)
      && HasString(dictionary, "other_user_email", g.value.otherUserEmail)
      && var latestMessage := dictionary["latest_message"].fields;
         && HasString(latestMessage, "date", g.value.latestMessage.date)
         && HasString(latestMessage, "message", g.value.latestMessage.text)
         && AsBool(latestMessage["is_read"]) == Some(g.value.latestMessage.isRead)
  {
    if && "id" in dictionary && dictionary["id"].Str?
       && "name" in dictionary && dictionary["name"].Str?
       && "other_user_email" in dictionary && dictionary["other_user_email"].Str?
       && "latest_message" in dictionary && dictionary["latest_message"].Dict?
    then
      var latestMessage := dictionary["latest_message"].fields;
      if && "date" in latestMessage && latestMessage["date"].Str?
         && "message" in latestMessage && latestMessage["message"].Str?
         && "is_read" in latestMessage && AsBool(latestMessage["is_read"]).Some?
      then
        Some(Group(dictionary["id"].s, dictionary["name"].s, dictionary["other_user_email"].s,
                   LatestMessage(latestMessage["date"].s, latestMessage["message"].s, AsBool(latestMessage["is_read"]).value)))
      else None
    else None
  }

  /** Decoder of one message log entry. The stored `type` and `is_read` must
      have their types but are otherwise ignored: the message comes back as
      `.text(content)` from a sender without a photo. */
  function DecodeMessage(dictionary: Record, parse: string -> Option<Timestamp>): (m: Option<Message>)
    ensures m.Some? <==>
      && IsString(dictionary, "name") && IsBool(dictionary, "is_read")
      && IsString(dictionary, "id") && IsString(dictionary, "content")
      && IsString(dictionary, "sender_email") && IsString(dictionary, "type")
      && IsString(dictionary, "date") && parse(dictionary["date"].s).Some?
    ensures m.Some? ==>
      && m.value.kind.Text?
      && HasString(dictionary, "content", m.value.kind.text)
      && HasString(dictionary, "id", m.value.messageId)
      && HasString(dictionary, "sender_email", m.value.sender.senderId)
      && HasString(dictionary, "name", m.value.sender.displayName)
      && m.value.sender.photoURL == ""
      && parse(dictionary["date"].s) == Some(m.value.sentDate)
  {
    if && "name" in dictionary && dictionary["name"].Str?
       && "is_read" in dictionary && AsBool(dictionary["is_read"]).Some?
       && "id" in dictionary && dictionary["id"].Str?
       && "content" in dictionary && dictionary["content"].Str?
       && "sender_email" in dictionary && dictionary["sender_email"].Str?
       && "type" in dictionary && dictionary["type"].Str?
       && "date" in dictionary && dictionary["date"].Str?
       && parse(dictionary["date"].s).Some?
    then
      var sender := Sender("", dictionary["sender_email"].s, dictionary["name"].s);
      Some(Message(sender, dictionary["id"].s, parse(dictionary["date"].s).value, Text(dictionary["content"].s)))
    else None
  }

  /** The conversation list reader's `compactMap`. */
  function DecodeGroups(value: seq<Record>): (groups: seq<Group>)
    ensures |groups| <= |value|
    ensures forall j :: 0 <= j < |groups| ==> exists i :: 0 <= i < |value| && DecodeGroup(value[i]) == Some(groups[j])
  {
    CompactMap(value, DecodeGroup)
  }

  /** The per-entry decoder the message log reader maps over, with the date
      parser fixed. */
  function MessageDecoder(parse: string -> Option<Timestamp>): Record -> Option<Message>
  {
    (r: Record) => DecodeMessage(r, parse)
  }

  /** The message log reader's `compactMap`. */
  function DecodeMessages(value: seq<Record>, parse: string -> Option<Timestamp>): (messages: seq<Message>)
    ensures |messages| <= |value|
    ensures forall j :: 0 <= j < |messages| ==>
      exists i :: 0 <= i < |value| && DecodeMessage(value[i], parse) == Some(messages[j])
    ensures forall j :: 0 <= j < |messages| ==> messages[j].kind.Text? && messages[j].sender.photoURL == ""
  {
    var decode := MessageDecoder(parse);
    var ms := CompactMap(value, decode);
    assert forall j :: 0 <= j < |ms| ==> exists i :: 0 <= i < |value| && DecodeMessage(value[i], parse) == Some(ms[j]) by {
      forall j | 0 <= j < |ms| ensures exists i :: 0 <= i < |value| && DecodeMessage(value[i], parse) == Some(ms[j]) {
        var i :| 0 <= i < |value| && decode(value[i]) == Some(ms[j]);
        assert DecodeMessage(value[i], parse) == Some(ms[j]);
      }
    }
    ms
  }

  /** A preview whose `is_read` is stored as the number 1 still decodes, as
      read: the cast to `Bool` bridges the number. */
  lemma DecodeGroupBridgesNumericIsRead(id: string, otherUserEmail: string, name: string, date: string, message: string)
    ensures var latest := Dict(map["date" := Str(date), "message" := Str(message), "is_read" := Number(1)]);
      DecodeGroup(ConversationEntry(id, otherUserEmail, name, latest))
        == Some(Group(id, name, otherUserEmail, LatestMessage(date, message, true)))
  {
  }

  /** A conversation entry built from a preview decodes to the group it describes. */
  lemma ConversationEntryRoundTrip(id: string, otherUserEmail: string, name: string, date: string, message: string)
    ensures DecodeGroup(ConversationEntry(id, otherUserEmail, name, LatestMessageValue(date, message)))
      == Some(Group(id, name, otherUserEmail, LatestMessage(date, message, false)))
  {
  }

  /** Both entries of a new conversation decode, to the same id and the same
      unread preview of the first message. */
  lemma NewConversationEntriesDecode(
    firstMessage: Message, safeEmail: string, currentName: string,
    otherUserEmail: string, name: string, dateString: string)
    ensures var entries := NewConversationEntries(firstMessage, safeEmail, currentName, otherUserEmail, name, dateString);
      var latest := LatestMessage(dateString, MessageText(firstMessage.kind), false);
      var id := ConversationId(firstMessage.messageId);
      && DecodeGroup(entries.0) == Some(Group(id, name, otherUserEmail, latest))
      && DecodeGroup(entries.1) == Some(Group(id, currentName, safeEmail, latest))
  {
    var latest := LatestMessageValue(dateString, MessageText(firstMessage.kind));
    var id := ConversationId(firstMessage.messageId);
    ConversationEntryRoundTrip(id, otherUserEmail, name, dateString, MessageText(firstMessage.kind));
    ConversationEntryRoundTrip(id, safeEmail, currentName, dateString, MessageText(firstMessage.kind));
  }

  /** A message entry decodes back to the message's id, sender key, sender
      name and date, as a text message holding the stored content, whenever
      the date parser inverts the formatter on that date. */
  lemma MessageEntryRoundTrip(
    message: Message, name: string, senderEmail: string,
    format: Timestamp -> string, parse: string -> Option<Timestamp>)
    requires parse(format(message.sentDate)) == Some(message.sentDate)
    ensures DecodeMessage(MessageEntry(message, name, format(message.sentDate), senderEmail), parse)
      == Some(Message(Sender("", senderEmail, name), message.messageId, message.sentDate, Text(MessageText(message.kind))))
  {
  }

  /** A malformed entry is dropped without disturbing the well-formed ones
      around it. */
  lemma {:induction false} DecodeGroupsDropsMalformed(before: seq<Record>, bad: Record, after: seq<Record>)
    requires DecodeGroup(bad).None?
    ensures DecodeGroups(before + [bad] + after) == DecodeGroups(before) + DecodeGroups(after)
  {
    CompactMapDrops(before, bad, after, DecodeGroup);
  }

  /** A malformed log entry is dropped without disturbing the messages
      around it. */
  lemma {:induction false} DecodeMessagesDropsMalformed(
    before: seq<Record>, bad: Record, after: seq<Record>, parse: string -> Option<Timestamp>)
    requires DecodeMessage(bad, parse).None?
    ensures DecodeMessages(before + [bad] + after, parse) == DecodeMessages(before, parse) + DecodeMessages(after, parse)
  {
    var decode := MessageDecoder(parse);
    assert decode(bad).None?;
    CompactMapDrops(before, bad, after, decode);
  }

  /** The log reader drops nothing exactly when every entry is well formed. */
  lemma DecodeMessagesKeepsAll(value: seq<Record>, parse: string -> Option<Timestamp>)
    ensures |DecodeMessages(value, parse)| == |value|
      <==> forall i :: 0 <= i < |value| ==> DecodeMessage(value[i], parse).Some?
  {
    var decode := MessageDecoder(parse);
    CompactMapKeepsAll(value, decode);
    assert forall i :: 0 <= i < |value| ==> decode(value[i]) == DecodeMessage(value[i], parse);
  }

  /** The list reader drops nothing exactly when every entry is well formed. */
  lemma DecodeGroupsKeepsAll(value: seq<Record>)
    ensures |DecodeGroups(value)| == |value| <==> forall i :: 0 <= i < |value| ==> DecodeGroup(value[i]).Some?
  {
    CompactMapKeepsAll(value, DecodeGroup);
  }
}
