/** The conversation bookkeeping of `DatabaseManager`: the e-mail
    normalisation that gives every user its storage key, and the operations
    that create a conversation, send a message, delete a conversation and
    look one up, each reading and rewriting whole nodes of the remote tree. */
module DatabaseManager {
  import opened Strings
  import opened Store
  import opened Models
  import opened Codec
  import opened ConversationList
  import opened Updates

  /** `DatabaseManager.safeEmail(emailAddress:)`: every `.` and then every
      `@` replaced by `-`. */
  function SafeEmail(emailAddress: string): (safeEmail: string)
    ensures |safeEmail| == |emailAddress|
    ensures '.' !in safeEmail && '@' !in safeEmail
    ensures forall i :: 0 <= i < |safeEmail| ==>
      safeEmail[i] == (if emailAddress[i] == '.' || emailAddress[i] == '@' then '-' else emailAddress[i])
  {
    ReplaceAll(ReplaceAll(emailAddress, '.', '-'), '@', '-')
  }

  /** Normalising a key that is already normalised changes nothing; the code
      relies on it when it normalises the caller's key a second time. */
  lemma SafeEmailIdempotent(emailAddress: string)
    ensures SafeEmail(SafeEmail(emailAddress)) == SafeEmail(emailAddress)
  {
    SafeEmailFixedPoint(SafeEmail(emailAddress));
  }

  /** The keys normalisation leaves alone are exactly those without `.` and `@`. */
  lemma SafeEmailFixedPoint(key: string)
    ensures SafeEmail(key) == key <==> '.' !in key && '@' !in key
  {
    if '.' !in key && '@' !in key {
      assert forall i :: 0 <= i < |key| ==> SafeEmail(key)[i] == key[i];
    }
  }

  /** The user model's own copy of the normalisation agrees with the manager's. */
  lemma UserSafeEmailAgrees(user: GroupCycleUser)
    ensures user.SafeEmail() == SafeEmail(user.emailAddress)
  {
  }

  /** Normalisation is not injective: two different addresses share a key. */
  lemma SafeEmailCollision()
    ensures "a.b@c" != "a-b-c" && SafeEmail("a.b@c") == SafeEmail("a-b-c")
  {
    assert SafeEmail("a.b@c") == "a-b-c";
    assert SafeEmail("a-b-c") == "a-b-c" by { SafeEmailFixedPoint("a-b-c"); }
  }

  /** The conversation node `finishCreatingConversation` writes: a log holding
      the one encoded first message. */
  function FirstLog(firstMessage: Message, name: string, senderKey: string, format: Timestamp -> string): (log: Value)
    ensures log.Dict? && log.fields.Keys == {"messages"}
    ensures AsRecords(Some(log.fields["messages"])) == Some([MessageEntry(firstMessage, name, format(firstMessage.sentDate), senderKey)])
  {
    var collectionMessage := MessageEntry(firstMessage, name, format(firstMessage.sentDate), senderKey);
    RecordsRoundTrip([collectionMessage]);
    Dict(map["messages" := ListOf([collectionMessage])])
  }

  /** The entry `insertUser` adds to the `users` directory. */
  function UserEntry(user: GroupCycleUser): (entry: Record)
    ensures entry.Keys == {"name", "email"} && AllStrings(entry)
    ensures HasString(entry, "name", user.firstName + " " + user.lastName)
    ensures HasString(entry, "email", user.SafeEmail())
  {
    map["name" := Str(user.firstName + " " + user.lastName), "email" := Str(user.SafeEmail())]
  }

  /** The node `insertUser` writes for the user. */
  function UserNode(user: GroupCycleUser): (node: Value)
    ensures node.Dict? && node.fields.Keys == {"first_name", "last_name"}
    ensures HasString(node.fields, "first_name", user.firstName) && HasString(node.fields, "last_name", user.lastName)
  {
    Dict(map["first_name" := Str(user.firstName), "last_name" := Str(user.lastName)])
  }

  /** How `deleteConversation` ends. */
  datatype DeleteResult =
    | Deleted        // completion(true)
    | WriteRejected  // completion(false)
    | ListMissing    // no list to delete from: the completion is never called
    | NotFound       // no entry has the id: the code as written traps here

  /** The manager over the remote tree. `rejected` holds the top-level keys
      under which the store refuses writes. */
  class Manager {
    var database: Tree
    const rejected: set<string>

    constructor (database: Tree, rejected: set<string>)
      ensures this.database == database && this.rejected == rejected
    {
      this.database := database;
      this.rejected := rejected;
    }

    /** `setValue` on the node at `key`, replacing it whole. */
    method SetValue(key: string, value: Value) returns (ok: bool)
      modifies this
      ensures ok == (key !in rejected)
      ensures database == Put(old(database), rejected, key, value)
    {
      ok := key !in rejected;
      if ok {
        database := database[key := value];
      }
    }

    /** `setValue` on the path `key/field`. */
    method SetChildValue(key: string, field: string, value: Value) returns (ok: bool)
      modifies this
      ensures ok == (key !in rejected)
      ensures database == PutChild(old(database), rejected, key, field, value)
    {
      ok := key !in rejected;
      if ok {
        database := WithChild(database, key, field, value);
      }
    }

    /** `createNewConversation`: checks that the caller's node exists, writes
        it back with the caller's entry appended, adds the mirror entry to the
        recipient's list whatever became of that write, and, when the caller's
        write went through, writes the one-message log. */
    method CreateNewConversation(
      otherUserEmail: string, name: string, firstMessage: Message,
      currentEmail: string, currentName: string, format: Timestamp -> string)
      returns (ok: bool)
      modifies this
      ensures var safeEmail := SafeEmail(currentEmail);
        var entries := NewConversationEntries(firstMessage, safeEmail, currentName, otherUserEmail, name, format(firstMessage.sentDate));
        Outcome(ok, database) == CreatedTree(old(database), rejected, safeEmail, otherUserEmail, ConversationId(firstMessage.messageId),
                                             entries.0, entries.1, FirstLog(firstMessage, name, safeEmail, format))
      ensures var safeEmail := SafeEmail(currentEmail);
        var conversationID := ConversationId(firstMessage.messageId);
        ok <==> (&& safeEmail in old(database) && old(database)[safeEmail].Dict?
                 && safeEmail !in rejected && conversationID !in rejected)
      ensures var safeEmail := SafeEmail(currentEmail);
        !(safeEmail in old(database) && old(database)[safeEmail].Dict?) ==> database == old(database)
      ensures ok ==>
        MessagesAt(database, ConversationId(firstMessage.messageId))
          == Some([MessageEntry(firstMessage, name, format(firstMessage.sentDate), SafeEmail(currentEmail))])
      ensures var safeEmail := SafeEmail(currentEmail);
        var entries := NewConversationEntries(firstMessage, safeEmail, currentName, otherUserEmail, name, format(firstMessage.sentDate));
        var callerList := Appended(ConversationsAt(old(database), safeEmail), entries.0);
        && safeEmail in old(database) && old(database)[safeEmail].Dict?
        && safeEmail !in rejected && safeEmail != ConversationId(firstMessage.messageId)
        ==> ConversationsAt(database, safeEmail)
              == Some(if otherUserEmail == safeEmail then Appended(Some(callerList), entries.1) else callerList)
      ensures SafeEmail(currentEmail) != ConversationId(firstMessage.messageId) ==>
        forall f :: f != "conversations" ==> Child(database, SafeEmail(currentEmail), f) == Child(old(database), SafeEmail(currentEmail), f)
      ensures var safeEmail := SafeEmail(currentEmail);
        var entries := NewConversationEntries(firstMessage, safeEmail, currentName, otherUserEmail, name, format(firstMessage.sentDate));
        && safeEmail in old(database) && old(database)[safeEmail].Dict?
        && otherUserEmail !in rejected && otherUserEmail != safeEmail && otherUserEmail != ConversationId(firstMessage.messageId)
        ==> && ConversationsAt(database, otherUserEmail) == Some(Appended(ConversationsAt(old(database), otherUserEmail), entries.1))
            && forall f :: f != "conversations" ==> Child(database, otherUserEmail, f) == Child(old(database), otherUserEmail, f)
      ensures var safeEmail := SafeEmail(currentEmail);
        var entries := NewConversationEntries(firstMessage, safeEmail, currentName, otherUserEmail, name, format(firstMessage.sentDate));
        safeEmail in old(database) && old(database)[safeEmail].Dict? && safeEmail in rejected ==>
          database == PutChild(old(database), rejected, otherUserEmail, "conversations",
                               ListOf(Appended(ConversationsAt(old(database), otherUserEmail), entries.1)))
      ensures var touched := {SafeEmail(currentEmail), otherUserEmail, ConversationId(firstMessage.messageId)};
        && old(database).Keys <= database.Keys <= old(database).Keys + touched
        && forall k :: k in old(database) && (k in rejected || k !in touched) ==> database[k] == old(database)[k]
    {
      var safeEmail := SafeEmail(currentEmail);
      if !(safeEmail in database && database[safeEmail].Dict?) {
        return false;
      }
      var userNode := database[safeEmail].fields;
      var dateString := format(firstMessage.sentDate);
      var conversationID := ConversationId(firstMessage.messageId);
      var entries := NewConversationEntries(firstMessage, safeEmail, currentName, otherUserEmail, name, dateString);
      var newConversationData, recipientNewConversationData := entries.0, entries.1;
      assert ConversationsAt(old(database), safeEmail) ==
        AsRecords(if "conversations" in userNode then Some(userNode["conversations"]) else None);

      // Update current user conversation entry
      ok := WriteUserNode(safeEmail, userNode, newConversationData);
      // Update recipient conversation entry
      var recipientWritten := AppendConversation(otherUserEmail, recipientNewConversationData);
      if ok {
        ok := FinishCreatingConversation(name, conversationID, firstMessage, currentEmail, format);
      }
      ghost var db, log := old(database), FirstLog(firstMessage, name, safeEmail, format);
      CreateOutcome(db, rejected, safeEmail, otherUserEmail, conversationID, entries.0, entries.1, log);
      CreateWritesLog(db, rejected, safeEmail, otherUserEmail, conversationID, entries.0, entries.1, log);
      if ok {
        RecordsRoundTrip([MessageEntry(firstMessage, name, dateString, safeEmail)]);
      }
      CreateFrame(db, rejected, safeEmail, otherUserEmail, conversationID, entries.0, entries.1, log);
      if safeEmail !in rejected && safeEmail != conversationID {
        CreateCallerList(db, rejected, safeEmail, otherUserEmail, conversationID, entries.0, entries.1, log);
      }
      if safeEmail != conversationID {
        CreateKeepsCallerFields(db, rejected, safeEmail, otherUserEmail, conversationID, entries.0, entries.1, log);
      }
      if otherUserEmail !in rejected && otherUserEmail != safeEmail && otherUserEmail != conversationID {
        CreateRecipientList(db, rejected, safeEmail, otherUserEmail, conversationID, entries.0, entries.1, log);
      }
      if safeEmail in rejected {
        CreateCallerRefused(db, rejected, safeEmail, otherUserEmail, conversationID, entries.0, entries.1, log);
      }
    }

    /** The caller half of `createNewConversation`: the caller's node, read
        before as `userNode`, is written back whole with `entry` appended to its
        `conversations` list (or with a singleton list when it had none). */
    method WriteUserNode(safeEmail: string, userNode: Record, entry: Record) returns (ok: bool)
      modifies this
      ensures var conversations := Appended(AsRecords(if "conversations" in userNode then Some(userNode["conversations"]) else None), entry);
        database == Put(old(database), rejected, safeEmail, Dict(userNode["conversations" := ListOf(conversations)]))
      ensures ok == (safeEmail !in rejected)
      ensures !ok ==> database == old(database)
      ensures var conversations := Appended(AsRecords(if "conversations" in userNode then Some(userNode["conversations"]) else None), entry);
        ok ==> && safeEmail in database
               && database[safeEmail] == Dict(userNode["conversations" := ListOf(conversations)])
               && ConversationsAt(database, safeEmail) == Some(conversations)
               && forall f :: f in userNode && f != "conversations" ==> Child(database, safeEmail, f) == Some(userNode[f])
      ensures database.Keys <= old(database).Keys + {safeEmail}
      ensures forall k :: k in old(database) && k != safeEmail ==> k in database && database[k] == old(database)[k]
    {
      var conversations := Appended(AsRecords(if "conversations" in userNode then Some(userNode["conversations"]) else None), entry);
      ok := SetValue(safeEmail, Dict(userNode["conversations" := ListOf(conversations)]));
      RecordsRoundTrip(conversations);
    }

    /** The recipient half of `createNewConversation`: appends `entry` to the
        list at `key/conversations`, or writes the singleton list when there is
        no list there. */
    method AppendConversation(key: string, entry: Record) returns (written: bool)
      modifies this
      ensures database == PutChild(old(database), rejected, key, "conversations",
                                   ListOf(Appended(ConversationsAt(old(database), key), entry)))
      ensures written == (key !in rejected)
      ensures !written ==> database == old(database)
      ensures written ==> ConversationsAt(database, key) == Some(Appended(ConversationsAt(old(database), key), entry))
      ensures forall f :: f != "conversations" ==> Child(database, key, f) == Child(old(database), key, f)
      ensures database.Keys <= old(database).Keys + {key}
      ensures forall k :: k in old(database) && k != key ==> k in database && database[k] == old(database)[k]
    {
      var conversations := Appended(ConversationsAt(database, key), entry);
      written := SetChildValue(key, "conversations", ListOf(conversations));
      RecordsRoundTrip(conversations);
    }

    /** `finishCreatingConversation`: replaces the conversation's node with a
        log holding the one encoded first message. */
    method FinishCreatingConversation(
      name: string, conversationID: string, firstMessage: Message,
      myEmail: string, format: Timestamp -> string)
      returns (ok: bool)
      modifies this
      ensures ok == (conversationID !in rejected)
      ensures database == Put(old(database), rejected, conversationID, FirstLog(firstMessage, name, SafeEmail(myEmail), format))
      ensures var collectionMessage := MessageEntry(firstMessage, name, format(firstMessage.sentDate), SafeEmail(myEmail));
        database == if ok then old(database)[conversationID := Dict(map["messages" := ListOf([collectionMessage])])]
                    else old(database)
      ensures ok ==>
        MessagesAt(database, conversationID) == Some([MessageEntry(firstMessage, name, format(firstMessage.sentDate), SafeEmail(myEmail))])
    {
      var dateString := format(firstMessage.sentDate);
      var currentUserEmail := SafeEmail(myEmail);
      var collectionMessage := MessageEntry(firstMessage, name, dateString, currentUserEmail);
      var value := Dict(map["messages" := ListOf([collectionMessage])]);
      ok := SetValue(conversationID, value);
      RecordsRoundTrip([collectionMessage]);
    }

    /** One delivery of `getAllConversations`: the decodable entries of the
        list at `email/conversations`, in stored order. */
    function GetAllConversations(email: string): (r: Result<seq<Group>>)
      reads this
      ensures r.Failure? <==> ConversationsAt(database, email).None?
      ensures r.Success? ==> |r.value| <= |ConversationsAt(database, email).value|
      ensures r.Success? ==> forall j :: 0 <= j < |r.value| ==>
        exists i :: 0 <= i < |ConversationsAt(database, email).value|
          && DecodeGroup(ConversationsAt(database, email).value[i]) == Some(r.value[j])
      ensures r.Success? ==> r.value == DecodeGroups(ConversationsAt(database, email).value)
    {
      var value := ConversationsAt(database, email);
      if value.None? then Failure(FailedToFetch) else Success(DecodeGroups(value.value))
    }

    /** One delivery of `getAllMessagesForConversation`: the decodable entries
        of the log at `id/messages`, in stored order, all as text messages. */
    function GetAllMessagesForConversation(id: string, parse: string -> Option<Timestamp>): (r: Result<seq<Message>>)
      reads this
      ensures r.Failure? <==> MessagesAt(database, id).None?
      ensures r.Success? ==> |r.value| <= |MessagesAt(database, id).value|
      ensures r.Success? ==> forall j :: 0 <= j < |r.value| ==> r.value[j].kind.Text?
      ensures r.Success? ==> r.value == DecodeMessages(MessagesAt(database, id).value, parse)
    {
      var value := MessagesAt(database, id);
      if value.None? then Failure(FailedToFetch) else Success(DecodeMessages(value.value, parse))
    }

    /** `sendMessages`: appends the encoded message to the log, then upserts
        the preview into the sender's list and into the recipient's list,
        stopping at the first failed step without undoing earlier writes. */
    method SendMessages(
      conversation: string, otherUserEmail: string, name: string, newMessage: Message,
      myEmail: string, currentName: string, format: Timestamp -> string)
      returns (ok: bool)
      modifies this
      ensures var currentEmail := SafeEmail(myEmail);
        var updatedValue := LatestMessageValue(format(newMessage.sentDate), MessageText(newMessage.kind));
        Outcome(ok, database) == SentTree(
          old(database), rejected, conversation, currentEmail, otherUserEmail,
          MessageEntry(newMessage, name, format(newMessage.sentDate), currentEmail), updatedValue,
          ConversationEntry(conversation, SafeEmail(otherUserEmail), name, updatedValue),
          ConversationEntry(conversation, SafeEmail(currentEmail), currentName, updatedValue))
      ensures var currentEmail := SafeEmail(myEmail);
        ok <==> (&& MessagesAt(old(database), conversation).Some?
                 && conversation !in rejected && currentEmail !in rejected && otherUserEmail !in rejected)
      ensures MessagesAt(old(database), conversation).None? || conversation in rejected ==> database == old(database)
      ensures var log := MessagesAt(old(database), conversation);
        var newMessageEntry := MessageEntry(newMessage, name, format(newMessage.sentDate), SafeEmail(myEmail));
        log.Some? && conversation !in rejected ==> MessagesAt(database, conversation) == Some(log.value + [newMessageEntry])
      ensures MessagesAt(old(database), conversation).Some? && conversation !in rejected && SafeEmail(myEmail) in rejected ==>
        && (forall k :: k in old(database) && k != conversation ==> k in database && database[k] == old(database)[k])
        && (forall f :: f != "messages" ==> Child(database, conversation, f) == Child(old(database), conversation, f))
      ensures var currentEmail := SafeEmail(myEmail);
        var updatedValue := LatestMessageValue(format(newMessage.sentDate), MessageText(newMessage.kind));
        && MessagesAt(old(database), conversation).Some? && conversation !in rejected
        && currentEmail !in rejected && otherUserEmail in rejected
        ==> ConversationsAt(database, currentEmail) == Some(UpsertInto(
              ConversationsAt(old(database), currentEmail), conversation, updatedValue,
              ConversationEntry(conversation, SafeEmail(otherUserEmail), name, updatedValue)))
      ensures var updatedValue := LatestMessageValue(format(newMessage.sentDate), MessageText(newMessage.kind));
        ok ==> && LatestFor(database, SafeEmail(myEmail), conversation) == Some(updatedValue)
               && LatestFor(database, otherUserEmail, conversation) == Some(updatedValue)
      ensures var currentEmail := SafeEmail(myEmail);
        var updatedValue := LatestMessageValue(format(newMessage.sentDate), MessageText(newMessage.kind));
        ok && currentEmail != otherUserEmail ==>
          && ConversationsAt(database, currentEmail) == Some(UpsertInto(
               ConversationsAt(old(database), currentEmail), conversation, updatedValue,
               ConversationEntry(conversation, SafeEmail(otherUserEmail), name, updatedValue)))
          && ConversationsAt(database, otherUserEmail) == Some(UpsertInto(
               ConversationsAt(old(database), otherUserEmail), conversation, updatedValue,
               ConversationEntry(conversation, currentEmail, currentName, updatedValue)))
      ensures var touched := {conversation, SafeEmail(myEmail), otherUserEmail};
        && old(database).Keys <= database.Keys <= old(database).Keys + touched
        && (forall k :: k in old(database) && (k in rejected || k !in touched) ==> database[k] == old(database)[k])
        && (forall k, f :: f != "messages" && f != "conversations" ==> Child(database, k, f) == Child(old(database), k, f))
    {
      var currentEmail := SafeEmail(myEmail);
      var dateString := format(newMessage.sentDate);
      var message := MessageText(newMessage.kind);
      var newMessageEntry := MessageEntry(newMessage, name, dateString, currentEmail);
      var updatedValue := LatestMessageValue(dateString, message);
      var senderEntry := ConversationEntry(conversation, SafeEmail(otherUserEmail), name, updatedValue);
      var recipientEntry := ConversationEntry(conversation, SafeEmail(currentEmail), currentName, updatedValue);
      var currentMessages := MessagesAt(database, conversation);
      if currentMessages.None? {
        ok := false;
      } else {
        ok := AppendMessage(conversation, currentMessages.value, newMessageEntry);
        if ok {
          ok := UpdateLatestMessages(conversation, currentEmail, otherUserEmail, updatedValue, senderEntry, recipientEntry);
        }
      }
      ghost var db := old(database);
      SafeEmailIdempotent(myEmail);
      SendOutcome(db, rejected, conversation, currentEmail, otherUserEmail, newMessageEntry, updatedValue, senderEntry, recipientEntry);
      SendSetsLatest(db, rejected, conversation, currentEmail, otherUserEmail, newMessageEntry, updatedValue, senderEntry, recipientEntry);
      SendUpsertsBothLists(db, rejected, conversation, currentEmail, otherUserEmail, newMessageEntry, updatedValue, senderEntry, recipientEntry);
      SendFrame(db, rejected, conversation, currentEmail, otherUserEmail, newMessageEntry, updatedValue, senderEntry, recipientEntry);
      if currentMessages.Some? && conversation !in rejected {
        SendAppendsLog(db, rejected, conversation, currentEmail, otherUserEmail, newMessageEntry, updatedValue, senderEntry, recipientEntry);
        if currentEmail in rejected {
          SendStopsAfterLog(db, rejected, conversation, currentEmail, otherUserEmail, newMessageEntry, updatedValue, senderEntry, recipientEntry);
        } else if otherUserEmail in rejected {
          SendStopsAfterSender(db, rejected, conversation, currentEmail, otherUserEmail, newMessageEntry, updatedValue, senderEntry, recipientEntry);
        }
      }
    }

    /** The two list steps of `sendMessages`: the preview is upserted into the
        sender's list, then, if that write went through, into the recipient's. */
    method UpdateLatestMessages(
      conversation: string, currentEmail: string, otherUserEmail: string, updatedValue: Value,
      senderEntry: Record, recipientEntry: Record)
      returns (ok: bool)
      requires CarriesLatest(senderEntry, conversation, updatedValue) && CarriesLatest(recipientEntry, conversation, updatedValue)
      modifies this
      ensures database == UpsertedBoth(old(database), rejected, conversation, currentEmail, otherUserEmail, updatedValue, senderEntry, recipientEntry)
      ensures ok <==> currentEmail !in rejected && otherUserEmail !in rejected
      ensures currentEmail in rejected ==> database == old(database)
      ensures currentEmail !in rejected && otherUserEmail in rejected ==>
        ConversationsAt(database, currentEmail) == Some(UpsertInto(ConversationsAt(old(database), currentEmail), conversation, updatedValue, senderEntry))
      ensures ok ==> && LatestFor(database, currentEmail, conversation) == Some(updatedValue)
                     && LatestFor(database, otherUserEmail, conversation) == Some(updatedValue)
      ensures ok && currentEmail != otherUserEmail ==>
        && ConversationsAt(database, currentEmail) == Some(UpsertInto(ConversationsAt(old(database), currentEmail), conversation, updatedValue, senderEntry))
        && ConversationsAt(database, otherUserEmail) == Some(UpsertInto(ConversationsAt(old(database), otherUserEmail), conversation, updatedValue, recipientEntry))
      ensures forall k, f :: f != "conversations" ==> Child(database, k, f) == Child(old(database), k, f)
      ensures old(database).Keys <= database.Keys <= old(database).Keys + {currentEmail, otherUserEmail}
      ensures forall k :: k in old(database) && (k in rejected || (k != currentEmail && k != otherUserEmail)) ==> database[k] == old(database)[k]
    {
      ok := UpsertConversation(currentEmail, conversation, updatedValue, senderEntry);
      if ok {
        ok := UpsertConversation(otherUserEmail, conversation, updatedValue, recipientEntry);
      }
      ghost var db := old(database);
      UpsertedBothFrame(db, rejected, conversation, currentEmail, otherUserEmail, updatedValue, senderEntry, recipientEntry);
      UpsertedBothLists(db, rejected, conversation, currentEmail, otherUserEmail, updatedValue, senderEntry, recipientEntry);
      if ok {
        UpsertedBothLatest(db, rejected, conversation, currentEmail, otherUserEmail, updatedValue, senderEntry, recipientEntry);
      }
    }

    /** The log step of `sendMessages`: the log read as `currentMessages` is
        written back with `entry` appended. */
    method AppendMessage(conversation: string, currentMessages: seq<Record>, entry: Record) returns (ok: bool)
      modifies this
      ensures database == PutChild(old(database), rejected, conversation, "messages", ListOf(currentMessages + [entry]))
      ensures ok == (conversation !in rejected)
      ensures !ok ==> database == old(database)
      ensures ok ==> MessagesAt(database, conversation) == Some(currentMessages + [entry])
      ensures forall f :: f != "messages" ==> Child(database, conversation, f) == Child(old(database), conversation, f)
      ensures database.Keys <= old(database).Keys + {conversation}
      ensures forall k :: k in old(database) && k != conversation ==> k in database && database[k] == old(database)[k]
    {
      var messages := currentMessages + [entry];
      ok := SetChildValue(conversation, "messages", ListOf(messages));
      RecordsRoundTrip(messages);
    }

    /** One list step of `sendMessages`: reads the list at `key/conversations`,
        upserts the preview for `conversation` and writes the list back. */
    method UpsertConversation(key: string, conversation: string, updatedValue: Value, entry: Record) returns (ok: bool)
      requires CarriesLatest(entry, conversation, updatedValue)
      modifies this
      ensures database == UpsertedAt(old(database), rejected, key, conversation, updatedValue, entry)
      ensures ok == (key !in rejected)
      ensures !ok ==> database == old(database)
      ensures ok ==> ConversationsAt(database, key) == Some(UpsertInto(ConversationsAt(old(database), key), conversation, updatedValue, entry))
      ensures ok ==> LatestFor(database, key, conversation) == Some(updatedValue)
      ensures forall f :: f != "conversations" ==> Child(database, key, f) == Child(old(database), key, f)
      ensures old(database).Keys <= database.Keys <= old(database).Keys + {key}
      ensures forall k :: k in old(database) && k != key ==> k in database && database[k] == old(database)[k]
    {
      var snapshot := ConversationsAt(database, key);
      var databaseEntryConversations := UpsertLatestMessage(snapshot, conversation, updatedValue, entry);
      UpsertIntoSetsLatest(snapshot, conversation, updatedValue, entry);
      ok := SetChildValue(key, "conversations", ListOf(databaseEntryConversations));
      RecordsRoundTrip(databaseEntryConversations);
    }

    /** `deleteConversation`, with the removal guarded: the first entry with
        the id is removed by position; when no entry has it the list is left
        as it is and `NotFound` is reported. */
    method DeleteConversation(email: string, conversationID: string) returns (result: DeleteResult)
      modifies this
      ensures var safeEmail := SafeEmail(email);
        var conversations := ConversationsAt(old(database), safeEmail);
        && (conversations.None? ==> result == ListMissing)
        && (conversations.Some? && RemoveFirst(conversations.value, conversationID).None? ==> result == NotFound)
        && (conversations.Some? && RemoveFirst(conversations.value, conversationID).Some? ==>
              result == if safeEmail in rejected then WriteRejected else Deleted)
      ensures result != Deleted ==> database == old(database)
      ensures var safeEmail := SafeEmail(email);
        result == Deleted ==>
          && ConversationsAt(database, safeEmail) == RemoveFirst(ConversationsAt(old(database), safeEmail).value, conversationID)
          && (forall f :: f != "conversations" ==> Child(database, safeEmail, f) == Child(old(database), safeEmail, f))
          && (forall k :: k in old(database) && k != safeEmail ==> k in database && database[k] == old(database)[k])
      ensures var safeEmail := SafeEmail(email);
        result == Deleted ==>
          database == PutChild(old(database), rejected, safeEmail, "conversations",
                               ListOf(RemoveFirst(ConversationsAt(old(database), safeEmail).value, conversationID).value))
    {
      var safeEmail := SafeEmail(email);
      var snapshot := ConversationsAt(database, safeEmail);
      if snapshot.None? {
        return ListMissing;
      }
      var conversations := snapshot.value;
      var positionToRemove := ScanPositionToRemove(conversations, conversationID);
      if positionToRemove >= |conversations| {
        return NotFound;
      }
      conversations := conversations[..positionToRemove] + conversations[positionToRemove + 1..];
      var written := SetChildValue(safeEmail, "conversations", ListOf(conversations));
      RecordsRoundTrip(conversations);
      result := if written then Deleted else WriteRejected;
    }

    /** `conversationExists`: in the recipient's list, the id of the first
        entry whose counterpart is the sender's key. */
    function ConversationExists(targetRecipientEmail: string, senderEmail: string): (r: Result<string>)
      reads this
      ensures var collection := ConversationsAt(database, SafeEmail(targetRecipientEmail));
        r.Success? ==> exists i ::
          && collection.Some? && 0 <= i < |collection.value|
          && HasString(collection.value[i], "other_user_email", SafeEmail(senderEmail))
          && HasString(collection.value[i], "id", r.value)
          && forall j :: 0 <= j < i ==> !HasString(collection.value[j], "other_user_email", SafeEmail(senderEmail))
      ensures var collection := ConversationsAt(database, SafeEmail(targetRecipientEmail));
        (|| collection.None?
         || forall j :: 0 <= j < |collection.value| ==>
              !HasString(collection.value[j], "other_user_email", SafeEmail(senderEmail)))
        ==> r.Failure?
      ensures var collection := ConversationsAt(database, SafeEmail(targetRecipientEmail));
        collection.Some? ==>
          var i := FirstWith(collection.value, "other_user_email", SafeEmail(senderEmail));
          i < |collection.value| && "id" in collection.value[i] && collection.value[i]["id"].Str?
          ==> r == Success(collection.value[i]["id"].s)
    {
      var collection := ConversationsAt(database, SafeEmail(targetRecipientEmail));
      if collection.None? then Failure(FailedToFetch)
      else
        var conversation := FirstForCounterpart(collection.value, SafeEmail(senderEmail));
        if conversation.None? then Failure(FailedToFetch)
        else if "id" in conversation.value && conversation.value["id"].Str? then Success(conversation.value["id"].s)
        else Failure(FailedToFetch)
    }

    /** `insertUser`: writes the user's node (replacing it whole) and, when
        that went through, adds the user to the `users` directory, creating it
        when it is absent. */
    method InsertUser(user: GroupCycleUser) returns (ok: bool)
      modifies this
      ensures Outcome(ok, database) == InsertedTree(old(database), rejected, user.SafeEmail(), UserNode(user), UserEntry(user))
      ensures ok <==> user.SafeEmail() !in rejected && "users" !in rejected
      ensures user.SafeEmail() in rejected ==> database == old(database)
      ensures user.SafeEmail() !in rejected && user.SafeEmail() != "users" ==>
        && user.SafeEmail() in database
        && database[user.SafeEmail()] == Dict(map["first_name" := Str(user.firstName), "last_name" := Str(user.lastName)])
      ensures var newElement := map["name" := Str(user.firstName + " " + user.lastName), "email" := Str(user.SafeEmail())];
        ok && user.SafeEmail() != "users" ==>
          && "users" in database
          && AsRecords(Some(database["users"])) == Some(Appended(UsersAt(old(database)), newElement))
      ensures && old(database).Keys <= database.Keys <= old(database).Keys + {user.SafeEmail(), "users"}
              && forall k :: k in old(database) && (k in rejected || (k != user.SafeEmail() && k != "users"))
                   ==> database[k] == old(database)[k]
    {
      ok := SetValue(user.SafeEmail(), Dict(map["first_name" := Str(user.firstName), "last_name" := Str(user.lastName)]));
      if ok {
        var newElement := map["name" := Str(user.firstName + " " + user.lastName), "email" := Str(user.SafeEmail())];
        var usersCollection := Appended(UsersAt(database), newElement);
        ok := SetValue("users", ListOf(usersCollection));
      }
      InsertOutcome(old(database), rejected, user.SafeEmail(), UserNode(user), UserEntry(user));
      InsertFrame(old(database), rejected, user.SafeEmail(), UserNode(user), UserEntry(user));
      if user.SafeEmail() != "users" {
        InsertWritesUser(old(database), rejected, user.SafeEmail(), UserNode(user), UserEntry(user));
      }
    }
  }

  /** Reading the log that `finishCreatingConversation` wrote gives back the
      first message alone, as a text message from the caller's key. */
  lemma FirstMessageReadBack(
    m: Manager, conversationID: string, firstMessage: Message, name: string, senderKey: string,
    format: Timestamp -> string, parse: string -> Option<Timestamp>)
    requires MessagesAt(m.database, conversationID) == Some([MessageEntry(firstMessage, name, format(firstMessage.sentDate), senderKey)])
    requires parse(format(firstMessage.sentDate)) == Some(firstMessage.sentDate)
    ensures m.GetAllMessagesForConversation(conversationID, parse) == Success([
      Message(Sender("", senderKey, name), firstMessage.messageId, firstMessage.sentDate, Text(MessageText(firstMessage.kind)))])
  {
    var entry := MessageEntry(firstMessage, name, format(firstMessage.sentDate), senderKey);
    var f := MessageDecoder(parse);
    MessageEntryRoundTrip(firstMessage, name, senderKey, format, parse);
    assert f(entry).Some?;
    assert [entry][1..] == [];
    assert CompactMap([entry], f) == [f(entry).value] + CompactMap([], f);
    assert DecodeMessages([entry], parse) == [f(entry).value];
    assert m.GetAllMessagesForConversation(conversationID, parse) == Success(DecodeMessages([entry], parse));
  }

  /** Reading a list that had one conversation entry appended gives the groups
      decoded before, followed by the new conversation's group. */
  lemma AppendedEntryReadBack(
    snapshot: Option<seq<Record>>, id: string, otherUserEmail: string, name: string, date: string, message: string)
    ensures var entry := ConversationEntry(id, otherUserEmail, name, LatestMessageValue(date, message));
      var before := if snapshot.Some? then snapshot.value else [];
      DecodeGroups(Appended(snapshot, entry))
        == DecodeGroups(before) + [Group(id, name, otherUserEmail, LatestMessage(date, message, false))]
  {
    var entry := ConversationEntry(id, otherUserEmail, name, LatestMessageValue(date, message));
    var before := if snapshot.Some? then snapshot.value else [];
    ConversationEntryRoundTrip(id, otherUserEmail, name, date, message);
    assert Appended(snapshot, entry) == before + [entry];
    CompactMapAppend(before, [entry], DecodeGroup);
    assert [entry][1..] == [];
  }
}
