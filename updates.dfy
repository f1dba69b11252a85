/** The tree each write operation of `DatabaseManager` leaves behind, step by
    step, with the store refusing writes under the keys in `rejected`. The
    step functions take the keys and the dictionaries already built, so what
    is proved here holds for any entries. */
module Updates {
  import opened Store
  import opened ConversationList

  /** The conversation list at `key/conversations`, when it is a list of dictionaries. */
  function ConversationsAt(db: Tree, key: string): Option<seq<Record>> {
    AsRecords(Child(db, key, "conversations"))
  }

  /** The message log at `conversation/messages`, when it is a list of dictionaries. */
  function MessagesAt(db: Tree, conversation: string): Option<seq<Record>> {
    AsRecords(Child(db, conversation, "messages"))
  }

  /** The preview stored for `conversation` in the list of `key`. */
  function LatestFor(db: Tree, key: string, conversation: string): Option<Value> {
    var convs := ConversationsAt(db, key);
    if convs.Some? then LatestOf(convs.value, conversation) else None
  }

  /** The list after appending `entry`, or the singleton when there was none. */
  function Appended(snapshot: Option<seq<Record>>, entry: Record): (r: seq<Record>)
    ensures |r| >= 1 && r[|r| - 1] == entry
    ensures snapshot.Some? ==> |r| == |snapshot.value| + 1 && r[..|snapshot.value|] == snapshot.value
    ensures snapshot.None? ==> |r| == 1
  {
    if snapshot.Some? then snapshot.value + [entry] else [entry]
  }

  /** `setValue` on the node at `key`, as the store applies it: a write under
      a refused key leaves the tree as it was. */
  function Put(db: Tree, rejected: set<string>, key: string, value: Value): Tree {
    if key in rejected then db else db[key := value]
  }

  /** `setValue` on the path `key/field`, as the store applies it. */
  function PutChild(db: Tree, rejected: set<string>, key: string, field: string, value: Value): Tree {
    if key in rejected then db else WithChild(db, key, field, value)
  }

  /** One path read after a write of `key/field`: only that path changes,
      and only when the write is accepted. */
  lemma ChildAfterPutChild(db: Tree, rejected: set<string>, key: string, field: string, v: Value, k: string, f: string)
    ensures Child(PutChild(db, rejected, key, field, v), k, f)
      == if k == key && f == field && key !in rejected then Some(v) else Child(db, k, f)
  {
    if key !in rejected && k != key {
      assert Fields(PutChild(db, rejected, key, field, v), k) == Fields(db, k);
    }
  }

  /** One path read after a whole-node write of another key. */
  lemma ChildAfterPut(db: Tree, rejected: set<string>, key: string, v: Value, k: string, f: string)
    requires k != key
    ensures Child(Put(db, rejected, key, v), k, f) == Child(db, k, f)
  {
    assert Fields(Put(db, rejected, key, v), k) == Fields(db, k);
  }

  /** What one operation reports through its completion, and the tree it
      leaves behind. */
  datatype Outcome = Outcome(ok: bool, db: Tree)

  // ---------------------------------------------------------------------
  // createNewConversation
  // ---------------------------------------------------------------------

  /** The caller's node as `createNewConversation` writes it back: the node
      read before, whole, with `entry` appended to its list. */
  function CallerNode(db: Tree, safeEmail: string, entry: Record): Value {
    Dict(Fields(db, safeEmail)["conversations" := ListOf(Appended(ConversationsAt(db, safeEmail), entry))])
  }

  /** `createNewConversation` step by step. The caller's node is written back
      with `callerEntry` appended; the recipient's list is then read and
      written with `recipientEntry` appended whatever became of the caller's
      write; only when the caller's write went through is `log` written as
      the conversation's node. */
  function CreatedTree(
    db: Tree, rejected: set<string>, safeEmail: string, otherUserEmail: string, conversationID: string,
    callerEntry: Record, recipientEntry: Record, log: Value): Outcome
  {
    if !(safeEmail in db && db[safeEmail].Dict?) then Outcome(false, db)
    else
      var afterCaller := Put(db, rejected, safeEmail, CallerNode(db, safeEmail, callerEntry));
      var afterRecipient := PutChild(afterCaller, rejected, otherUserEmail, "conversations",
        ListOf(Appended(ConversationsAt(afterCaller, otherUserEmail), recipientEntry)));
      if safeEmail in rejected then Outcome(false, afterRecipient)
      else Outcome(conversationID !in rejected, Put(afterRecipient, rejected, conversationID, log))
  }

  /** Writing the caller's node back is a write of its `conversations` child. */
  lemma CallerNodeIsChildWrite(db: Tree, rejected: set<string>, safeEmail: string, entry: Record)
    requires safeEmail in db && db[safeEmail].Dict?
    ensures Put(db, rejected, safeEmail, CallerNode(db, safeEmail, entry))
      == PutChild(db, rejected, safeEmail, "conversations", ListOf(Appended(ConversationsAt(db, safeEmail), entry)))
  {
  }

  /** Success exactly when the caller's node exists and both the caller's
      write and the log write are accepted; with no caller node nothing is
      written. */
  lemma CreateOutcome(
    db: Tree, rejected: set<string>, safeEmail: string, otherUserEmail: string, conversationID: string,
    callerEntry: Record, recipientEntry: Record, log: Value)
    ensures var o := CreatedTree(db, rejected, safeEmail, otherUserEmail, conversationID, callerEntry, recipientEntry, log);
      && (o.ok <==> safeEmail in db && db[safeEmail].Dict? && safeEmail !in rejected && conversationID !in rejected)
      && (!(safeEmail in db && db[safeEmail].Dict?) ==> o.db == db)
  {
  }

  /** When the caller's write is refused, the recipient's entry is still
      appended, and nothing else is written. */
  lemma CreateCallerRefused(
    db: Tree, rejected: set<string>, safeEmail: string, otherUserEmail: string, conversationID: string,
    callerEntry: Record, recipientEntry: Record, log: Value)
    requires safeEmail in db && db[safeEmail].Dict? && safeEmail in rejected
    ensures var o := CreatedTree(db, rejected, safeEmail, otherUserEmail, conversationID, callerEntry, recipientEntry, log);
      o.db == PutChild(db, rejected, otherUserEmail, "conversations",
                       ListOf(Appended(ConversationsAt(db, otherUserEmail), recipientEntry)))
  {
  }

  /** On success the conversation's node is the log, whatever the recipient's
      write did. */
  lemma CreateWritesLog(
    db: Tree, rejected: set<string>, safeEmail: string, otherUserEmail: string, conversationID: string,
    callerEntry: Record, recipientEntry: Record, log: Value)
    ensures var o := CreatedTree(db, rejected, safeEmail, otherUserEmail, conversationID, callerEntry, recipientEntry, log);
      o.ok ==> conversationID in o.db && o.db[conversationID] == log
  {
  }

  /** When the caller's write goes through, the caller's list gains the
      caller's entry; in a conversation with oneself the recipient's entry
      follows it, so neither is lost. */
  lemma CreateCallerList(
    db: Tree, rejected: set<string>, safeEmail: string, otherUserEmail: string, conversationID: string,
    callerEntry: Record, recipientEntry: Record, log: Value)
    requires safeEmail in db && db[safeEmail].Dict? && safeEmail !in rejected && safeEmail != conversationID
    ensures var o := CreatedTree(db, rejected, safeEmail, otherUserEmail, conversationID, callerEntry, recipientEntry, log);
      var callerList := Appended(ConversationsAt(db, safeEmail), callerEntry);
      ConversationsAt(o.db, safeEmail)
        == Some(if otherUserEmail == safeEmail then Appended(Some(callerList), recipientEntry) else callerList)
  {
    var callerList := Appended(ConversationsAt(db, safeEmail), callerEntry);
    CallerNodeIsChildWrite(db, rejected, safeEmail, callerEntry);
    var afterCaller := PutChild(db, rejected, safeEmail, "conversations", ListOf(callerList));
    ChildAfterPutChild(db, rejected, safeEmail, "conversations", ListOf(callerList), safeEmail, "conversations");
    RecordsRoundTrip(callerList);
    var recipientList := Appended(ConversationsAt(afterCaller, otherUserEmail), recipientEntry);
    var afterRecipient := PutChild(afterCaller, rejected, otherUserEmail, "conversations", ListOf(recipientList));
    ChildAfterPutChild(afterCaller, rejected, otherUserEmail, "conversations", ListOf(recipientList), safeEmail, "conversations");
    RecordsRoundTrip(recipientList);
    ChildAfterPut(afterRecipient, rejected, conversationID, log, safeEmail, "conversations");
  }

  /** No field of the caller's node other than `conversations` changes,
      whatever becomes of the writes. */
  lemma CreateKeepsCallerFields(
    db: Tree, rejected: set<string>, safeEmail: string, otherUserEmail: string, conversationID: string,
    callerEntry: Record, recipientEntry: Record, log: Value)
    requires safeEmail != conversationID
    ensures var o := CreatedTree(db, rejected, safeEmail, otherUserEmail, conversationID, callerEntry, recipientEntry, log);
      forall f :: f != "conversations" ==> Child(o.db, safeEmail, f) == Child(db, safeEmail, f)
  {
    if safeEmail in db && db[safeEmail].Dict? {
      var callerValue := ListOf(Appended(ConversationsAt(db, safeEmail), callerEntry));
      CallerNodeIsChildWrite(db, rejected, safeEmail, callerEntry);
      var afterCaller := PutChild(db, rejected, safeEmail, "conversations", callerValue);
      var recipientValue := ListOf(Appended(ConversationsAt(afterCaller, otherUserEmail), recipientEntry));
      var afterRecipient := PutChild(afterCaller, rejected, otherUserEmail, "conversations", recipientValue);
      var o := CreatedTree(db, rejected, safeEmail, otherUserEmail, conversationID, callerEntry, recipientEntry, log);
      assert o.db == afterRecipient || o.db == Put(afterRecipient, rejected, conversationID, log);
      forall f | f != "conversations" ensures Child(o.db, safeEmail, f) == Child(db, safeEmail, f) {
        ChildAfterPutChild(db, rejected, safeEmail, "conversations", callerValue, safeEmail, f);
        ChildAfterPutChild(afterCaller, rejected, otherUserEmail, "conversations", recipientValue, safeEmail, f);
        ChildAfterPut(afterRecipient, rejected, conversationID, log, safeEmail, f);
      }
    }
  }

  /** The recipient's list gains the recipient's entry whenever the store
      accepts that write, whatever became of the caller's, and the
      recipient's node keeps its other fields. */
  lemma CreateRecipientList(
    db: Tree, rejected: set<string>, safeEmail: string, otherUserEmail: string, conversationID: string,
    callerEntry: Record, recipientEntry: Record, log: Value)
    requires safeEmail in db && db[safeEmail].Dict? && otherUserEmail !in rejected
    requires otherUserEmail != safeEmail && otherUserEmail != conversationID
    ensures var o := CreatedTree(db, rejected, safeEmail, otherUserEmail, conversationID, callerEntry, recipientEntry, log);
      && ConversationsAt(o.db, otherUserEmail) == Some(Appended(ConversationsAt(db, otherUserEmail), recipientEntry))
      && forall f :: f != "conversations" ==> Child(o.db, otherUserEmail, f) == Child(db, otherUserEmail, f)
  {
    var callerNode := CallerNode(db, safeEmail, callerEntry);
    var afterCaller := Put(db, rejected, safeEmail, callerNode);
    ChildAfterPut(db, rejected, safeEmail, callerNode, otherUserEmail, "conversations");
    assert ConversationsAt(afterCaller, otherUserEmail) == ConversationsAt(db, otherUserEmail);
    var recipientList := Appended(ConversationsAt(db, otherUserEmail), recipientEntry);
    var afterRecipient := PutChild(afterCaller, rejected, otherUserEmail, "conversations", ListOf(recipientList));
    var o := CreatedTree(db, rejected, safeEmail, otherUserEmail, conversationID, callerEntry, recipientEntry, log);
    assert o.db == afterRecipient || o.db == Put(afterRecipient, rejected, conversationID, log);
    ChildAfterPutChild(afterCaller, rejected, otherUserEmail, "conversations", ListOf(recipientList), otherUserEmail, "conversations");
    ChildAfterPut(afterRecipient, rejected, conversationID, log, otherUserEmail, "conversations");
    RecordsRoundTrip(recipientList);
    forall f | f != "conversations" ensures Child(o.db, otherUserEmail, f) == Child(db, otherUserEmail, f) {
      ChildAfterPut(db, rejected, safeEmail, callerNode, otherUserEmail, f);
      ChildAfterPutChild(afterCaller, rejected, otherUserEmail, "conversations", ListOf(recipientList), otherUserEmail, f);
      ChildAfterPut(afterRecipient, rejected, conversationID, log, otherUserEmail, f);
    }
  }

  /** At most the caller's node, the recipient's node and the conversation's
      node are written, and never a refused one. */
  lemma CreateFrame(
    db: Tree, rejected: set<string>, safeEmail: string, otherUserEmail: string, conversationID: string,
    callerEntry: Record, recipientEntry: Record, log: Value)
    ensures var o := CreatedTree(db, rejected, safeEmail, otherUserEmail, conversationID, callerEntry, recipientEntry, log);
      var touched := {safeEmail, otherUserEmail, conversationID};
      && db.Keys <= o.db.Keys <= db.Keys + touched
      && forall k :: k in db && (k in rejected || k !in touched) ==> o.db[k] == db[k]
  {
  }

  // ---------------------------------------------------------------------
  // sendMessages
  // ---------------------------------------------------------------------

  /** The entry carries the conversation's id and `latest` as its preview. */
  predicate CarriesLatest(entry: Record, conversation: string, latest: Value) {
    HasString(entry, "id", conversation) && "latest_message" in entry && entry["latest_message"] == latest
  }

  /** The tree after the list at `key/conversations` is read, the preview for
      `conversation` upserted into it, and the list written back. */
  function UpsertedAt(db: Tree, rejected: set<string>, key: string, conversation: string, latest: Value, entry: Record): Tree {
    PutChild(db, rejected, key, "conversations", ListOf(UpsertInto(ConversationsAt(db, key), conversation, latest, entry)))
  }

  /** The two list steps of `sendMessages`: the sender's upsert, then the
      recipient's, issued only when the sender's went through. */
  function UpsertedBoth(
    db: Tree, rejected: set<string>, conversation: string, currentEmail: string, otherUserEmail: string,
    latest: Value, senderEntry: Record, recipientEntry: Record): Tree
  {
    if currentEmail in rejected then db
    else UpsertedAt(UpsertedAt(db, rejected, currentEmail, conversation, latest, senderEntry),
                    rejected, otherUserEmail, conversation, latest, recipientEntry)
  }

  /** The two list steps change no path but the participants' lists, and
      never a refused node. */
  lemma UpsertedBothFrame(
    db: Tree, rejected: set<string>, conversation: string, currentEmail: string, otherUserEmail: string,
    latest: Value, senderEntry: Record, recipientEntry: Record)
    ensures var db' := UpsertedBoth(db, rejected, conversation, currentEmail, otherUserEmail, latest, senderEntry, recipientEntry);
      && db.Keys <= db'.Keys <= db.Keys + {currentEmail, otherUserEmail}
      && (forall k :: k in db && (k in rejected || (k != currentEmail && k != otherUserEmail)) ==> db'[k] == db[k])
      && (forall k, f :: f != "conversations" ==> Child(db', k, f) == Child(db, k, f))
  {
    if currentEmail !in rejected {
      var senderValue := ListOf(UpsertInto(ConversationsAt(db, currentEmail), conversation, latest, senderEntry));
      var afterSender := UpsertedAt(db, rejected, currentEmail, conversation, latest, senderEntry);
      var recipientValue := ListOf(UpsertInto(ConversationsAt(afterSender, otherUserEmail), conversation, latest, recipientEntry));
      var db' := UpsertedBoth(db, rejected, conversation, currentEmail, otherUserEmail, latest, senderEntry, recipientEntry);
      forall k, f | f != "conversations" ensures Child(db', k, f) == Child(db, k, f) {
        ChildAfterPutChild(db, rejected, currentEmail, "conversations", senderValue, k, f);
        ChildAfterPutChild(afterSender, rejected, otherUserEmail, "conversations", recipientValue, k, f);
      }
    }
  }

  /** After the two list steps, the sender's list is its old list with the
      preview upserted, unless the recipient's write landed on the same
      node; the recipient's list is its old list with the preview upserted
      when both writes went through on two different nodes. */
  lemma UpsertedBothLists(
    db: Tree, rejected: set<string>, conversation: string, currentEmail: string, otherUserEmail: string,
    latest: Value, senderEntry: Record, recipientEntry: Record)
    requires CarriesLatest(senderEntry, conversation, latest)
    ensures var db' := UpsertedBoth(db, rejected, conversation, currentEmail, otherUserEmail, latest, senderEntry, recipientEntry);
      && (currentEmail !in rejected && (otherUserEmail in rejected || otherUserEmail != currentEmail) ==>
            ConversationsAt(db', currentEmail) == Some(UpsertInto(ConversationsAt(db, currentEmail), conversation, latest, senderEntry)))
      && (currentEmail !in rejected && otherUserEmail !in rejected && otherUserEmail != currentEmail ==>
            ConversationsAt(db', otherUserEmail) == Some(UpsertInto(ConversationsAt(db, otherUserEmail), conversation, latest, recipientEntry)))
  {
    if currentEmail !in rejected {
      var senderList := UpsertInto(ConversationsAt(db, currentEmail), conversation, latest, senderEntry);
      var afterSender := UpsertedAt(db, rejected, currentEmail, conversation, latest, senderEntry);
      var recipientList := UpsertInto(ConversationsAt(afterSender, otherUserEmail), conversation, latest, recipientEntry);
      RecordsRoundTrip(senderList);
      RecordsRoundTrip(recipientList);
      ChildAfterPutChild(db, rejected, currentEmail, "conversations", ListOf(senderList), currentEmail, "conversations");
      ChildAfterPutChild(db, rejected, currentEmail, "conversations", ListOf(senderList), otherUserEmail, "conversations");
      ChildAfterPutChild(afterSender, rejected, otherUserEmail, "conversations", ListOf(recipientList), currentEmail, "conversations");
      ChildAfterPutChild(afterSender, rejected, otherUserEmail, "conversations", ListOf(recipientList), otherUserEmail, "conversations");
    }
  }

  /** When both list steps go through, both participants' lists carry the
      new preview for the conversation. */
  lemma UpsertedBothLatest(
    db: Tree, rejected: set<string>, conversation: string, currentEmail: string, otherUserEmail: string,
    latest: Value, senderEntry: Record, recipientEntry: Record)
    requires CarriesLatest(senderEntry, conversation, latest) && CarriesLatest(recipientEntry, conversation, latest)
    requires currentEmail !in rejected && otherUserEmail !in rejected
    ensures var db' := UpsertedBoth(db, rejected, conversation, currentEmail, otherUserEmail, latest, senderEntry, recipientEntry);
      && LatestFor(db', currentEmail, conversation) == Some(latest)
      && LatestFor(db', otherUserEmail, conversation) == Some(latest)
  {
    var senderList := UpsertInto(ConversationsAt(db, currentEmail), conversation, latest, senderEntry);
    var afterSender := UpsertedAt(db, rejected, currentEmail, conversation, latest, senderEntry);
    var recipientList := UpsertInto(ConversationsAt(afterSender, otherUserEmail), conversation, latest, recipientEntry);
    UpsertIntoSetsLatest(ConversationsAt(db, currentEmail), conversation, latest, senderEntry);
    UpsertIntoSetsLatest(ConversationsAt(afterSender, otherUserEmail), conversation, latest, recipientEntry);
    RecordsRoundTrip(senderList);
    RecordsRoundTrip(recipientList);
    ChildAfterPutChild(db, rejected, currentEmail, "conversations", ListOf(senderList), currentEmail, "conversations");
    ChildAfterPutChild(afterSender, rejected, otherUserEmail, "conversations", ListOf(recipientList), currentEmail, "conversations");
    ChildAfterPutChild(afterSender, rejected, otherUserEmail, "conversations", ListOf(recipientList), otherUserEmail, "conversations");
  }

  /** `sendMessages` step by step: the log append, then the two list steps,
      each issued only when the one before went through. */
  function SentTree(
    db: Tree, rejected: set<string>, conversation: string, currentEmail: string, otherUserEmail: string,
    messageEntry: Record, latest: Value, senderEntry: Record, recipientEntry: Record): Outcome
  {
    var log := MessagesAt(db, conversation);
    if log.None? || conversation in rejected then Outcome(false, db)
    else
      var afterLog := PutChild(db, rejected, conversation, "messages", ListOf(log.value + [messageEntry]));
      Outcome(currentEmail !in rejected && otherUserEmail !in rejected,
              UpsertedBoth(afterLog, rejected, conversation, currentEmail, otherUserEmail, latest, senderEntry, recipientEntry))
  }

  /** The log append leaves every conversation list as it was. */
  lemma LogAppendKeepsLists(db: Tree, rejected: set<string>, conversation: string, messageEntry: Record, key: string)
    requires MessagesAt(db, conversation).Some?
    ensures var afterLog := PutChild(db, rejected, conversation, "messages", ListOf(MessagesAt(db, conversation).value + [messageEntry]));
      ConversationsAt(afterLog, key) == ConversationsAt(db, key)
  {
    ChildAfterPutChild(db, rejected, conversation, "messages", ListOf(MessagesAt(db, conversation).value + [messageEntry]), key, "conversations");
  }

  /** Success exactly when the log exists and all three writes are accepted;
      without a log, or when the log write is refused, nothing changes. */
  lemma SendOutcome(
    db: Tree, rejected: set<string>, conversation: string, currentEmail: string, otherUserEmail: string,
    messageEntry: Record, latest: Value, senderEntry: Record, recipientEntry: Record)
    ensures var o := SentTree(db, rejected, conversation, currentEmail, otherUserEmail, messageEntry, latest, senderEntry, recipientEntry);
      && (o.ok <==> && MessagesAt(db, conversation).Some? && conversation !in rejected
                    && currentEmail !in rejected && otherUserEmail !in rejected)
      && (MessagesAt(db, conversation).None? || conversation in rejected ==> o.db == db)
  {
  }

  /** Once the log write is accepted the log ends with the new message,
      whatever the later steps do. */
  lemma SendAppendsLog(
    db: Tree, rejected: set<string>, conversation: string, currentEmail: string, otherUserEmail: string,
    messageEntry: Record, latest: Value, senderEntry: Record, recipientEntry: Record)
    requires MessagesAt(db, conversation).Some? && conversation !in rejected
    ensures var o := SentTree(db, rejected, conversation, currentEmail, otherUserEmail, messageEntry, latest, senderEntry, recipientEntry);
      MessagesAt(o.db, conversation) == Some(MessagesAt(db, conversation).value + [messageEntry])
  {
    var log := MessagesAt(db, conversation).value + [messageEntry];
    var afterLog := PutChild(db, rejected, conversation, "messages", ListOf(log));
    ChildAfterPutChild(db, rejected, conversation, "messages", ListOf(log), conversation, "messages");
    RecordsRoundTrip(log);
    UpsertedBothFrame(afterLog, rejected, conversation, currentEmail, otherUserEmail, latest, senderEntry, recipientEntry);
  }

  /** When the sender's write is refused, the log append is the only change. */
  lemma SendStopsAfterLog(
    db: Tree, rejected: set<string>, conversation: string, currentEmail: string, otherUserEmail: string,
    messageEntry: Record, latest: Value, senderEntry: Record, recipientEntry: Record)
    requires MessagesAt(db, conversation).Some? && conversation !in rejected && currentEmail in rejected
    ensures var o := SentTree(db, rejected, conversation, currentEmail, otherUserEmail, messageEntry, latest, senderEntry, recipientEntry);
      && (forall k :: k in db && k != conversation ==> k in o.db && o.db[k] == db[k])
      && (forall f :: f != "messages" ==> Child(o.db, conversation, f) == Child(db, conversation, f))
  {
    var logValue := ListOf(MessagesAt(db, conversation).value + [messageEntry]);
    forall f | f != "messages" ensures Child(PutChild(db, rejected, conversation, "messages", logValue), conversation, f) == Child(db, conversation, f) {
      ChildAfterPutChild(db, rejected, conversation, "messages", logValue, conversation, f);
    }
  }

  /** When the recipient's write is refused, the sender's list has already
      been upserted and stays so. */
  lemma SendStopsAfterSender(
    db: Tree, rejected: set<string>, conversation: string, currentEmail: string, otherUserEmail: string,
    messageEntry: Record, latest: Value, senderEntry: Record, recipientEntry: Record)
    requires MessagesAt(db, conversation).Some? && conversation !in rejected
    requires currentEmail !in rejected && otherUserEmail in rejected
    requires CarriesLatest(senderEntry, conversation, latest)
    ensures var o := SentTree(db, rejected, conversation, currentEmail, otherUserEmail, messageEntry, latest, senderEntry, recipientEntry);
      ConversationsAt(o.db, currentEmail) == Some(UpsertInto(ConversationsAt(db, currentEmail), conversation, latest, senderEntry))
  {
    var afterLog := PutChild(db, rejected, conversation, "messages", ListOf(MessagesAt(db, conversation).value + [messageEntry]));
    LogAppendKeepsLists(db, rejected, conversation, messageEntry, currentEmail);
    UpsertedBothLists(afterLog, rejected, conversation, currentEmail, otherUserEmail, latest, senderEntry, recipientEntry);
  }

  /** On success both participants' lists carry the new preview for the
      conversation. */
  lemma SendSetsLatest(
    db: Tree, rejected: set<string>, conversation: string, currentEmail: string, otherUserEmail: string,
    messageEntry: Record, latest: Value, senderEntry: Record, recipientEntry: Record)
    requires CarriesLatest(senderEntry, conversation, latest) && CarriesLatest(recipientEntry, conversation, latest)
    ensures var o := SentTree(db, rejected, conversation, currentEmail, otherUserEmail, messageEntry, latest, senderEntry, recipientEntry);
      o.ok ==> && LatestFor(o.db, currentEmail, conversation) == Some(latest)
               && LatestFor(o.db, otherUserEmail, conversation) == Some(latest)
  {
    var o := SentTree(db, rejected, conversation, currentEmail, otherUserEmail, messageEntry, latest, senderEntry, recipientEntry);
    if o.ok {
      var afterLog := PutChild(db, rejected, conversation, "messages", ListOf(MessagesAt(db, conversation).value + [messageEntry]));
      UpsertedBothLatest(afterLog, rejected, conversation, currentEmail, otherUserEmail, latest, senderEntry, recipientEntry);
    }
  }

  /** On success with two different participants, each list is its old list
      with the preview upserted. */
  lemma SendUpsertsBothLists(
    db: Tree, rejected: set<string>, conversation: string, currentEmail: string, otherUserEmail: string,
    messageEntry: Record, latest: Value, senderEntry: Record, recipientEntry: Record)
    requires CarriesLatest(senderEntry, conversation, latest)
    ensures var o := SentTree(db, rejected, conversation, currentEmail, otherUserEmail, messageEntry, latest, senderEntry, recipientEntry);
      o.ok && currentEmail != otherUserEmail ==>
        && ConversationsAt(o.db, currentEmail) == Some(UpsertInto(ConversationsAt(db, currentEmail), conversation, latest, senderEntry))
        && ConversationsAt(o.db, otherUserEmail) == Some(UpsertInto(ConversationsAt(db, otherUserEmail), conversation, latest, recipientEntry))
  {
    var o := SentTree(db, rejected, conversation, currentEmail, otherUserEmail, messageEntry, latest, senderEntry, recipientEntry);
    if o.ok && currentEmail != otherUserEmail {
      var afterLog := PutChild(db, rejected, conversation, "messages", ListOf(MessagesAt(db, conversation).value + [messageEntry]));
      LogAppendKeepsLists(db, rejected, conversation, messageEntry, currentEmail);
      LogAppendKeepsLists(db, rejected, conversation, messageEntry, otherUserEmail);
      UpsertedBothLists(afterLog, rejected, conversation, currentEmail, otherUserEmail, latest, senderEntry, recipientEntry);
    }
  }

  /** At most the log's node and the two participants' nodes are written,
      never a refused one, and no field other than `messages` and
      `conversations` changes anywhere. */
  lemma SendFrame(
    db: Tree, rejected: set<string>, conversation: string, currentEmail: string, otherUserEmail: string,
    messageEntry: Record, latest: Value, senderEntry: Record, recipientEntry: Record)
    ensures var o := SentTree(db, rejected, conversation, currentEmail, otherUserEmail, messageEntry, latest, senderEntry, recipientEntry);
      var touched := {conversation, currentEmail, otherUserEmail};
      && db.Keys <= o.db.Keys <= db.Keys + touched
      && (forall k :: k in db && (k in rejected || k !in touched) ==> o.db[k] == db[k])
      && (forall k, f :: f != "messages" && f != "conversations" ==> Child(o.db, k, f) == Child(db, k, f))
  {
    var log := MessagesAt(db, conversation);
    if log.Some? && conversation !in rejected {
      var logValue := ListOf(log.value + [messageEntry]);
      var afterLog := PutChild(db, rejected, conversation, "messages", logValue);
      UpsertedBothFrame(afterLog, rejected, conversation, currentEmail, otherUserEmail, latest, senderEntry, recipientEntry);
      forall k, f | f != "messages" && f != "conversations" ensures Child(afterLog, k, f) == Child(db, k, f) {
        ChildAfterPutChild(db, rejected, conversation, "messages", logValue, k, f);
      }
    }
  }

  // ---------------------------------------------------------------------
  // insertUser
  // ---------------------------------------------------------------------

  /** Every field of the dictionary is a string (`[String : String]`). */
  predicate AllStrings(r: Record) {
    forall f :: f in r ==> r[f].Str?
  }

  /** The cast of the `users` node to `[[String : String]]`. */
  function UsersAt(db: Tree): (users: Option<seq<Record>>)
    ensures var cast := AsRecords(if "users" in db then Some(db["users"]) else None);
      users.Some? <==> cast.Some? && forall i :: 0 <= i < |cast.value| ==> AllStrings(cast.value[i])
    ensures users.Some? ==> users == AsRecords(if "users" in db then Some(db["users"]) else None)
  {
    UsersIn(if "users" in db then Some(db["users"]) else None)
  }

  /** The cast `as? [[String : String]]` of a node's value. */
  function UsersIn(node: Option<Value>): Option<seq<Record>> {
    var rs := AsRecords(node);
    if rs.Some? && forall i :: 0 <= i < |rs.value| ==> AllStrings(rs.value[i]) then rs else None
  }

  /** `insertUser` step by step: the user's node is written, then, when that
      went through, `userEntry` is appended to the `users` directory. */
  function InsertedTree(db: Tree, rejected: set<string>, key: string, userNode: Value, userEntry: Record): Outcome {
    if key in rejected then Outcome(false, db)
    else
      var afterNode := db[key := userNode];
      Outcome("users" !in rejected, Put(afterNode, rejected, "users", ListOf(Appended(UsersAt(afterNode), userEntry))))
  }

  /** Success exactly when both writes are accepted; a refused node write
      changes nothing, the `users` directory included. */
  lemma InsertOutcome(db: Tree, rejected: set<string>, key: string, userNode: Value, userEntry: Record)
    ensures var o := InsertedTree(db, rejected, key, userNode, userEntry);
      && (o.ok <==> key !in rejected && "users" !in rejected)
      && (key in rejected ==> o.db == db)
  {
  }

  /** An accepted node write leaves the user's node in place, and on success
      the directory is the old one with the user's entry appended. */
  lemma InsertWritesUser(db: Tree, rejected: set<string>, key: string, userNode: Value, userEntry: Record)
    requires key != "users"
    ensures var o := InsertedTree(db, rejected, key, userNode, userEntry);
      && (key !in rejected ==> key in o.db && o.db[key] == userNode)
      && (o.ok ==> "users" in o.db && AsRecords(Some(o.db["users"])) == Some(Appended(UsersAt(db), userEntry)))
  {
    var o := InsertedTree(db, rejected, key, userNode, userEntry);
    if o.ok {
      var afterNode := db[key := userNode];
      var node := if "users" in db then Some(db["users"]) else None;
      assert (if "users" in afterNode then Some(afterNode["users"]) else None) == node;
      assert UsersAt(afterNode) == UsersIn(node) == UsersAt(db);
      RecordsRoundTrip(Appended(UsersAt(db), userEntry));
    }
  }

  /** At most the user's node and the directory are written, never a refused
      one. */
  lemma InsertFrame(db: Tree, rejected: set<string>, key: string, userNode: Value, userEntry: Record)
    ensures var o := InsertedTree(db, rejected, key, userNode, userEntry);
      && db.Keys <= o.db.Keys <= db.Keys + {key, "users"}
      && forall k :: k in db && (k in rejected || (k != key && k != "users")) ==> o.db[k] == db[k]
  {
  }
}
