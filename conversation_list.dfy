/** The per-user conversation list as a sequence of dictionaries, and the
    scans the conversation code runs over it: find the first entry with a
    given id, replace its `latest_message` or append, remove it by position,
    find the first entry for a given counterpart. */
module ConversationList {
  import opened Store

  /** Index of the first entry whose `field` is the string `value`; `|rs|` when none is. */
  function FirstWith(rs: seq<Record>, field: string, value: string): (i: nat)
    ensures i <= |rs|
    ensures forall j :: 0 <= j < i ==> !HasString(rs[j], field, value)
    ensures i < |rs| ==> HasString(rs[i], field, value)
    ensures i == |rs| <==> forall j :: 0 <= j < |rs| ==> !HasString(rs[j], field, value)
  {
    if rs == [] then 0
    else if HasString(rs[0], field, value) then 0
    else 1 + FirstWith(rs[1..], field, value)
  }

  /** The only index that is a match with no match before it is `FirstWith`. */
  lemma FirstWithUnique(rs: seq<Record>, field: string, value: string, p: nat)
    requires p <= |rs|
    requires forall j :: 0 <= j < p ==> !HasString(rs[j], field, value)
    requires p < |rs| ==> HasString(rs[p], field, value)
    ensures FirstWith(rs, field, value) == p
  {
  }

  /** Appending an entry does not move an earlier match; with no earlier
      match the appended entry is found if it matches. */
  lemma {:induction false} FirstWithAppend(rs: seq<Record>, e: Record, field: string, value: string)
    ensures FirstWith(rs, field, value) < |rs| ==> FirstWith(rs + [e], field, value) == FirstWith(rs, field, value)
    ensures FirstWith(rs, field, value) == |rs| && HasString(e, field, value) ==>
      FirstWith(rs + [e], field, value) == |rs|
  {
    var i := FirstWith(rs, field, value);
    var s := rs + [e];
    assert forall j :: 0 <= j < |rs| ==> s[j] == rs[j];
    if i < |rs| {
      FirstWithUnique(s, field, value, i);
    } else if HasString(e, field, value) {
      FirstWithUnique(s, field, value, |rs|);
    }
  }

  /** The upsert in `sendMessages` over an existing list: replace the
      `latest_message` of the first entry with id `conversation`, or append
      `newEntry` when there is none. */
  function Upserted(convs: seq<Record>, conversation: string, latest: Value, newEntry: Record): seq<Record>
  {
    var i := FirstWith(convs, "id", conversation);
    if i < |convs| then convs[i := convs[i]["latest_message" := latest]] else convs + [newEntry]
  }

  /** The upsert including the absent or malformed list, which becomes a singleton. */
  function UpsertInto(snapshot: Option<seq<Record>>, conversation: string, latest: Value, newEntry: Record): seq<Record>
  {
    if snapshot.Some? then Upserted(snapshot.value, conversation, latest, newEntry) else [newEntry]
  }

  /** The `latest_message` of the first entry with id `conversation`. */
  function LatestOf(convs: seq<Record>, conversation: string): Option<Value>
  {
    var i := FirstWith(convs, "id", conversation);
    if i < |convs| && "latest_message" in convs[i] then Some(convs[i]["latest_message"]) else None
  }

  /** The scan-and-replace-or-append loop of `sendMessages`, run once for the
      sender's list and once for the recipient's. */
  method UpsertLatestMessage(snapshot: Option<seq<Record>>, conversation: string, updatedValue: Value, newConversationData: Record)
    returns (entries: seq<Record>)
    ensures entries == UpsertInto(snapshot, conversation, updatedValue, newConversationData)
  {
    if snapshot.None? {
      return [newConversationData];
    }
    var currentConversations := snapshot.value;
    var targetConversation: Option<Record> := None;
    var position := 0;
    while position < |currentConversations|
      invariant position <= |currentConversations|
      invariant forall j :: 0 <= j < position ==> !HasString(currentConversations[j], "id", conversation)
    {
      var conversationDictionary := currentConversations[position];
      if HasString(conversationDictionary, "id", conversation) {
        targetConversation := Some(conversationDictionary);
        break;
      }
      position := position + 1;
    }
    FirstWithUnique(currentConversations, "id", conversation, position);
    if targetConversation.Some? {
      var target := targetConversation.value["latest_message" := updatedValue];
      currentConversations := currentConversations[position := target];
    } else {
      currentConversations := currentConversations + [newConversationData];
    }
    entries := currentConversations;
  }

  /** When the list holds an entry with the id, only the first such entry
      changes, and only in its `latest_message`; the length stays. */
  lemma UpsertReplacesFirstMatch(convs: seq<Record>, conversation: string, latest: Value, newEntry: Record, k: nat)
    requires k < |convs| && HasString(convs[k], "id", conversation)
    ensures var r := Upserted(convs, conversation, latest, newEntry);
      var i := FirstWith(convs, "id", conversation);
      && |r| == |convs|
      && i <= k
      && r[i] == convs[i]["latest_message" := latest]
      && (forall f :: f in convs[i] && f != "latest_message" ==> f in r[i] && r[i][f] == convs[i][f])
      && (forall j :: 0 <= j < |convs| && j != i ==> r[j] == convs[j])
  {
  }

  /** When no entry has the id, exactly `newEntry` is appended. */
  lemma UpsertAppendsWhenMissing(convs: seq<Record>, conversation: string, latest: Value, newEntry: Record)
    requires forall j :: 0 <= j < |convs| ==> !HasString(convs[j], "id", conversation)
    ensures Upserted(convs, conversation, latest, newEntry) == convs + [newEntry]
  {
  }

  /** After the upsert, the entry found for the conversation carries the new
      preview, provided the entry it may append has that id. */
  lemma UpsertIntoSetsLatest(snapshot: Option<seq<Record>>, conversation: string, latest: Value, newEntry: Record)
    requires HasString(newEntry, "id", conversation)
    requires "latest_message" in newEntry && newEntry["latest_message"] == latest
    ensures LatestOf(UpsertInto(snapshot, conversation, latest, newEntry), conversation) == Some(latest)
  {
    if snapshot.None? {
      assert FirstWith([newEntry], "id", conversation) == 0;
    } else {
      var convs := snapshot.value;
      var i := FirstWith(convs, "id", conversation);
      if i < |convs| {
        var r := Upserted(convs, conversation, latest, newEntry);
        FirstWithUnique(r, "id", conversation, i);
      } else {
        FirstWithAppend(convs, newEntry, "id", conversation);
      }
    }
  }

  /** The scan of `deleteConversation` as written: it counts the entries
      before the first one with the id, so it ends at `|conversations|` when
      none has it. */
  method ScanPositionToRemove(conversations: seq<Record>, conversationID: string) returns (positionToRemove: nat)
    ensures positionToRemove == FirstWith(conversations, "id", conversationID)
  {
    positionToRemove := 0;
    while positionToRemove < |conversations|
      invariant positionToRemove <= |conversations|
      invariant forall j :: 0 <= j < positionToRemove ==> !HasString(conversations[j], "id", conversationID)
    {
      if HasString(conversations[positionToRemove], "id", conversationID) {
        break;
      }
      positionToRemove := positionToRemove + 1;
    }
    FirstWithUnique(conversations, "id", conversationID, positionToRemove);
  }

  /** `remove(at:)` demands an index below the count, and the scan's
      position fails that demand exactly when no entry has the id (the
      fourth postcondition of `FirstWith`). A one-entry list and an id it
      does not hold: the scan stops at 1, one past the last index, so
      `remove(at:)` is called out of range. */
  lemma DeleteMissingIdOutOfRange()
    ensures var conversations := [map["id" := Str("conversation_a")]];
      FirstWith(conversations, "id", "conversation_b") == |conversations| == 1
  {
    var conversations := [map["id" := Str("conversation_a")]];
    assert !HasString(conversations[0], "id", "conversation_b");
  }

  /** The intended deletion: drop the first entry with the id, or report
      that there is none. */
  function RemoveFirst(conversations: seq<Record>, conversationID: string): (r: Option<seq<Record>>)
    ensures r.None? <==> forall j :: 0 <= j < |conversations| ==> !HasString(conversations[j], "id", conversationID)
    ensures r.Some? ==> |r.value| == |conversations| - 1
  {
    var i := FirstWith(conversations, "id", conversationID);
    if i < |conversations| then Some(conversations[..i] + conversations[i + 1..]) else None
  }

  /** Deletion removes exactly the first matching entry: the entries before
      it and after it stay, in their order, and the multiset loses only it. */
  lemma RemoveFirstRemovesExactlyFirstMatch(conversations: seq<Record>, conversationID: string, k: nat)
    requires k < |conversations| && HasString(conversations[k], "id", conversationID)
    ensures var i := FirstWith(conversations, "id", conversationID);
      var r := RemoveFirst(conversations, conversationID);
      && i <= k
      && r.Some?
      && (forall j :: 0 <= j < i ==> r.value[j] == conversations[j])
      && (forall j :: i <= j < |r.value| ==> r.value[j] == conversations[j + 1])
      && multiset(r.value) + multiset{conversations[i]} == multiset(conversations)
  {
    var i := FirstWith(conversations, "id", conversationID);
    assert conversations == conversations[..i] + [conversations[i]] + conversations[i + 1..];
  }

  /** `first(where:)` of `conversationExists`: the first entry whose
      `other_user_email` is the given key. */
  function FirstForCounterpart(collection: seq<Record>, safeSenderEmail: string): (r: Option<Record>)
    ensures r.None? <==> forall j :: 0 <= j < |collection| ==> !HasString(collection[j], "other_user_email", safeSenderEmail)
    ensures r.Some? ==> exists i ::
      && 0 <= i < |collection|
      && collection[i] == r.value
      && HasString(r.value, "other_user_email", safeSenderEmail)
      && forall j :: 0 <= j < i ==> !HasString(collection[j], "other_user_email", safeSenderEmail)
  {
    var i := FirstWith(collection, "other_user_email", safeSenderEmail);
    if i < |collection| then Some(collection[i]) else None
  }
}
