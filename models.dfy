/** The value types the conversation code works with: the registered user,
    the decoded conversation list entry (`Group`, `LatestMessage`) and the
    chat message with its sender and kind. */
module Models {
  import opened Strings

  /** Foundation `Date`; the model never looks inside it. */
  type Timestamp = int

  const ProfilePictureSuffix: string := "_profile_picture.png"

  datatype GroupCycleUser = GroupCycleUser(firstName: string, lastName: string, emailAddress: string)
  {
    /** The storage key of the user: the address with every `.` and then
        every `@` replaced by `-`. */
    function SafeEmail(): (r: string)
      ensures |r| == |emailAddress|
      ensures '.' !in r && '@' !in r
      ensures forall i :: 0 <= i < |r| ==>
        r[i] == (if emailAddress[i] == '.' || emailAddress[i] == '@' then '-' else emailAddress[i])
    {
      ReplaceAll(ReplaceAll(emailAddress, '.', '-'), '@', '-')
    }

    /** The blob name of the user's profile picture. */
    function ProfilePictureFileName(): (r: string)
      ensures EndsWith(r, ProfilePictureSuffix)
      ensures |r| == |emailAddress| + |ProfilePictureSuffix|
      ensures r[..|emailAddress|] == SafeEmail()
      ensures '@' !in r
    {
      SafeEmail() + ProfilePictureSuffix
    }
  }

  /** The `latest_message` preview of a conversation list entry. */
  datatype LatestMessage = LatestMessage(date: string, text: string, isRead: bool)

  /** One decoded entry of a user's conversation list. */
  datatype Group = Group(id: string, name: string, otherUserEmail: string, latestMessage: LatestMessage)

  datatype Sender = Sender(photoURL: string, senderId: string, displayName: string)

  /** MessageKit's `MessageKind`. Only the text case carries a payload that
      the conversation code reads; the payloads of the others are dropped. */
  datatype MessageKind =
    | Text(text: string)
    | AttributedText
    | Photo
    | Video
    | Location
    | Emoji
    | Audio
    | Contact
    | LinkPreview
    | Custom

  datatype Message = Message(sender: Sender, messageId: string, sentDate: Timestamp, kind: MessageKind)
}
