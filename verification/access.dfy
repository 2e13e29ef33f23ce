/** The access rules of app/access.py: only the configured admin is served;
    in group chats the admin must also mention the bot or reply to it; and
    the bot leaves every chat it was added to by someone else. */
module Access {
  import opened Wrappers
  import opened Text

  datatype User = User(id: int, username: Option<string>)

  datatype Chat = Chat(id: int, chatType: string)

  datatype Message = Message(
    fromUser: Option<User>,
    chat: Chat,
    text: Option<string>,
    replyTo: Option<Message>)

  /** The membership statuses a chat-member update can carry. */
  datatype MemberStatus = Creator | Administrator | Member | Restricted | Left | Kicked

  /** A change of the bot's own membership in a chat. */
  datatype ChatMemberUpdated = ChatMemberUpdated(fromUser: Option<User>, chat: Chat, newStatus: MemberStatus)

  /** The id of the message's sender, `None` when there is no sender. */
  function SenderId(fromUser: Option<User>): (r: Option<int>)
    ensures r.Some? <==> fromUser.Some?
    ensures r.Some? ==> r.value == fromUser.value.id
  {
    match fromUser
    case None => None
    case Some(u) => Some(u.id)
  }

  /** `is_admin`: an absent user is never the admin. */
  function IsAdmin(userId: Option<int>, adminId: int): (r: bool)
    ensures r <==> userId == Some(adminId)
    ensures userId.None? ==> !r
  {
    match userId
    case None => false
    case Some(id) => id == adminId
  }

  /** `is_group_chat`. */
  function IsGroupChat(chatType: string): (r: bool)
    ensures r <==> chatType == "group" || chatType == "supergroup"
  {
    chatType in {"group", "supergroup"}
  }

  /** `is_mention`: a case-insensitive search for `@username` in the text;
      false when either is missing or empty. */
  function IsMention(text: Option<string>, botUsername: Option<string>): (r: bool)
    ensures !Truthy(text) || !Truthy(botUsername) ==> !r
    ensures Truthy(text) && Truthy(botUsername) ==>
      (r <==> exists i: nat :: OccursAt(Lower(text.value), "@" + Lower(botUsername.value), i))
  {
    if !Truthy(text) || !Truthy(botUsername) then false
    else
      var needle := Lower("@" + botUsername.value);
      assert needle == "@" + Lower(botUsername.value);
      Contains(Lower(text.value), needle)
  }

  /** `is_reply_to_bot`: the replied-to message was sent by a user whose
      username is exactly the bot's (case-sensitive). */
  function IsReplyToBot(message: Message, botUsername: Option<string>): (r: bool)
    ensures r <==> && Truthy(botUsername)
                   && message.replyTo.Some?
                   && message.replyTo.value.fromUser.Some?
                   && message.replyTo.value.fromUser.value.username == botUsername
  {
    if message.replyTo.None? || !Truthy(botUsername) then false
    else
      var replyUser := message.replyTo.value.fromUser;
      replyUser.Some? && replyUser.value.username == botUsername
  }

  /** `should_respond`: never for anyone but the admin; always for the admin
      outside groups; in groups only when the bot is mentioned or replied to. */
  function ShouldRespond(message: Message, botUsername: Option<string>, adminId: int): (r: bool)
    ensures !IsAdmin(SenderId(message.fromUser), adminId) ==> !r
    ensures IsAdmin(SenderId(message.fromUser), adminId) && !IsGroupChat(message.chat.chatType) ==> r
    ensures IsAdmin(SenderId(message.fromUser), adminId) && IsGroupChat(message.chat.chatType) ==>
      (r <==> IsMention(message.text, botUsername) || IsReplyToBot(message, botUsername))
    ensures r ==> message.fromUser.Some? && message.fromUser.value.id == adminId
  {
    var senderId := SenderId(message.fromUser);
    if !IsAdmin(senderId, adminId) then false
    else if IsGroupChat(message.chat.chatType) then
      IsMention(message.text, botUsername) || IsReplyToBot(message, botUsername)
    else true
  }

  /** `should_leave_chat`: leave unless the admin performed the change. */
  function ShouldLeaveChat(event: ChatMemberUpdated, adminId: int): (r: bool)
    ensures r <==> !(event.fromUser.Some? && event.fromUser.value.id == adminId)
  {
    !IsAdmin(SenderId(event.fromUser), adminId)
  }

  // ---------------------------------------------------------------------
  // Properties
  // ---------------------------------------------------------------------

  lemma {:induction false} LowerIdempotent(s: string)
    ensures Lower(Lower(s)) == Lower(s)
  {
    forall i | 0 <= i < |s|
      ensures Lower(Lower(s))[i] == Lower(s)[i]
    {
      LowerCharIdempotent(s[i]);
    }
  }

  /** Mentions are case-insensitive in the text: lower-casing it first does not change the verdict. */
  lemma MentionIgnoresTextCase(text: string, botUsername: Option<string>)
    ensures IsMention(Some(Lower(text)), botUsername) == IsMention(Some(text), botUsername)
  {
    LowerIdempotent(text);
    assert |Lower(text)| == |text|;
  }

  lemma MentionOfMixedCaseName()
    ensures IsMention(Some("Hi @MyBot"), Some("mybot"))
  {
    assert Lower("Hi @MyBot") == "hi @mybot";
    assert Lower("mybot") == "mybot";
    assert OccursAt("hi @mybot", "@mybot", 3);
  }

  /** A message from a missing or non-admin sender is never answered, in any
      chat. */
  lemma NonAdminNeverServed(message: Message, botUsername: Option<string>, adminId: int)
    requires message.fromUser.None? || message.fromUser.value.id != adminId
    ensures !ShouldRespond(message, botUsername, adminId)
  {
  }

  /** An admin message in a group that neither mentions nor replies to the bot is ignored. */
  lemma GroupNeedsMentionOrReply(message: Message, adminId: int)
    requires message.fromUser.Some? && message.fromUser.value.id == adminId
    requires IsGroupChat(message.chat.chatType)
    requires message.replyTo.None?
    requires message.text == Some("hello")
    ensures !ShouldRespond(message, Some("mybot"), adminId)
  {
    assert Lower("hello") == "hello";
    assert Lower("@mybot") == "@mybot";
    forall i: nat ensures !OccursAt("hello", "@mybot", i) {
    }
  }
}
