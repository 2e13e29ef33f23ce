/** The chat handlers of app/handlers.py over the in-memory store: a message
    the admin addressed to the bot is answered by the language model with the
    recent history as context, and both sides of the exchange are logged; a
    membership change the admin did not make makes the bot leave. */
module Handlers {
  import opened Wrappers
  import opened Calendar
  import opened Access
  import opened MemoryStore

  datatype Context = Context(adminId: int, botUsername: Option<string>)

  /** What handling one message did: the store afterwards, the history the
      language model was asked with (if it was asked), the answers sent, and
      whether the handler raised because the model call failed. */
  datatype Outcome = Outcome(store: Store, llmInput: Option<seq<Turn>>, answers: seq<string>, raised: bool)

  /** `handle_message`. `llm` stands for `generate_reply`: `None` is the call
      raising, which propagates out of the handler. */
  function HandleMessage(store: Store, message: Message, ctx: Context,
                         llm: seq<Turn> -> Option<string>, now: Instant): (r: Outcome)
    ensures !ShouldRespond(message, ctx.botUsername, ctx.adminId) ==>
      r == Outcome(store, None, [], false)
    ensures ShouldRespond(message, ctx.botUsername, ctx.adminId) ==>
      var history := GetRecentHistory(store, ctx.adminId, now).1;
      var text := message.text.GetOr("");
      && r.llmInput == Some(history + [Turn("user", text)])
      && (r.raised <==> llm(r.llmInput.value).None?)
      && (r.raised ==> r.answers == [] && r.store == GetRecentHistory(store, ctx.adminId, now).0)
      && (!r.raised ==>
            && r.answers == [llm(r.llmInput.value).value]
            && r.store == AppendMessage(
                 AppendMessage(GetRecentHistory(store, ctx.adminId, now).0, ctx.adminId, "user", text, now),
                 ctx.adminId, "assistant", llm(r.llmInput.value).value, now))
  {
    if !ShouldRespond(message, ctx.botUsername, ctx.adminId) then
      Outcome(store, None, [], false)
    else
      var userId := if message.fromUser.Some? then message.fromUser.value.id else 0;
      var (pruned, history) := GetRecentHistory(store, userId, now);
      var text := message.text.GetOr("");
      var input := history + [Turn("user", text)];
      match llm(input)
      case None => Outcome(pruned, Some(input), [], true)
      case Some(reply) =>
        var afterUser := AppendMessage(pruned, userId, "user", text, now);
        Outcome(AppendMessage(afterUser, userId, "assistant", reply, now), Some(input), [reply], false)
  }

  /** With a non-negative time-to-live, a served message leaves the admin's log
      as its surviving entries followed by the question and then the answer. */
  lemma ServedExchangeIsLogged(store: Store, message: Message, ctx: Context,
                               llm: seq<Turn> -> Option<string>, now: Instant)
    requires store.ttlHours >= 0
    requires ShouldRespond(message, ctx.botUsername, ctx.adminId)
    requires !HandleMessage(store, message, ctx, llm, now).raised
    ensures var r := HandleMessage(store, message, ctx, llm, now);
            r.store.messages[ctx.adminId] ==
              KeepSince(Log(store, ctx.adminId), Cutoff(now, store.ttlHours))
              + [Entry("user", message.text.GetOr(""), now), Entry("assistant", r.answers[0], now)]
            && OnlyUserTouched(store, r.store, ctx.adminId)
  {
    TwoAppendsAfterPrune(store, ctx.adminId, "user", message.text.GetOr(""),
                         "assistant", HandleMessage(store, message, ctx, llm, now).answers[0], now);
  }

  /** A message that is not for the bot leaves everything as it was. */
  lemma IgnoredMessageTouchesNothing(store: Store, message: Message, ctx: Context,
                                     llm: seq<Turn> -> Option<string>, now: Instant)
    requires message.fromUser.None? || message.fromUser.value.id != ctx.adminId
    ensures HandleMessage(store, message, ctx, llm, now) == Outcome(store, None, [], false)
  {
  }

  /** `handle_my_chat_member`: the id of the chat to leave, if any. The bot
      leaves only when it became a member or administrator by someone other
      than the admin. */
  function HandleMyChatMember(event: ChatMemberUpdated, adminId: int): (r: Option<int>)
    ensures r.Some? <==>
      && (event.newStatus == Member || event.newStatus == Administrator)
      && !(event.fromUser.Some? && event.fromUser.value.id == adminId)
    ensures r.Some? ==> r.value == event.chat.id
  {
    if event.newStatus !in {Member, Administrator} then None
    else if ShouldLeaveChat(event, adminId) then Some(event.chat.id)
    else None
  }

  /** The bot added to a group by a stranger leaves that group. */
  lemma AddedByStrangerLeaves()
    ensures HandleMyChatMember(
      ChatMemberUpdated(Some(User(999, None)), Chat(55, "group"), Member), 100013433) == Some(55)
  {
  }
}
