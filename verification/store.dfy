/** The database as an in-memory store, and the two mutations that change
    it: CreateChat and SendMessage. Each mutation is one atomic step; its
    postcondition ties the new tables to the functions of module Schema. */
module Store {

  import opened Wrappers
  import opened Models
  import opened Schema
  import PyStr

  /** `[usr for usr in participants if usr != caller]`, iterating the
      participants in the unspecified order the database returns them. */
  method OthersOf(participants: set<UserId>, caller: UserId) returns (others: seq<UserId>)
    ensures Enumerates(others, participants - {caller})
  {
    others := [];
    var pending := participants;
    while pending != {}
      invariant forall i, j :: 0 <= i < j < |others| ==> others[i] != others[j]
      invariant Elems(others) == participants - pending - {caller}
      invariant forall i :: 0 <= i < |others| ==> others[i] !in pending
      decreases pending
    {
      NonEmpty(pending);
      var u :| u in pending;
      if u != caller {
        ElemsAppend(others, u);
        others := others + [u];
      }
      pending := pending - {u};
    }
  }

  class ChatStore {
    var users: map<UserId, User>
    var chats: map<ChatId, Chat>
    var messages: map<MessageId, Message>
    /** Every broadcast published so far, oldest first. */
    var broadcasts: seq<Broadcast>
    /** The next primary keys the auto-increment columns hand out. */
    var nextChatId: ChatId
    var nextMessageId: MessageId

    /** A chat row of these tables: its relations point at existing rows, a
        non-group chat has at most two participants, the name fits. */
    ghost predicate ChatValid(c: Chat)
      reads this
    {
      c.participants <= users.Keys &&
      c.messages <= messages.Keys &&
      (!c.group ==> |c.participants| <= 2) &&
      NameFits(c.name)
    }

    ghost predicate Valid()
      reads this
    {
      UniqueUsernames(users) &&
      1 <= nextChatId && 1 <= nextMessageId &&
      (forall id :: id in chats ==> 1 <= id < nextChatId && ChatValid(chats[id])) &&
      (forall id :: id in messages ==> 1 <= id < nextMessageId && messages[id].sender in users) &&
      (forall i :: 0 <= i < |broadcasts| ==> broadcasts[i].message in messages)
    }

    /** A store over the given user table, with no chats, messages or
        broadcasts yet. */
    constructor (users: map<UserId, User>)
      requires UniqueUsernames(users)
      ensures Valid()
      ensures this.users == users
      ensures chats == map[] && messages == map[] && broadcasts == []
    {
      this.users := users;
      chats, messages, broadcasts := map[], map[], [];
      nextChatId, nextMessageId := 1, 1;
    }

    /** The loop of CreateChat that looks up one user per email piece,
        stopping at the first lookup that raises. */
    method GetUsers(emails: seq<string>) returns (r: Result<seq<UserId>, Failure>)
      ensures r == ResolveAll(users, emails)
    {
      var ids := [];
      var i := 0;
      while i < |emails|
        invariant 0 <= i <= |emails|
        invariant ResolveAll(users, emails[..i]) == Ok(ids)
      {
        assert emails[..i + 1][..i] == emails[..i];
        var user := GetUserByEmail(users, emails[i]);
        if user.Err? {
          return Err(user.error);
        }
        ids := ids + [user.value];
        i := i + 1;
      }
      assert emails[..i] == emails;
      return Ok(ids);
    }

    /** `Chat.objects.create` followed by `chat.participants.add(...)`: the
        row gets the next primary key. */
    method InsertChat(c: Chat) returns (id: ChatId)
      requires Valid() && ChatValid(c)
      modifies this
      ensures Valid()
      ensures id == old(nextChatId) && id !in old(chats)
      ensures chats == old(chats)[id := c] && nextChatId == id + 1
      ensures users == old(users) && messages == old(messages) && broadcasts == old(broadcasts)
      ensures nextMessageId == old(nextMessageId)
    {
      id := nextChatId;
      chats := chats[id := c];
      nextChatId := nextChatId + 1;
    }

    /** `CreateChat.mutate`: inserts the chat PlanCreateChat describes and
        answers with its id, or answers with the error string or the
        exception and leaves every table as it was. */
    method CreateChat(emails: string, name: Option<string>, group: GroupArg) returns (r: Response<ChatId>)
      requires Valid()
      modifies this
      ensures Valid()
      ensures users == old(users) && messages == old(messages) && broadcasts == old(broadcasts)
      ensures nextMessageId == old(nextMessageId)
      ensures match PlanCreateChat(users, emails, name, group)
        case Created(c) =>
          r == Created(old(nextChatId)) && old(nextChatId) !in old(chats) &&
          chats == old(chats)[old(nextChatId) := c] && nextChatId == old(nextChatId) + 1
        case Error(message) =>
          r == Error(message) && chats == old(chats) && nextChatId == old(nextChatId)
        case Raised(failure) =>
          r == Raised(failure) && chats == old(chats) && nextChatId == old(nextChatId)
    {
      ghost var plan := PlanCreateChat(users, emails, name, group);
      if group.Omitted? {
        return Raised(GroupArgumentMissing);
      }
      var pieces := PyStr.Split(emails, ',');
      var chat: Chat;
      var ids: seq<UserId>;
      if !Truthy(group) {
        if |pieces| > 2 {
          return Error(TooManyParticipants);
        }
        var resolved := GetUsers(pieces);
        if resolved.Err? {
          return Raised(resolved.error);
        }
        ids := resolved.value;
        chat := NewChat(group := false);
      } else {
        var resolved := GetUsers(pieces);
        if resolved.Err? {
          return Raised(resolved.error);
        }
        if name.None? {
          return Raised(NameIsNull);
        }
        if !NameFits(name.value) {
          return Raised(NameTooLong);
        }
        ids := resolved.value;
        chat := NewChat(group := true, name := name.value);
      }
      chat := AddParticipants(chat, Elems(ids));
      assert plan == Created(chat);
      ElemsCard(ids);
      var id := InsertChat(chat);
      r := Created(id);
    }

    /** `SendMessage.mutate`: for a chat the caller takes part in, stores a
        new message, adds it to the chat and publishes one broadcast per
        other participant, in some order of the participants; otherwise
        raises and changes nothing. */
    method SendMessage(caller: UserId, chatId: ChatId, text: string) returns (r: Result<MessageId, Failure>)
      requires Valid()
      modifies this
      ensures Valid()
      ensures users == old(users) && nextChatId == old(nextChatId)
      ensures ResolveChat(old(chats), caller, chatId).Err? ==>
        r == Err(ChatDoesNotExist) && chats == old(chats) && messages == old(messages) &&
        broadcasts == old(broadcasts) && nextMessageId == old(nextMessageId)
      ensures ResolveChat(old(chats), caller, chatId).Ok? ==>
        var id := old(nextMessageId);
        r == Ok(id) && id !in old(messages) &&
        messages == old(messages)[id := NewMessage(caller, text)] && nextMessageId == id + 1 &&
        chats == old(chats)[chatId := AddMessage(old(chats)[chatId], id)] &&
        exists order :: Enumerates(order, old(chats)[chatId].participants - {caller}) &&
                        Elems(order) <= users.Keys &&
                        broadcasts == old(broadcasts) + FanOut(users, order, id)
    {
      var found := ResolveChat(chats, caller, chatId);
      if found.Err? {
        return Err(found.error);
      }
      var id := nextMessageId;
      messages := messages[id := NewMessage(caller, text)];
      nextMessageId := nextMessageId + 1;
      chats := chats[chatId := AddMessage(chats[chatId], id)];
      var others := OthersOf(found.value.participants, caller);
      ghost var before := broadcasts;
      var i := 0;
      while i < |others|
        invariant 0 <= i <= |others|
        invariant Elems(others) <= users.Keys && Elems(others[..i]) <= users.Keys
        invariant broadcasts == before + FanOut(users, others[..i], id)
        invariant users == old(users) && chats == old(chats)[chatId := AddMessage(old(chats)[chatId], id)]
        invariant messages == old(messages)[id := NewMessage(caller, text)]
        invariant nextChatId == old(nextChatId) && nextMessageId == id + 1
        invariant forall j :: 0 <= j < |broadcasts| ==> broadcasts[j].message in messages
      {
        assert others[..i + 1][..i] == others[..i];
        assert others[i] in Elems(others);
        broadcasts := broadcasts + [Broadcast(users[others[i]].username, id)];
        i := i + 1;
      }
      assert others[..i] == others;
      r := Ok(id);
    }
  }
}
