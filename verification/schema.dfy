/** The store policy of the GraphQL schema, as functions of the tables:
    the ORM lookups the mutations and resolvers perform, what CreateChat
    inserts or answers, the broadcasts SendMessage emits, the
    participation-scoped resolvers and the subscription's group key. The
    class ChatStore (module Store) runs the mutations step by step against
    these definitions. */
module Schema {

  import opened Wrappers
  import opened Models
  import PyStr

  /** The exceptions that reach the GraphQL caller as errors. */
  datatype Failure =
    | UserDoesNotExist(email: string)        // User.objects.get found no row
    | MultipleUsersReturned(email: string)   // User.objects.get found several rows
    | ChatDoesNotExist                       // the participation-scoped Chat.objects.get found no row
    | GroupArgumentMissing                   // mutate() called without its `group` argument
    | NameIsNull                             // a group chat inserted with name None (NOT NULL column)
    | NameTooLong                            // a name wider than the `name` column

  /** The `group` argument of CreateChat as the resolver receives it: left
      out of the request, given as null, or given as a boolean. */
  datatype GroupArg = Omitted | Null | Flag(value: bool)

  /** Python truthiness of the `group` argument. */
  predicate Truthy(g: GroupArg)
  {
    g == Flag(true)
  }

  /** CreateChat's answer: the new chat, the explicit business error string,
      or an exception. */
  datatype Response<+T> = Created(value: T) | Error(message: string) | Raised(failure: Failure)

  const TooManyParticipants: string :=
    "you cannot have more then two participants if this is not a group"

  /** The ids of the users whose email is exactly `email`. */
  function EmailMatches(users: map<UserId, User>, email: string): (ids: set<UserId>)
    ensures forall u :: u in ids <==> u in users && users[u].email == email
  {
    set u | u in users && users[u].email == email
  }

  lemma NonEmpty(s: set<UserId>)
    requires s != {}
    ensures exists u :: u in s
  {
    if forall u :: u !in s {
      assert false;
    }
  }

  lemma OnlyElement(s: set<UserId>)
    requires |s| == 1
    ensures exists u :: s == {u}
  {
    NonEmpty(s);
    var u :| u in s;
    assert |s - {u}| == 0;
    assert s == {u};
  }

  /** `User.objects.get(email=email)`: succeeds exactly when one user has
      that email, and raises DoesNotExist or MultipleObjectsReturned
      otherwise. */
  function GetUserByEmail(users: map<UserId, User>, email: string): (r: Result<UserId, Failure>)
    ensures r.Ok? <==> |EmailMatches(users, email)| == 1
    ensures r.Ok? ==> r.value in users && users[r.value].email == email &&
                      forall v :: v in users && users[v].email == email ==> v == r.value
    ensures r == Err(UserDoesNotExist(email)) <==> EmailMatches(users, email) == {}
    ensures r == Err(MultipleUsersReturned(email)) <==> |EmailMatches(users, email)| >= 2
    ensures r.Err? ==> r.error in {UserDoesNotExist(email), MultipleUsersReturned(email)}
  {
    var m := EmailMatches(users, email);
    if |m| == 0 then Err(UserDoesNotExist(email))
    else if |m| >= 2 then Err(MultipleUsersReturned(email))
    else
      OnlyElement(m);
      var u :| u in m;
      Ok(u)
  }

  /** The loop that resolves every email piece in order: the resolved ids,
      piece by piece, or the failure of the first piece that does not
      resolve. */
  function ResolveAll(users: map<UserId, User>, emails: seq<string>): (r: Result<seq<UserId>, Failure>)
    ensures r.Ok? ==> |r.value| == |emails| &&
                      forall i :: 0 <= i < |emails| ==> GetUserByEmail(users, emails[i]) == Ok(r.value[i])
    ensures r.Err? ==> exists i :: 0 <= i < |emails| && GetUserByEmail(users, emails[i]) == Err(r.error) &&
                                   forall j :: 0 <= j < i ==> GetUserByEmail(users, emails[j]).Ok?
  {
    if emails == [] then Ok([])
    else
      var last := |emails| - 1;
      match ResolveAll(users, emails[..last])
      case Err(f) => Err(f)
      case Ok(ids) =>
        match GetUserByEmail(users, emails[last])
        case Err(f) => Err(f)
        case Ok(u) => Ok(ids + [u])
  }

  /** The set of the elements of `s`. */
  function Elems(s: seq<UserId>): set<UserId>
  {
    set u | u in s
  }

  lemma ElemsAppend(s: seq<UserId>, u: UserId)
    ensures Elems(s + [u]) == Elems(s) + {u}
  {
  }

  /** A set built from a list has no more elements than the list. */
  lemma {:induction false} ElemsCard(s: seq<UserId>)
    ensures |Elems(s)| <= |s|
  {
    if s != [] {
      var init := s[..|s| - 1];
      ElemsCard(init);
      assert Elems(s) == Elems(init) + {s[|s| - 1]};
    }
  }

  /** What CreateChat does to the chat table: the chat row it inserts (before
      it is given an id), the error string it answers with, or the exception
      it raises. */
  function PlanCreateChat(users: map<UserId, User>, emails: string, name: Option<string>, group: GroupArg): (r: Response<Chat>)
    ensures r.Error? ==> r.message == TooManyParticipants && !Truthy(group)
    ensures r.Created? ==> r.value.participants <= users.Keys && r.value.messages == {} &&
                           r.value.group == Truthy(group) && NameFits(r.value.name)
    ensures r.Created? && !r.value.group ==> |r.value.participants| <= 2
  {
    if group.Omitted? then Raised(GroupArgumentMissing)
    else
      var pieces := PyStr.Split(emails, ',');
      if !Truthy(group) then
        if |pieces| > 2 then Error(TooManyParticipants)
        else
          match ResolveAll(users, pieces)
          case Err(f) => Raised(f)
          case Ok(ids) =>
            ElemsCard(ids);
            Created(AddParticipants(NewChat(group := false), Elems(ids)))
      else
        match ResolveAll(users, pieces)
        case Err(f) => Raised(f)
        case Ok(ids) =>
          if name.None? then Raised(NameIsNull)
          else if !NameFits(name.value) then Raised(NameTooLong)
          else Created(AddParticipants(NewChat(group := true, name := name.value), Elems(ids)))
  }

  /** One published event: the channel group key (a username) and the
      message it carries. */
  datatype Broadcast = Broadcast(group: string, message: MessageId)

  /** `order` lists every element of `s` exactly once. */
  predicate Enumerates(order: seq<UserId>, s: set<UserId>)
  {
    (forall i, j :: 0 <= i < j < |order| ==> order[i] != order[j]) &&
    Elems(order) == s
  }

  /** The broadcasts published for message `m`, one per user of `order`, in
      that order, keyed by the user's username. */
  function FanOut(users: map<UserId, User>, order: seq<UserId>, m: MessageId): (log: seq<Broadcast>)
    requires Elems(order) <= users.Keys
    ensures |log| == |order|
    ensures forall i :: 0 <= i < |order| ==> log[i] == Broadcast(users[order[i]].username, m)
  {
    if order == [] then []
    else
      var last := |order| - 1;
      assert order[last] in Elems(order);
      assert Elems(order[..last]) <= Elems(order);
      FanOut(users, order[..last], m) + [Broadcast(users[order[last]].username, m)]
  }

  /** The number of broadcasts in `log` addressed to group `key`. */
  function Hits(log: seq<Broadcast>, key: string): nat
  {
    if log == [] then 0
    else Hits(log[..|log| - 1], key) + (if log[|log| - 1].group == key then 1 else 0)
  }

  /** No two users share a username (the user model declares it unique). */
  predicate UniqueUsernames(users: map<UserId, User>)
  {
    forall u, v :: u in users && v in users && users[u].username == users[v].username ==> u == v
  }

  /** `Chat.objects.get(participants=user, id=id)`: the chat, if it exists and
      `caller` is one of its participants. */
  function ResolveChat(chats: map<ChatId, Chat>, caller: UserId, id: ChatId): (r: Result<Chat, Failure>)
    ensures r.Ok? <==> id in chats && caller in chats[id].participants
    ensures r.Ok? ==> r.value == chats[id]
    ensures r.Err? ==> r.error == ChatDoesNotExist
  {
    if id in chats && caller in chats[id].participants then Ok(chats[id]) else Err(ChatDoesNotExist)
  }

  /** `resolve_chats`: the ids of exactly the chats `caller` takes part in. */
  function ResolveChats(chats: map<ChatId, Chat>, caller: UserId): (r: set<ChatId>)
    ensures forall id :: id in r <==> ResolveChat(chats, caller, id).Ok?
  {
    set id | id in chats && caller in chats[id].participants
  }

  /** `resolve_messages`: the whole message set of a chat `caller` takes part
      in, through the same scoped lookup as `resolve_chat`. */
  function ResolveMessages(chats: map<ChatId, Chat>, caller: UserId, id: ChatId): (r: Result<set<MessageId>, Failure>)
    ensures r.Ok? <==> ResolveChat(chats, caller, id).Ok?
    ensures r.Ok? ==> r.value == ResolveChat(chats, caller, id).value.messages
    ensures r.Err? ==> r.error == ChatDoesNotExist
  {
    match ResolveChat(chats, caller, id)
    case Ok(c) => Ok(c.messages)
    case Err(f) => Err(f)
  }

  /** `OnNewMessage.subscribe`: the groups a listener joins; None means the
      default group only. */
  function Subscribe(chatroom: Option<string>): (groups: Option<seq<string>>)
    ensures groups.None? <==> chatroom.None?
    ensures groups.Some? ==> forall g :: g in groups.value <==> chatroom == Some(g)
  {
    if chatroom.Some? then Some([chatroom.value]) else None
  }

  /** Whether a listener subscribed with `chatroom` is handed broadcast `b`.
      Every broadcast SendMessage publishes names a group, so the default
      group never receives one. */
  predicate Receives(chatroom: Option<string>, b: Broadcast)
  {
    match Subscribe(chatroom)
    case None => false
    case Some(groups) => b.group in groups
  }

  /** The number of broadcasts of `log` a listener subscribed with
      `chatroom` is handed. */
  function Delivered(chatroom: Option<string>, log: seq<Broadcast>): nat
  {
    if log == [] then 0
    else Delivered(chatroom, log[..|log| - 1]) + (if Receives(chatroom, log[|log| - 1]) then 1 else 0)
  }
}
