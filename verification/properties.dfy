/** What the store policy promises, proved about the functions of module
    Schema: when CreateChat refuses, raises or inserts and what it inserts,
    who receives the broadcasts of SendMessage, what each subscriber is
    handed, and how the scoped reads see a send. */
module Properties {

  import opened Wrappers
  import opened Models
  import opened Schema
  import PyStr

  /** The users whose email is one of `emails`. */
  function UsersWithEmailIn(users: map<UserId, User>, emails: seq<string>): set<UserId>
  {
    set u | u in users && users[u].email in emails
  }

  /** When every piece resolves, the resolved users are exactly the users
      whose email is one of the pieces; repeated pieces collapse. */
  lemma ResolvedUsers(users: map<UserId, User>, emails: seq<string>)
    requires ResolveAll(users, emails).Ok?
    ensures Elems(ResolveAll(users, emails).value) == UsersWithEmailIn(users, emails)
    ensures forall e :: e in emails ==> |EmailMatches(users, e)| == 1
  {
    var ids := ResolveAll(users, emails).value;
    forall u | u in Elems(ids)
      ensures u in UsersWithEmailIn(users, emails)
    {
      var i :| 0 <= i < |ids| && ids[i] == u;
      assert GetUserByEmail(users, emails[i]) == Ok(u);
    }
    forall u | u in UsersWithEmailIn(users, emails)
      ensures u in Elems(ids)
    {
      var i :| 0 <= i < |emails| && emails[i] == users[u].email;
      assert GetUserByEmail(users, emails[i]) == Ok(ids[i]);
    }
    forall e | e in emails
      ensures |EmailMatches(users, e)| == 1
    {
      var i :| 0 <= i < |emails| && emails[i] == e;
      assert GetUserByEmail(users, emails[i]).Ok?;
    }
  }

  /** A non-group request is answered with the error string exactly when
      `emails` holds two or more commas; the answer does not depend on the
      user table, so no lookup is made. */
  lemma CreateChatRefusal(users: map<UserId, User>, other: map<UserId, User>,
                          emails: string, name: Option<string>, group: GroupArg)
    requires !group.Omitted?
    ensures PlanCreateChat(users, emails, name, group).Error? <==>
            !Truthy(group) && PyStr.Count(emails, ',') >= 2
    ensures PlanCreateChat(users, emails, name, group).Error? ==>
            PlanCreateChat(users, emails, name, group) == Error(TooManyParticipants) &&
            PlanCreateChat(other, emails, name, group) == Error(TooManyParticipants)
  {
  }

  /** Past the participant-count check, the mutation raises the exception of
      the first email piece that does not name exactly one user, before any
      chat is inserted. */
  lemma CreateChatLookupFailure(users: map<UserId, User>, emails: string, name: Option<string>, group: GroupArg)
    requires !group.Omitted?
    requires Truthy(group) || PyStr.Count(emails, ',') <= 1
    requires ResolveAll(users, PyStr.Split(emails, ',')).Err?
    ensures var pieces := PyStr.Split(emails, ',');
            exists i :: 0 <= i < |pieces| && |EmailMatches(users, pieces[i])| != 1 &&
              PlanCreateChat(users, emails, name, group) == Raised(GetUserByEmail(users, pieces[i]).error) &&
              forall j :: 0 <= j < i ==> |EmailMatches(users, pieces[j])| == 1
  {
    var pieces := PyStr.Split(emails, ',');
    var f := ResolveAll(users, pieces).error;
    var i :| 0 <= i < |pieces| && GetUserByEmail(users, pieces[i]) == Err(f) &&
             forall j :: 0 <= j < i ==> GetUserByEmail(users, pieces[j]).Ok?;
    assert PlanCreateChat(users, emails, name, group) == Raised(f);
  }

  /** When every piece names exactly one user, the lookup loop resolves
      them all. */
  lemma EveryPieceResolves(users: map<UserId, User>, emails: seq<string>)
    requires forall e :: e in emails ==> |EmailMatches(users, e)| == 1
    ensures ResolveAll(users, emails).Ok?
  {
    forall i | 0 <= i < |emails|
      ensures GetUserByEmail(users, emails[i]).Ok?
    {
      assert emails[i] in emails;
    }
  }

  /** When the mutation inserts a chat: `group` is given, a non-group
      request has at most two pieces, every piece names exactly one user and
      a group request carries a name that fits the column. The chat then
      holds exactly the users named by the pieces. Together with
      CreateChatRefusal, CreateChatLookupFailure and the three lemmas below,
      this covers every outcome. */
  lemma CreateChatSucceeds(users: map<UserId, User>, emails: string, name: Option<string>, group: GroupArg)
    requires !group.Omitted?
    requires Truthy(group) || PyStr.Count(emails, ',') <= 1
    requires forall e :: e in PyStr.Split(emails, ',') ==> |EmailMatches(users, e)| == 1
    requires Truthy(group) ==> name.Some? && NameFits(name.value)
    ensures PlanCreateChat(users, emails, name, group).Created?
    ensures PlanCreateChat(users, emails, name, group).value.participants ==
            UsersWithEmailIn(users, PyStr.Split(emails, ','))
  {
    EveryPieceResolves(users, PyStr.Split(emails, ','));
    CreatedChatParticipants(users, emails, name, group);
  }

  /** A request without `group` raises before any lookup, whatever else it
      carries. */
  lemma CreateChatRaisesGroupArgumentMissing(users: map<UserId, User>, emails: string, name: Option<string>)
    ensures PlanCreateChat(users, emails, name, Omitted) == Raised(GroupArgumentMissing)
  {
  }

  /** A group request without a name raises at insertion, once every piece
      has named exactly one user. */
  lemma CreateChatRaisesNameIsNull(users: map<UserId, User>, emails: string, group: GroupArg)
    requires Truthy(group)
    requires forall e :: e in PyStr.Split(emails, ',') ==> |EmailMatches(users, e)| == 1
    ensures PlanCreateChat(users, emails, None, group) == Raised(NameIsNull)
  {
    EveryPieceResolves(users, PyStr.Split(emails, ','));
  }

  /** A group request whose name is wider than the column raises at
      insertion, once every piece has named exactly one user. */
  lemma CreateChatRaisesNameTooLong(users: map<UserId, User>, emails: string, name: string, group: GroupArg)
    requires Truthy(group)
    requires forall e :: e in PyStr.Split(emails, ',') ==> |EmailMatches(users, e)| == 1
    requires !NameFits(name)
    ensures PlanCreateChat(users, emails, Some(name), group) == Raised(NameTooLong)
  {
    EveryPieceResolves(users, PyStr.Split(emails, ','));
  }

  /** Who a created chat holds: exactly the users named by the pieces, each
      piece naming exactly one user, and at most two of them unless it is a
      group chat. */
  lemma CreatedChatParticipants(users: map<UserId, User>, emails: string, name: Option<string>, group: GroupArg)
    requires PlanCreateChat(users, emails, name, group).Created?
    ensures var c := PlanCreateChat(users, emails, name, group).value;
            var pieces := PyStr.Split(emails, ',');
            && c.participants == UsersWithEmailIn(users, pieces)
            && (forall e :: e in pieces ==> |EmailMatches(users, e)| == 1)
            && (!Truthy(group) ==> |c.participants| <= 2)
  {
    var pieces := PyStr.Split(emails, ',');
    var ids := ResolveAll(users, pieces).value;
    ResolvedUsers(users, pieces);
    ElemsCard(ids);
    assert PlanCreateChat(users, emails, name, group).value.participants == Elems(ids);
  }

  /** The other columns of a created chat: the group flag is the truthiness
      of `group`, only a group chat keeps the given name (which fits the
      column), and there are no messages yet. */
  lemma CreatedChatColumns(users: map<UserId, User>, emails: string, name: Option<string>, group: GroupArg)
    requires PlanCreateChat(users, emails, name, group).Created?
    ensures var c := PlanCreateChat(users, emails, name, group).value;
            && c.group == Truthy(group)
            && c.name == (if Truthy(group) then name.value else "")
            && NameFits(c.name)
            && c.messages == {}
  {
  }

  /** A list without repeats has as many distinct elements as entries. */
  lemma {:induction false} DistinctCard(order: seq<UserId>)
    requires forall i, j :: 0 <= i < j < |order| ==> order[i] != order[j]
    ensures |Elems(order)| == |order|
  {
    if order != [] {
      var last := |order| - 1;
      DistinctCard(order[..last]);
      assert Elems(order) == Elems(order[..last]) + {order[last]};
      assert order[last] !in Elems(order[..last]);
    }
  }

  /** Appending one broadcast adds one hit for its own key only. */
  lemma HitsAppend(log: seq<Broadcast>, b: Broadcast, key: string)
    ensures Hits(log + [b], key) == Hits(log, key) + (if b.group == key then 1 else 0)
  {
    assert (log + [b])[..|log|] == log;
  }

  /** The number of broadcasts of a fan-out keyed by `key`: one if a
      recipient has that username, none otherwise. */
  lemma {:induction false} FanOutHits(users: map<UserId, User>, order: seq<UserId>,
                                      recipients: set<UserId>, m: MessageId, key: string)
    requires UniqueUsernames(users)
    requires recipients <= users.Keys
    requires Enumerates(order, recipients)
    ensures Hits(FanOut(users, order, m), key) ==
            if exists p :: p in recipients && users[p].username == key then 1 else 0
  {
    if order != [] {
      var last := |order| - 1;
      var init := order[..last];
      var rest := recipients - {order[last]};
      assert order[last] in Elems(order);
      assert Elems(order) == Elems(init) + {order[last]};
      assert order[last] !in Elems(init);
      assert Enumerates(init, rest);
      FanOutHits(users, init, rest, m, key);
      var b := Broadcast(users[order[last]].username, m);
      assert FanOut(users, order, m) == FanOut(users, init, m) + [b];
      HitsAppend(FanOut(users, init, m), b, key);
      if users[order[last]].username == key {
        assert !exists p :: p in rest && users[p].username == key;
      }
    }
  }

  /** SendMessage's fan-out, in whatever order the participants come: one
      broadcast per recipient, all carrying the new message, and each
      username keyed exactly once if it belongs to a recipient and never
      otherwise. */
  lemma FanOutExactlyOnce(users: map<UserId, User>, order: seq<UserId>,
                          recipients: set<UserId>, m: MessageId)
    requires UniqueUsernames(users)
    requires recipients <= users.Keys
    requires Enumerates(order, recipients)
    ensures |FanOut(users, order, m)| == |recipients|
    ensures forall i :: 0 <= i < |FanOut(users, order, m)| ==> FanOut(users, order, m)[i].message == m
    ensures forall key :: Hits(FanOut(users, order, m), key) ==
                          if exists p :: p in recipients && users[p].username == key then 1 else 0
  {
    DistinctCard(order);
    forall key
      ensures Hits(FanOut(users, order, m), key) ==
              if exists p :: p in recipients && users[p].username == key then 1 else 0
    {
      FanOutHits(users, order, recipients, m, key);
    }
  }

  /** The sender is never a recipient of its own message, and a chat whose
      only participant is the sender publishes nothing. */
  lemma SenderReceivesNone(users: map<UserId, User>, participants: set<UserId>, sender: UserId,
                           order: seq<UserId>, m: MessageId)
    requires UniqueUsernames(users)
    requires participants <= users.Keys && sender in users
    requires Enumerates(order, participants - {sender})
    ensures Hits(FanOut(users, order, m), users[sender].username) == 0
    ensures participants <= {sender} ==> FanOut(users, order, m) == []
  {
    FanOutExactlyOnce(users, order, participants - {sender}, m);
  }

  /** A listener subscribed under `chatroom` matches a broadcast exactly
      when the broadcast's key is that chatroom. */
  lemma ReceivesIffKey(chatroom: Option<string>, b: Broadcast)
    ensures Receives(chatroom, b) <==> chatroom == Some(b.group)
  {
  }

  /** A listener subscribed under `chatroom` is handed exactly the
      broadcasts keyed by that chatroom, and a listener without a chatroom
      none. */
  lemma {:induction false} DeliveredByKey(chatroom: Option<string>, log: seq<Broadcast>)
    ensures Delivered(chatroom, log) == if chatroom.Some? then Hits(log, chatroom.value) else 0
  {
    if log != [] {
      DeliveredByKey(chatroom, log[..|log| - 1]);
    }
  }

  /** After a send, a listener subscribed under some username is handed the
      new message once if that user is another participant and otherwise
      never; a listener without a chatroom is handed nothing. */
  lemma SubscriberDelivery(users: map<UserId, User>, participants: set<UserId>, sender: UserId,
                           order: seq<UserId>, m: MessageId, chatroom: Option<string>)
    requires UniqueUsernames(users)
    requires participants <= users.Keys
    requires Enumerates(order, participants - {sender})
    ensures Delivered(chatroom, FanOut(users, order, m)) ==
            if chatroom.Some? && exists p :: p in participants && p != sender && users[p].username == chatroom.value
            then 1 else 0
  {
    FanOutExactlyOnce(users, order, participants - {sender}, m);
    DeliveredByKey(chatroom, FanOut(users, order, m));
  }

  /** The scoped reads after a successful send: the caller sees the new
      message in that chat, every other chat reads as before, and the chat
      list of every user is unchanged. */
  lemma ReadsAfterSend(chats: map<ChatId, Chat>, caller: UserId, chatId: ChatId, m: MessageId)
    requires ResolveChat(chats, caller, chatId).Ok?
    ensures var after := chats[chatId := AddMessage(chats[chatId], m)];
            && ResolveMessages(after, caller, chatId) == Ok(chats[chatId].messages + {m})
            && (forall u, id :: id != chatId ==> ResolveMessages(after, u, id) == ResolveMessages(chats, u, id))
            && (forall u :: ResolveChats(after, u) == ResolveChats(chats, u))
  {
    var after := chats[chatId := AddMessage(chats[chatId], m)];
    forall u
      ensures ResolveChats(after, u) == ResolveChats(chats, u)
    {
      assert forall id :: ResolveChat(after, u, id).Ok? == ResolveChat(chats, u, id).Ok?;
    }
  }

  /** The two-user conversation, first step: a non-group chat created from
      the emails of A and B holds exactly A and B. */
  lemma TwoUserChat(a: UserId, b: UserId, na: string, nb: string, ea: string, eb: string)
    requires a != b && ea != eb
    requires ',' !in ea && ',' !in eb
    ensures PlanCreateChat(map[a := User(na, ea), b := User(nb, eb)], ea + "," + eb, None, Flag(false)) ==
            Created(Chat({a, b}, "", false, {}))
  {
    var users := map[a := User(na, ea), b := User(nb, eb)];
    PyStr.SplitJoin([ea, eb], ',');
    assert PyStr.Join([ea, eb], ',') == ea + "," + eb;
    assert EmailMatches(users, ea) == {a};
    assert EmailMatches(users, eb) == {b};
    assert GetUserByEmail(users, ea) == Ok(a);
    assert GetUserByEmail(users, eb) == Ok(b);
    assert [ea][..0] == [];
    assert ResolveAll(users, []) == Ok([]);
    assert ResolveAll(users, [ea]) == Ok([] + [a]);
    assert [] + [a] == [a];
    assert [ea, eb][..1] == [ea];
    assert ResolveAll(users, [ea, eb]) == Ok([a] + [b]);
    assert [a] + [b] == [a, b];
    assert Elems([a, b]) == {a, b};
  }

  /** The two-user conversation, second step: when A sends a message to the
      chat of A and B, B's listener is handed it once, A's none, and A's
      message list for the chat is that one message. */
  lemma TwoUserSend(a: UserId, b: UserId, na: string, nb: string, ea: string, eb: string,
                    chatId: ChatId, m: MessageId, order: seq<UserId>)
    requires a != b && na != nb
    requires Enumerates(order, {a, b} - {a})
    ensures var users := map[a := User(na, ea), b := User(nb, eb)];
            && FanOut(users, order, m) == [Broadcast(nb, m)]
            && Delivered(Some(nb), FanOut(users, order, m)) == 1
            && Delivered(Some(na), FanOut(users, order, m)) == 0
            && ResolveMessages(map[chatId := AddMessage(Chat({a, b}, "", false, {}), m)], a, chatId) == Ok({m})
  {
    var users := map[a := User(na, ea), b := User(nb, eb)];
    assert Elems(order) == {b};
    DistinctCard(order);
    assert order == [b];
    SubscriberDelivery(users, {a, b}, a, order, m, Some(nb));
    SubscriberDelivery(users, {a, b}, a, order, m, Some(na));
  }

  /** A group chat has no cap on its participants: however many distinct
      emails a group request names, each naming one user, every one of those
      users joins the chat. */
  lemma GroupChatHasNoCap(users: map<UserId, User>, emails: seq<string>, name: string)
    requires |emails| >= 1
    requires forall i :: 0 <= i < |emails| ==> ',' !in emails[i]
    requires forall i, j :: 0 <= i < j < |emails| ==> emails[i] != emails[j]
    requires forall e :: e in emails ==> |EmailMatches(users, e)| == 1
    requires NameFits(name)
    ensures var r := PlanCreateChat(users, PyStr.Join(emails, ','), Some(name), Flag(true));
            && r.Created?
            && r.value.participants == UsersWithEmailIn(users, emails)
            && |r.value.participants| == |emails|
  {
    PyStr.SplitJoin(emails, ',');
    var joined := PyStr.Join(emails, ',');
    assert PyStr.Split(joined, ',') == emails;
    CreateChatSucceeds(users, joined, Some(name), Flag(true));
    var ids := ResolveAll(users, emails).value;
    ResolvedUsers(users, emails);
    forall i, j | 0 <= i < j < |ids|
      ensures ids[i] != ids[j]
    {
      assert GetUserByEmail(users, emails[i]) == Ok(ids[i]);
      assert GetUserByEmail(users, emails[j]) == Ok(ids[j]);
    }
    DistinctCard(ids);
  }
}
