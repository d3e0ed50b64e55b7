# Chat store policy, modelled in Dafny

This project models the store policy of a GraphQL chat backend. Users,
chats and messages live in tables. Two mutations change them. `createChat`
splits a comma-separated `emails` string, resolves each piece to a user and
inserts a chat. `sendMessage` stores a message in a chat the caller takes
part in. It then publishes one broadcast per other participant, keyed by
that participant's username. Three resolvers read the tables, scoped to the
caller's participation. One subscription chooses the group key a listener
joins.

The database is an in-memory store, the class `Store.ChatStore`. It holds
the user table, the chat table, the message table, the auto-increment
counters and an append-only log of the broadcasts published. Each mutation
is one atomic method. Its postcondition ties the new tables to the pure
definitions in module `Schema`: `PlanCreateChat` for what `createChat`
inserts or answers, and `FanOut` for what `sendMessage` publishes. Module
`Properties` proves what the application promises about those definitions.

Modules:

- `Wrappers`: `Option` and `Result`.
- `PyStr`: Python's `str.split(",")` and `",".join(...)`, with both round trips.
- `Models`: the `User`, `Message` and `Chat` records of `chat/models.py`, their defaults, set-valued relations and `__str__`.
- `Schema`: the ORM lookups (`objects.get` with its `DoesNotExist` and `MultipleObjectsReturned` outcomes), `PlanCreateChat`, the fan-out, the resolvers and the subscription key.
- `Store`: the `ChatStore` class with `CreateChat` and `SendMessage`, the lookup loop and the participant comprehension.
- `Properties`: the lemmas.

The model keeps these behaviours of the code, although the `CreateChat` docstring (chat/schema.py:62-69) and the names of the arguments might lead a reader to expect otherwise:

- A non-group request is refused by its number of comma-separated pieces, not by its number of distinct participants. `"a@x.com,a@x.com,a@x.com"` is refused even though it names one user.
- A trailing comma gives an empty piece. The empty piece is looked up like any other email.
- The user making the request is not added to the chat. Nothing checks that the caller is among the participants.
- A listener that subscribes without a `chatroom` joins only the default group. Every broadcast `sendMessage` publishes is keyed by a username, so such a listener is never handed one.

Behaviour of the framework that the model makes explicit:

- `mutate` declares `group` without a default, and graphene passes only the arguments a request supplies. A request without `group` therefore raises before anything happens (`GroupArgumentMissing`). An explicit `null` is falsy and takes the non-group branch.
- `name` is a non-null column. A group chat requested without a name raises when the row is inserted (`NameIsNull`). This happens after the emails are resolved, and no row is left behind. A non-group chat always gets the column default, the empty string.
- The `name` column is 200 characters wide. A longer group name is refused at insertion (`NameTooLong`). This assumes a database that enforces the declared width.

## Model

| member | source | states |
|---|---|---|
| `PyStr.Split` | chat/schema.py:81 | `str.split(",")` yields one piece more than there are commas, at least one piece even for `""`, and no piece contains a comma |
| `PyStr.JoinSplit` | chat/schema.py:81 | joining the pieces with `","` gives back the original string: nothing is trimmed or dropped |
| `PyStr.SplitJoin` | chat/schema.py:81 | splitting the join of comma-free pieces gives back exactly those pieces |
| `Models.NewMessage` | chat/models.py:7-12 | a new message has exactly the given sender and text, and is neither deleted nor read |
| `Models.NewChat` | chat/models.py:15-20 | a new chat has no participants and no messages; its group flag is false and its name empty unless given |
| `Models.AddParticipants` | chat/models.py:16 | adding participants is set union; adding users already present leaves the chat unchanged; nothing else changes |
| `Models.AddMessage` | chat/models.py:19 | adding a message is set union; adding one already present leaves the chat unchanged; nothing else changes |
| `Models.ChatStr` | chat/models.py:22-23 | the rendering starts with the name, and its length is the name's plus that of " - group: " plus 4 for a group chat (True) or 5 otherwise (False); the suffix text itself is pinned by `Models.ChatStrRoundTrip` |
| `Models.ChatStrRoundTrip` | chat/models.py:22-23 | name and group flag can be read back from the rendering, whatever the name contains |
| `Schema.GetUserByEmail` | chat/schema.py:88 | the lookup succeeds iff exactly one user has the email, and returns that user; it raises DoesNotExist iff none has it and MultipleObjectsReturned iff several do |
| `Schema.ResolveAll` | chat/schema.py:86-89 | on success, the i-th id is the unique user of the i-th piece; on failure, the error is that of the first piece that does not resolve, and every earlier piece resolved |
| `Schema.ElemsCard` | chat/schema.py:94 | the participant set built from the resolved list has no more users than the list has entries |
| `Schema.FanOut` | chat/schema.py:127-129 | one broadcast per listed user, in list order, keyed by that user's username and carrying the message |
| `Schema.ResolveChat` | chat/schema.py:49-52 | the scoped lookup succeeds iff the chat exists and the caller is a participant; it returns that chat, and otherwise raises DoesNotExist |
| `Schema.ResolveChats` | chat/schema.py:44-47 | a chat is listed iff the caller's scoped lookup of it succeeds, that is iff the caller is a participant |
| `Schema.ResolveMessages` | chat/schema.py:54-58 | succeeds iff the scoped chat lookup succeeds, and returns that chat's whole message set |
| `Schema.PlanCreateChat` | chat/schema.py:80-107 | what `createChat` does: the error string only for a non-group request, and a created chat whose participants exist, which has no messages, whose group flag is the truthiness of `group`, whose name fits the column and which has at most two participants unless it is a group chat; the outcome lemmas below (`Properties.CreateChatRefusal`, `Properties.CreateChatLookupFailure`, `Properties.CreateChatSucceeds` and the three `Properties.CreateChatRaises…` lemmas) say which request gets which outcome, and `Properties.CreatedChatParticipants` and `Properties.CreatedChatColumns` say what a created chat holds |
| `Schema.Subscribe` | chat/schema.py:139-140 | a listener without a chatroom joins only the default group (None); one with a chatroom joins exactly that one group; `Properties.ReceivesIffKey` and `Properties.DeliveredByKey` state what it is then handed |
| `Store.OthersOf` | chat/schema.py:127 | the comprehension lists every participant except the caller exactly once, in some order |
| `Store.ChatStore.GetUsers` | chat/schema.py:86-89 | the lookup loop returns what `ResolveAll` specifies: the resolved ids in order, or the exception of the first lookup that raises |
| `Store.ChatStore.InsertChat` | chat/schema.py:91-95 | the inserted row gets the next primary key, which was unused; only the chat table and its counter change, and the store invariant holds |
| `Store.ChatStore.CreateChat` | chat/schema.py:80-107 | the outcome is the one `PlanCreateChat` describes; only an insert changes the store, by exactly the planned chat under a fresh id; the invariant (participants exist, non-group chats have at most two, names fit) is kept |
| `Store.ChatStore.SendMessage` | chat/schema.py:118-130 | fails and changes nothing iff the scoped chat lookup fails; otherwise it stores one new message with the caller as sender and the given text under a fresh id, adds it to that chat only, and appends the fan-out to the other participants in some order of them |
| `Properties.ResolvedUsers` | chat/schema.py:86-94 | when all pieces resolve, each names exactly one user, and the resolved set is exactly the users whose email is a piece, so duplicate emails collapse |
| `Properties.CreateChatRefusal` | chat/schema.py:81-84 | a request with `group` given is answered with the error string iff it is not a group and the emails hold two or more commas; that answer is the same for every user table, so no lookup is made |
| `Properties.CreateChatLookupFailure` | chat/schema.py:82-101 | past the count check, if some piece does not name exactly one user, the mutation raises the exception of the first such piece, and every earlier piece named one user |
| `Properties.EveryPieceResolves` | chat/schema.py:86-89 | the lookup loop resolves every piece when each piece names exactly one user; the converse is `Properties.ResolvedUsers` |
| `Properties.CreateChatSucceeds` | chat/schema.py:80-107 | a chat is inserted whenever `group` is given, a non-group request has at most two pieces, every piece names exactly one user and a group request's name is present and fits the column; it then holds exactly the users named by the pieces |
| `Properties.CreateChatRaisesGroupArgumentMissing` | chat/schema.py:80 | a request without `group` raises before any lookup, whatever its emails and name |
| `Properties.CreateChatRaisesNameIsNull` | chat/schema.py:96-104 | a group request without a name raises at insertion once every piece names exactly one user |
| `Properties.CreateChatRaisesNameTooLong` | chat/schema.py:96-104 | a group request whose name is wider than 200 characters raises at insertion once every piece names exactly one user |
| `Properties.CreatedChatParticipants` | chat/schema.py:86-106 | a created chat holds exactly the users named by the pieces, each piece naming exactly one user, so duplicate emails collapse; a non-group chat has at most two participants |
| `Properties.CreatedChatColumns` | chat/schema.py:91-104 | a created chat's group flag is the truthiness of `group`; only a group chat keeps the given name, which fits the column; it has no messages yet |
| `Properties.GroupChatHasNoCap` | chat/schema.py:96-106 | a group request naming any number of distinct emails, each of one user, creates a chat with exactly those users, as many as there are emails |
| `Properties.DistinctCard` | chat/schema.py:127 | a participant list without repeats has as many entries as participants |
| `Properties.HitsAppend` | chat/schema.py:129 | publishing one broadcast adds one delivery for its own key and none for any other key |
| `Properties.FanOutHits` | chat/schema.py:127-129 | a fan-out holds one broadcast keyed by a username if that user is a recipient, and none otherwise |
| `Properties.FanOutExactlyOnce` | chat/schema.py:127-129 | whatever the participant order, the fan-out has one broadcast per recipient, all carry the new message, and each recipient's username is keyed exactly once |
| `Properties.SenderReceivesNone` | chat/schema.py:127 | no broadcast is keyed by the sender's username, and a chat whose only participant is the sender publishes nothing |
| `Properties.ReceivesIffKey` | chat/schema.py:139-140 | a listener subscribed under `chatroom` matches a broadcast iff the broadcast's key equals that chatroom; a listener without a chatroom matches none |
| `Properties.DeliveredByKey` | chat/schema.py:139-145 | a listener is handed exactly the broadcasts keyed by its chatroom, and none without one |
| `Properties.SubscriberDelivery` | chat/schema.py:127-140 | after a send, a listener under a username is handed the message once if that user is another participant, and otherwise never |
| `Properties.ReadsAfterSend` | chat/schema.py:120-126 | after a send, the caller's message list for the chat is the old set plus the new message; other chats read as before; every user's chat list is unchanged |
| `Properties.TwoUserChat` | chat/schema.py:80-95 | a non-group request with A's and B's emails creates the chat with participants {A, B}, no name and no messages |
| `Properties.TwoUserSend` | chat/schema.py:118-130 | when A sends in the chat of A and B, one broadcast goes out, keyed by B; B's listener is handed it once, A's never; A's message list is that one message |

## Left out

- `AuthMutation` and `MeQuery` (chat/schema.py:14-37) re-export an authentication library whose behaviour is not visible. The user table is a parameter of the store, and no user is ever added or removed.
- `MyGraphqlWsConsumer.on_connect` and the websocket transport behind `OnNewMessage.broadcast` and `publish` are asynchronous, best-effort delivery and are not modelled. A broadcast is an entry appended to a log. A listener is modelled only by the group key it subscribes with (`Delivered`). Listeners that are not connected and lose events are not modelled.
- The `created` and `last_modified` timestamps are clock reads and are not modelled.
- chat/serializer.py, backend/router.py and backend/urls.py are framework metadata and routing tables. Filtering, ordering, pagination and `prefetch_related` do not change which rows a resolver returns and are not modelled.
- Transactions are not modelled. Each mutation is one atomic step, and concurrent requests are not modelled.
- `Store.ChatStore.SendMessage`: the order in which the database returns participants is unspecified. The postcondition states only that the broadcasts follow some enumeration of the other participants, not which one.
- The caller comes from the request context and is modelled as a user id. An anonymous caller is modelled as an id absent from the user table, and that differs from the code in two ways, listed next.
- Schema.ResolveChats: for an anonymous caller the model returns an empty listing, whereas Django raises `TypeError` when `filter(participants=user)` (chat/schema.py:47) is given `AnonymousUser`.
- Schema.ResolveChat: for an anonymous caller the model fails with `ChatDoesNotExist`, whereas the scoped `get` raises `TypeError`. The same holds for `Schema.ResolveMessages` (chat/schema.py:57) and `Store.ChatStore.SendMessage` (chat/schema.py:120). In each of these the store is left unchanged and no result is returned, so only the kind of exception differs.
- Schema.ResolveChat: the model always receives an `id`. In the code `id` is an optional argument of the `chat` and `messages` fields (chat/schema.py:39, chat/schema.py:42), while `resolve_chat` and `resolve_messages` (chat/schema.py:50, chat/schema.py:55) take it without a default. A query that leaves it out raises `TypeError` before any lookup. The same holds for `Schema.ResolveMessages`. Nothing is changed and no result is returned, as with `ChatDoesNotExist`, so only the kind of exception differs.
- Ids are integers. A `graphene.ID` that is not numeric makes Django raise before the lookup, and that case is not modelled. Database failures other than the ones listed above are not modelled either.
- Foreign-key cascades are not modelled, because the model never deletes users or messages.
