/** The record shapes of the chat application: users (managed by the
    framework's authentication subsystem), messages and chats. Rows are
    identified by their integer primary keys; the tables themselves live in
    the store (module Store). */
module Models {

  import opened Wrappers

  type UserId = int
  type ChatId = int
  type MessageId = int

  /** Declared width of the `name` column. */
  const MaxNameLength: nat := 200

  /** The framework's user row, reduced to what the chat code reads. */
  datatype User = User(username: string, email: string)

  /** A message: one sender, a text and two flags that nothing ever sets.
      The creation timestamp is not modelled. */
  datatype Message = Message(sender: UserId, text: string, deleted: bool, read: bool)

  /** A chat: two many-to-many relations held as sets, a name and the group
      flag. The last-modified timestamp is not modelled. */
  datatype Chat = Chat(participants: set<UserId>, name: string, group: bool, messages: set<MessageId>)

  /** A name fits the `name` column. */
  predicate NameFits(name: string)
  {
    |name| <= MaxNameLength
  }

  /** A freshly created message row: the column defaults leave it unread and
      not deleted. */
  function NewMessage(sender: UserId, text: string): (m: Message)
    ensures m.sender == sender && m.text == text
    ensures !m.deleted && !m.read
  {
    Message(sender, text, false, false)
  }

  /** A freshly created chat row: both relations start empty, the group flag
      defaults to false and the name to the empty string. */
  function NewChat(group: bool := false, name: string := ""): (c: Chat)
    ensures c.participants == {} && c.messages == {}
    ensures c.group == group && c.name == name
  {
    Chat({}, name, group, {})
  }

  /** `chat.participants.add(*users)`: set union, so adding users that are
      already present changes nothing. */
  function AddParticipants(c: Chat, users: set<UserId>): (r: Chat)
    ensures r.participants == c.participants + users
    ensures r.name == c.name && r.group == c.group && r.messages == c.messages
    ensures users <= c.participants ==> r == c
  {
    c.(participants := c.participants + users)
  }

  /** `chat.messages.add(message)`: adding a message that is already present
      changes nothing. */
  function AddMessage(c: Chat, m: MessageId): (r: Chat)
    ensures r.messages == c.messages + {m}
    ensures r.participants == c.participants && r.name == c.name && r.group == c.group
    ensures m in c.messages ==> r == c
  {
    c.(messages := c.messages + {m})
  }

  /** Python's `str(bool)`. */
  function BoolStr(b: bool): string
  {
    if b then "True" else "False"
  }

  const GroupTag: string := " - group: "

  /** `Chat.__str__`: the name, then " - group: ", then True or False. */
  function ChatStr(c: Chat): (s: string)
    ensures |s| == |c.name| + |GroupTag| + (if c.group then 4 else 5)
    ensures s[..|c.name|] == c.name
  {
    c.name + GroupTag + BoolStr(c.group)
  }

  /** Reads a rendered chat back: name and group flag, recognised by the
      suffix, since a name may itself contain " - group: ". */
  function ParseChatStr(s: string): Option<(string, bool)>
  {
    var t := GroupTag + "True";
    var f := GroupTag + "False";
    if |s| >= |t| && s[|s| - |t|..] == t then Some((s[..|s| - |t|], true))
    else if |s| >= |f| && s[|s| - |f|..] == f then Some((s[..|s| - |f|], false))
    else None
  }

  /** The rendering loses neither the name nor the flag. */
  lemma ChatStrRoundTrip(c: Chat)
    ensures ParseChatStr(ChatStr(c)) == Some((c.name, c.group))
  {
    var s := ChatStr(c);
    var t := GroupTag + "True";
    var f := GroupTag + "False";
    if c.group {
      assert s == c.name + t;
      assert s[|s| - |t|..] == t;
      assert s[..|s| - |t|] == c.name;
    } else {
      assert s == c.name + f;
      assert s[|s| - |t|..][|GroupTag|..] == "alse";
      assert s[|s| - |f|..] == f;
      assert s[..|s| - |f|] == c.name;
    }
  }
}
