/**
 * The user registry of the Telegram relay bot and the three handlers that
 * read and update it, as functions on an abstract state.
 *
 * The registry maps a Telegram username to the chat it was last seen in and
 * the phone number it shared, if any. Effects the program has on the world
 * are recorded in the state instead of being performed:
 *   - every call of saveUsers appends a snapshot of the map to `persisted`;
 *   - every call of bot.Send appends an Attempt to `outbox`, with the
 *     success or failure the Telegram server reported supplied as an input.
 * JSON decoding of a request body is an input that is either Ok or Malformed.
 */
module Relay {
  import opened Wrappers
  import opened Format

  /** Go's int64, the type of Telegram chat identifiers. */
  newtype int64 = x: int | -0x8000_0000_0000_0000 <= x < 0x8000_0000_0000_0000

  /** A registry record (the Go struct User). */
  datatype User = User(chatId: int64, phone: string)

  /** The JSON body of both HTTP endpoints. */
  datatype SendMessageRequest = SendMessageRequest(username: string, message: string)

  /** The outcome of decoding JSON into a value of type T. */
  datatype Decoded<T> = Ok(value: T) | Malformed

  /** The parts of a Telegram update that the bot reads; None stands for nil. */
  datatype Sender = Sender(userName: string)
  datatype Chat = Chat(id: int64)
  datatype Contact = Contact(phoneNumber: string)
  datatype Message = Message(from: Option<Sender>, chat: Option<Chat>, contact: Option<Contact>)
  datatype Update = Update(message: Option<Message>)

  /** One call of bot.Send: the target chat, the text, and whether Telegram accepted it. */
  datatype Attempt = Attempt(chatId: int64, text: string, delivered: bool)

  /** An HTTP response: status code and body. */
  datatype Response = Response(status: int, body: string)

  /** What the bot knows and has done: the registry, the saves, the sends. */
  datatype State = State(users: map<string, User>, persisted: seq<map<string, User>>, outbox: seq<Attempt>)

  /** What loadUsers finds at users.json. */
  datatype UserFile =
    | Missing                                     // os.Open reports that it does not exist
    | Unreadable                                  // opening it or its Stat failed otherwise
    | Empty                                       // it exists and has size 0
    | Holds(contents: Decoded<map<string, User>>) // it has content, which decodes or not

  const StatusOK := 200
  const StatusBadRequest := 400
  const StatusNotFound := 404
  const StatusInternalServerError := 500

  /** The acknowledgment sent to every chat that writes to the bot. */
  const Ack := "Ваш chat_id сохранен!"

  /** net/http's Error writes the text followed by a newline. */
  function HttpError(text: string, code: int): (r: Response)
    ensures r.status == code && |r.body| == |text| + 1 && r.body[..|text|] == text && r.body[|text|] == '\n'
  {
    Response(code, text + "\n")
  }

  const InvalidRequest := HttpError("Invalid request", StatusBadRequest)
  const UserNotFound := HttpError("User not found", StatusNotFound)
  const SendFailed := HttpError("Failed to send message", StatusInternalServerError)
  const SentToAll := Response(StatusOK, "Message sent to all users")

  const SentToPrefix := "Message sent to chat_id: "

  /** The success body of a single send names the chat the message went to. */
  function SentTo(chatId: int64): (r: Response)
    ensures r.status == StatusOK
    ensures |r.body| > |SentToPrefix| && r.body[..|SentToPrefix|] == SentToPrefix
    ensures r.body[|SentToPrefix|..] == FormatInt(chatId as int)
    ensures ParseInt(r.body[|SentToPrefix|..]) == Some(chatId as int)
  {
    var r := Response(StatusOK, SentToPrefix + FormatInt(chatId as int));
    assert r.body[|SentToPrefix|..] == FormatInt(chatId as int);
    ParseFormat(chatId as int);
    r
  }

  /** Two successful single sends with the same body went to the same chat. */
  lemma SentToInjective(a: int64, b: int64)
    ensures SentTo(a) == SentTo(b) ==> a == b
  {
  }

  // ---------------------------------------------------------------------
  // Persistence
  // ---------------------------------------------------------------------

  /** The file holds what is in memory: the last save wrote the current map. */
  predicate Synced(s: State) {
    |s.persisted| > 0 && s.persisted[|s.persisted| - 1] == s.users
  }

  /** loadUsers: what the registry becomes for each state of users.json. */
  function Load(s: State, f: UserFile): (t: State)
    ensures t.outbox == s.outbox
    ensures f.Missing? ==> t.users == s.users && t.persisted == s.persisted + [s.users]
    ensures f.Empty? ==> t.users == map[] && t.persisted == s.persisted + [map[]]
    ensures (f.Missing? || f.Empty?) ==> Synced(t)
    ensures f.Unreadable? || f == Holds(Malformed) ==> t == s
    ensures f.Holds? && f.contents.Ok? ==>
      && t.persisted == s.persisted
      && t.users.Keys == s.users.Keys + f.contents.value.Keys
      && (forall k :: k in f.contents.value ==> t.users[k] == f.contents.value[k])
      && (forall k :: k in s.users && k !in f.contents.value ==> t.users[k] == s.users[k])
  {
    match f
    case Missing => State(s.users, s.persisted + [s.users], s.outbox)
    case Unreadable => s
    case Empty => State(map[], s.persisted + [map[]], s.outbox)
    case Holds(Malformed) => s
    case Holds(Ok(m)) => State(s.users + m, s.persisted, s.outbox)
  }

  /** The state of a freshly started process: an empty map, no saves, no sends. */
  const Initial := State(map[], [], [])

  /**
   * A restart recovers the registry: a process that starts empty and loads
   * the file that the last save wrote has the map that was saved.
   */
  lemma RestartRecovers(s: State)
    requires Synced(s)
    ensures Load(Initial, Holds(Ok(s.persisted[|s.persisted| - 1]))).users == s.users
  {
  }

  // ---------------------------------------------------------------------
  // handleMessage
  // ---------------------------------------------------------------------

  /** The fields handleMessage takes from an update that has a sender and a chat. */
  datatype Registration = Registration(username: string, chatId: int64, phone: string)

  /**
   * None when handleMessage returns early (no message, no sender or no chat);
   * otherwise the username, the chat and the shared phone number ("" when no
   * contact is attached).
   */
  function Registering(u: Update): (r: Option<Registration>)
    ensures r.None? <==> u.message.None? || u.message.value.from.None? || u.message.value.chat.None?
    ensures r.Some? ==>
      && r.value.username == u.message.value.from.value.userName
      && r.value.chatId == u.message.value.chat.value.id
    ensures r.Some? && u.message.value.contact.Some? ==> r.value.phone == u.message.value.contact.value.phoneNumber
    ensures r.Some? && u.message.value.contact.None? ==> r.value.phone == ""
  {
    match u.message
    case None => None
    case Some(m) =>
      if m.from.None? || m.chat.None? then None
      else
        var phone := if m.contact.Some? then m.contact.value.phoneNumber else "";
        Some(Registration(m.from.value.userName, m.chat.value.id, phone))
  }

  /** Insert-if-absent: a new key gets the record, an existing record is never replaced. */
  function InsertIfAbsent(users: map<string, User>, name: string, record: User): (r: map<string, User>)
    ensures r.Keys == users.Keys + {name}
    ensures forall k :: k in users ==> r[k] == users[k]
    ensures name !in users ==> r[name] == record
  {
    if name in users then users else users[name := record]
  }

  /** Inserting a name that is already present changes nothing, whatever the record. */
  lemma InsertIfAbsentIdempotent(users: map<string, User>, name: string, first: User, second: User)
    ensures InsertIfAbsent(InsertIfAbsent(users, name, first), name, second) == InsertIfAbsent(users, name, first)
  {
  }

  /**
   * handleMessage: an update without a message, sender or chat changes
   * nothing. Otherwise a new username is inserted and the map saved once; a
   * known username keeps its record and nothing is saved; in both cases the
   * acknowledgment is sent to the chat, and its failure changes nothing else.
   */
  function OnMessage(s: State, u: Update, delivered: bool): (t: State)
    ensures Registering(u).None? ==> t == s
    ensures Registering(u).Some? ==>
      var reg := Registering(u).value;
      && t.users.Keys == s.users.Keys + {reg.username}
      && (forall k :: k in s.users ==> t.users[k] == s.users[k])
      && (reg.username !in s.users ==>
            t.users[reg.username] == User(reg.chatId, reg.phone) && t.persisted == s.persisted + [t.users])
      && (reg.username in s.users ==> t.persisted == s.persisted)
      && t.outbox == s.outbox + [Attempt(reg.chatId, Ack, delivered)]
    ensures Synced(s) ==> Synced(t)
  {
    match Registering(u)
    case None => s
    case Some(reg) =>
      var users := InsertIfAbsent(s.users, reg.username, User(reg.chatId, reg.phone));
      var persisted := if reg.username in s.users then s.persisted else s.persisted + [users];
      State(users, persisted, s.outbox + [Attempt(reg.chatId, Ack, delivered)])
  }

  /**
   * Writing twice as the same user keeps the first record and saves at most
   * once, while both messages are acknowledged.
   */
  lemma OnMessageTwice(s: State, u1: Update, u2: Update, d1: bool, d2: bool)
    requires Registering(u1).Some? && Registering(u2).Some?
    requires Registering(u1).value.username == Registering(u2).value.username
    ensures var t := OnMessage(OnMessage(s, u1, d1), u2, d2);
      var reg := Registering(u1).value;
      && t.users == InsertIfAbsent(s.users, reg.username, User(reg.chatId, reg.phone))
      && t.persisted == OnMessage(s, u1, d1).persisted
      && |t.persisted| <= |s.persisted| + 1
      && |t.outbox| == |s.outbox| + 2
  {
  }

  /** The updates handled one after another, as the update loop does under the lock. */
  function OnMessages(s: State, us: seq<Update>, delivered: seq<bool>): (t: State)
    requires |delivered| == |us|
    ensures s.users.Keys <= t.users.Keys
    ensures forall k :: k in s.users ==> t.users[k] == s.users[k]
    ensures s.persisted <= t.persisted && s.outbox <= t.outbox
    ensures Synced(s) ==> Synced(t)
  {
    if us == [] then s
    else OnMessage(OnMessages(s, us[..|us| - 1], delivered[..|us| - 1]), us[|us| - 1], delivered[|us| - 1])
  }

  /** The usernames of a sequence of updates, all of which have a sender and a chat. */
  predicate NewDistinctSenders(users: map<string, User>, us: seq<Update>) {
    && (forall i :: 0 <= i < |us| ==> Registering(us[i]).Some?)
    && (forall i :: 0 <= i < |us| ==> Registering(us[i]).value.username !in users)
    && (forall i, j :: 0 <= i < j < |us| ==>
          Registering(us[i]).value.username != Registering(us[j]).value.username)
  }

  /**
   * N messages from N distinct new usernames add exactly N entries and
   * save exactly N times.
   */
  lemma {:induction false} DistinctSendersAllRegistered(s: State, us: seq<Update>, delivered: seq<bool>)
    requires |delivered| == |us|
    requires NewDistinctSenders(s.users, us)
    ensures var t := OnMessages(s, us, delivered);
      && |t.users| == |s.users| + |us|
      && |t.persisted| == |s.persisted| + |us|
  {
    if us != [] {
      var n := |us| - 1;
      var prev := us[..n];
      assert NewDistinctSenders(s.users, prev) by {
        forall i | 0 <= i < n ensures prev[i] == us[i] { }
      }
      DistinctSendersAllRegistered(s, prev, delivered[..n]);
      var mid := OnMessages(s, prev, delivered[..n]);
      var name := Registering(us[n]).value.username;
      assert name !in mid.users by {
        if name in mid.users {
          MessagesOnlyAddSenders(s, prev, delivered[..n], name);
        }
      }
      assert OnMessages(s, us, delivered) == OnMessage(mid, us[n], delivered[n]) by {
        assert us[..|us| - 1] == prev && delivered[..|us| - 1] == delivered[..n];
      }
      NewSenderStep(mid, us[n], delivered[n]);
    }
  }

  /** A message from a username not yet registered adds one entry and one save. */
  lemma NewSenderStep(s: State, u: Update, delivered: bool)
    requires Registering(u).Some? && Registering(u).value.username !in s.users
    ensures var t := OnMessage(s, u, delivered);
      && |t.users| == |s.users| + 1
      && |t.persisted| == |s.persisted| + 1
      && s.users.Keys <= t.users.Keys
      && Registering(u).value.username in t.users
  {
  }

  /** A key that appears after a run of messages was there before or is one of their senders. */
  lemma {:induction false} MessagesOnlyAddSenders(s: State, us: seq<Update>, delivered: seq<bool>, name: string)
    requires |delivered| == |us|
    requires name in OnMessages(s, us, delivered).users
    ensures name in s.users ||
      exists i :: 0 <= i < |us| && Registering(us[i]).Some? && Registering(us[i]).value.username == name
  {
    if us != [] {
      var n := |us| - 1;
      var mid := OnMessages(s, us[..n], delivered[..n]);
      if name in mid.users {
        MessagesOnlyAddSenders(s, us[..n], delivered[..n], name);
        if !(name in s.users) {
          var i :| 0 <= i < n && Registering(us[..n][i]).Some? && Registering(us[..n][i]).value.username == name;
          assert us[..n][i] == us[i];
        }
      }
    }
  }

  // ---------------------------------------------------------------------
  // handleSendMessage
  // ---------------------------------------------------------------------

  /** A response and the sends made while producing it. */
  datatype Reply = Reply(response: Response, sent: seq<Attempt>)

  /**
   * handleSendMessage: 400 for a malformed body, 404 for an unknown user,
   * otherwise exactly one send to the user's chat, answered by 500 when it
   * fails and by a body naming the chat when it succeeds.
   */
  function SendOne(users: map<string, User>, req: Decoded<SendMessageRequest>, delivered: bool): (r: Reply)
    ensures r.response.status == StatusBadRequest <==> req.Malformed?
    ensures r.response.status == StatusNotFound <==> req.Ok? && req.value.username !in users
    ensures r.response.status == StatusInternalServerError <==>
      req.Ok? && req.value.username in users && !delivered
    ensures r.response.status == StatusOK <==> req.Ok? && req.value.username in users && delivered
    ensures |r.sent| == (if req.Ok? && req.value.username in users then 1 else 0)
    ensures |r.sent| == 1 ==>
      r.sent[0] == Attempt(users[req.value.username].chatId, req.value.message, delivered)
    ensures r.response.status == StatusOK ==> r.response == SentTo(users[req.value.username].chatId)
    ensures r.response.status == StatusBadRequest ==> r.response == InvalidRequest
    ensures r.response.status == StatusNotFound ==> r.response == UserNotFound
    ensures r.response.status == StatusInternalServerError ==> r.response == SendFailed
  {
    match req
    case Malformed => Reply(InvalidRequest, [])
    case Ok(body) =>
      if body.username !in users then Reply(UserNotFound, [])
      else
        var user := users[body.username];
        if delivered then Reply(SentTo(user.chatId), [Attempt(user.chatId, body.message, true)])
        else Reply(SendFailed, [Attempt(user.chatId, body.message, false)])
  }

  // ---------------------------------------------------------------------
  // handleSendMessageToAll
  // ---------------------------------------------------------------------

  /** `order` lists every key of `keys` exactly once (Go's map iteration order is unspecified). */
  ghost predicate Enumerates(order: seq<string>, keys: set<string>) {
    && (forall i, j :: 0 <= i < j < |order| ==> order[i] != order[j])
    && (forall k :: k in keys <==> k in order)
  }

  /** The sends the broadcast loop makes when it visits the users in `order`. */
  function Broadcast(users: map<string, User>, order: seq<string>, text: string, delivered: string -> bool): (a: seq<Attempt>)
    requires forall k :: k in order ==> k in users
    ensures |a| == |order|
  {
    if order == [] then []
    else
      var name := order[|order| - 1];
      Broadcast(users, order[..|order| - 1], text, delivered) + [Attempt(users[name].chatId, text, delivered(name))]
  }

  /** The i-th send goes to the chat of the i-th visited user, with the request's text. */
  lemma {:induction false} BroadcastAt(users: map<string, User>, order: seq<string>, text: string, delivered: string -> bool, i: nat)
    requires forall k :: k in order ==> k in users
    requires i < |order|
    ensures Broadcast(users, order, text, delivered)[i] == Attempt(users[order[i]].chatId, text, delivered(order[i]))
  {
    if i < |order| - 1 {
      BroadcastAt(users, order[..|order| - 1], text, delivered, i);
    }
  }

  /** A sequence without repetitions has as many elements as the set of its elements. */
  lemma {:induction false} EnumerationLength(order: seq<string>, keys: set<string>)
    requires Enumerates(order, keys)
    ensures |order| == |keys|
  {
    if order != [] {
      var n := |order| - 1;
      var last := order[n];
      assert Enumerates(order[..n], keys - {last}) by {
        forall k ensures k in keys - {last} <==> k in order[..n] {
          if k in order && k != last {
            var i :| 0 <= i < |order| && order[i] == k;
            assert order[..n][i] == k;
          }
          if k in order[..n] {
            var i :| 0 <= i < n && order[..n][i] == k;
            assert order[i] == k;
          }
        }
      }
      EnumerationLength(order[..n], keys - {last});
    }
  }

  /**
   * The broadcast makes exactly one attempt per registry entry, to that
   * entry's chat, with the request's text, whatever the individual outcomes.
   */
  lemma BroadcastOnePerEntry(users: map<string, User>, order: seq<string>, text: string, delivered: string -> bool)
    requires Enumerates(order, users.Keys)
    ensures var a := Broadcast(users, order, text, delivered);
      && |a| == |users|
      && (forall name :: name in users ==>
            exists i :: 0 <= i < |a| && order[i] == name && a[i] == Attempt(users[name].chatId, text, delivered(name)))
      && (forall i :: 0 <= i < |a| ==> a[i].text == text && a[i].chatId == users[order[i]].chatId)
  {
    var a := Broadcast(users, order, text, delivered);
    EnumerationLength(order, users.Keys);
    forall i | 0 <= i < |a| ensures a[i] == Attempt(users[order[i]].chatId, text, delivered(order[i])) {
      BroadcastAt(users, order, text, delivered, i);
    }
    forall name | name in users
      ensures exists i :: 0 <= i < |a| && order[i] == name && a[i] == Attempt(users[name].chatId, text, delivered(name))
    {
      var i :| 0 <= i < |order| && order[i] == name;
      assert a[i] == Attempt(users[order[i]].chatId, text, delivered(order[i]));
    }
  }

  /** How many of the attempts failed. */
  function Failures(a: seq<Attempt>): nat {
    if a == [] then 0 else Failures(a[..|a| - 1]) + (if a[|a| - 1].delivered then 0 else 1)
  }

  /** The users whose send fails. */
  function FailingUsers(users: map<string, User>, delivered: string -> bool): set<string> {
    set name | name in users && !delivered(name)
  }

  lemma {:induction false} FailuresCountVisited(users: map<string, User>, order: seq<string>, text: string, delivered: string -> bool)
    requires forall k :: k in order ==> k in users
    requires forall i, j :: 0 <= i < j < |order| ==> order[i] != order[j]
    ensures Failures(Broadcast(users, order, text, delivered)) == |set name | name in order && !delivered(name)|
  {
    if order != [] {
      var n := |order| - 1;
      var prev, last := order[..n], order[n];
      assert order == prev + [last];
      FailuresCountVisited(users, prev, text, delivered);
      var a := Broadcast(users, order, text, delivered);
      assert a[..n] == Broadcast(users, prev, text, delivered);
      assert Failures(a) == Failures(a[..n]) + (if delivered(last) then 0 else 1);
      var before := set name | name in prev && !delivered(name);
      var after := set name | name in order && !delivered(name);
      assert last !in prev;
      assert after == before + (if delivered(last) then {} else {last});
    }
  }

  /** Each failing user accounts for exactly one failed attempt; the others succeed. */
  lemma BroadcastFailures(users: map<string, User>, order: seq<string>, text: string, delivered: string -> bool)
    requires Enumerates(order, users.Keys)
    ensures Failures(Broadcast(users, order, text, delivered)) == |FailingUsers(users, delivered)|
  {
    FailuresCountVisited(users, order, text, delivered);
    assert (set name | name in order && !delivered(name)) == FailingUsers(users, delivered);
  }

  /**
   * handleSendMessageToAll: 400 and no sends for a malformed body; otherwise
   * the broadcast's sends and always the fixed confirmation. The request's
   * username plays no part.
   */
  function SendAll(users: map<string, User>, req: Decoded<SendMessageRequest>, order: seq<string>, delivered: string -> bool): (r: Reply)
    requires req.Ok? ==> Enumerates(order, users.Keys)
    ensures req.Malformed? ==> r == Reply(InvalidRequest, [])
    ensures req.Ok? ==> r.response == SentToAll && |r.sent| == |users| == |order|
    ensures req.Ok? ==> forall i :: 0 <= i < |r.sent| ==>
      r.sent[i] == Attempt(users[order[i]].chatId, req.value.message, delivered(order[i]))
  {
    match req
    case Malformed => Reply(InvalidRequest, [])
    case Ok(body) =>
      BroadcastOnePerEntry(users, order, body.message, delivered);
      EnumerationLength(order, users.Keys);
      Reply(SentToAll, Broadcast(users, order, body.message, delivered))
  }

  /** The broadcast ignores the username field of its request. */
  lemma SendAllIgnoresUsername(users: map<string, User>, message: string, a: string, b: string,
                               order: seq<string>, delivered: string -> bool)
    requires Enumerates(order, users.Keys)
    ensures SendAll(users, Ok(SendMessageRequest(a, message)), order, delivered)
         == SendAll(users, Ok(SendMessageRequest(b, message)), order, delivered)
  {
  }
}
