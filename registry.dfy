/**
 * The running bot: the global users map of main.go as a Registry object,
 * with one method per handler. Each method is proved to move the object
 * from its abstract state to the state the matching function of Relay
 * prescribes, so everything proved about those functions holds of it.
 */
module Server {
  import opened Wrappers
  import opened Relay

  class Registry {
    /** The username -> record map (main.go's `users`). */
    var users: map<string, User>
    /** Every map saveUsers has written to users.json, oldest first. */
    ghost var persisted: seq<map<string, User>>
    /** Every call of bot.Send, oldest first. */
    var outbox: seq<Attempt>

    ghost function Model(): State
      reads this
    {
      State(users, persisted, outbox)
    }

    /** A process that has just started: `make(map[string]User)`, nothing saved or sent. */
    constructor ()
      ensures Model() == Initial
    {
      users := map[];
      persisted := [];
      outbox := [];
    }

    /** saveUsers: the file is overwritten with the whole current map. */
    method SaveUsers()
      modifies this`persisted
      ensures persisted == old(persisted) + [users]
    {
      persisted := persisted + [users];
    }

    /** bot.Send: records the attempt; `delivered` is Telegram's answer, err its negation. */
    method Send(chatId: int64, text: string, delivered: bool) returns (err: bool)
      modifies this`outbox
      ensures outbox == old(outbox) + [Attempt(chatId, text, delivered)]
      ensures err == !delivered
    {
      outbox := outbox + [Attempt(chatId, text, delivered)];
      err := !delivered;
    }

    /** loadUsers, given what it finds at users.json. */
    method LoadUsers(file: UserFile)
      modifies this
      ensures Model() == Load(old(Model()), file)
    {
      match file
      case Missing =>
        SaveUsers();
      case Unreadable =>
      case Empty =>
        users := map[];
        SaveUsers();
      case Holds(Malformed) =>
      case Holds(Ok(m)) =>
        users := users + m;
    }

    /** handleMessage, given the update and whether the acknowledgment is delivered. */
    method HandleMessage(update: Update, delivered: bool)
      modifies this
      ensures Model() == OnMessage(old(Model()), update, delivered)
    {
      if update.message.None? {
        return;
      }
      var message := update.message.value;
      if message.from.None? || message.chat.None? {
        return;
      }
      var username := message.from.value.userName;
      var chatId := message.chat.value.id;
      var phone := "";
      if message.contact.Some? {
        phone := message.contact.value.phoneNumber;
      }
      if username !in users {
        users := users[username := User(chatId, phone)];
        SaveUsers();
      }
      var err := Send(chatId, Ack, delivered);
    }

    /** handleSendMessage, given the decoded body and whether Telegram accepts the send. */
    method HandleSendMessage(request: Decoded<SendMessageRequest>, delivered: bool) returns (response: Response)
      modifies this`outbox
      ensures users == old(users) && persisted == old(persisted)
      ensures outbox == old(outbox) + SendOne(users, request, delivered).sent
      ensures response == SendOne(users, request, delivered).response
    {
      if request.Malformed? {
        return InvalidRequest;
      }
      var req := request.value;
      if req.username !in users {
        return UserNotFound;
      }
      var user := users[req.username];
      var err := Send(user.chatId, req.message, delivered);
      if err {
        return SendFailed;
      }
      response := SentTo(user.chatId);
    }

    /**
     * handleSendMessageToAll, given the decoded body and, per username,
     * whether Telegram accepts the send. `order` is the order in which the
     * map happened to be visited.
     */
    method HandleSendMessageToAll(request: Decoded<SendMessageRequest>, delivered: string -> bool)
      returns (response: Response, ghost order: seq<string>)
      modifies this`outbox
      ensures users == old(users) && persisted == old(persisted)
      ensures request.Ok? ==> Enumerates(order, users.Keys)
      ensures outbox == old(outbox) + SendAll(users, request, order, delivered).sent
      ensures response == SendAll(users, request, order, delivered).response
    {
      order := [];
      if request.Malformed? {
        return InvalidRequest, order;
      }
      var remaining := users.Keys;
      var text := request.value.message;
      while remaining != {}
        invariant remaining <= users.Keys
        invariant Enumerates(order, users.Keys - remaining)
        invariant outbox == old(outbox) + Broadcast(users, order, text, delivered)
        decreases remaining
      {
        var name :| name in remaining;
        var user := users[name];
        var err := Send(user.chatId, text, delivered(name));
        order, remaining := order + [name], remaining - {name};
      }
      response := SentToAll;
    }
  }
}
