/** Worked cases of the handlers, each stated for every choice the environment leaves open. */
module Scenarios {
  import opened Wrappers
  import opened Relay

  /** alice registered at chat 42; a send of "hi" to her goes to chat 42 and names it. */
  lemma SendToRegisteredUser(users: map<string, User>)
    requires "alice" in users && users["alice"].chatId == 42
    ensures SendOne(users, Ok(SendMessageRequest("alice", "hi")), true)
         == Reply(Response(200, "Message sent to chat_id: 42"), [Attempt(42, "hi", true)])
  {
  }

  /** bob is not registered: 404 and nothing is sent. */
  lemma SendToUnknownUser(users: map<string, User>, delivered: bool)
    requires "bob" !in users
    ensures SendOne(users, Ok(SendMessageRequest("bob", "hi")), delivered)
         == Reply(Response(404, "User not found\n"), [])
  {
  }

  /**
   * Three registered users, the send to one of them failing: still the fixed
   * confirmation, three attempts, one of them failed, whatever order the map
   * is visited in.
   */
  lemma BroadcastToThreeWithOneFailure(order: seq<string>)
    requires Enumerates(order, {"alice", "bob", "carol"})
    ensures var users := map["alice" := User(1, ""), "bob" := User(2, "+100"), "carol" := User(3, "")];
      var r := SendAll(users, Ok(SendMessageRequest("", "news")), order, name => name != "bob");
      && r.response == Response(200, "Message sent to all users")
      && |r.sent| == 3
      && Failures(r.sent) == 1
  {
    var users := map["alice" := User(1, ""), "bob" := User(2, "+100"), "carol" := User(3, "")];
    var delivered := (name: string) => name != "bob";
    assert users.Keys == {"alice", "bob", "carol"};
    BroadcastFailures(users, order, "news", delivered);
    assert FailingUsers(users, delivered) == {"bob"};
  }
}
