# Telegram relay bot: the user registry and its handlers

The bot relays messages between Telegram and an HTTP sender. It keeps a
registry from Telegram username to `User{ChatID, Phone}`, fills it from
incoming updates (`handleMessage`), writes it to `users.json` after every
insert (`saveUsers`), reads it at startup (`loadUsers`), and serves two
endpoints that send one message to one registered user
(`handleSendMessage`) or to every registered user
(`handleSendMessageToAll`).

The model has four parts:

- `Format` (format.dfy): what Go's `%d` prints for an integer, with a reader
  `ParseInt` as its partner. The round trip is proved, so the success body
  "Message sent to chat_id: <id>" names the chat unambiguously.
- `Relay` (relay.dfy): the value types (`User`, `SendMessageRequest`, the
  parts of a Telegram update, HTTP responses) and each handler as a function
  on an abstract `State`. The state holds the map, `persisted` (every map
  that `saveUsers` wrote) and `outbox` (every `bot.Send` call, with
  Telegram's answer). The properties of the handlers are proved here.
- `Server` (registry.dfy): the class `Registry`, which stands for the global
  `users` map. It has one method per handler, and each method changes the
  object in place. Each method is proved to produce exactly the state or
  reply that the matching `Relay` function prescribes. The broadcast is a
  loop over the keys in an unspecified order, with its invariants.
- `Scenarios` (scenarios.dfy): concrete cases of the handlers.

Inputs the program gets from outside are parameters:

- the decoded request body is `Ok(req)` or `Malformed`;
- whether Telegram accepts a send is a `bool`, and for the broadcast a
  function from username to `bool`;
- what `loadUsers` finds at `users.json` is a `UserFile`: `Missing`,
  `Unreadable`, `Empty`, or `Holds` content that decodes or not.

Details of the code's behaviour that the model keeps:

- The acknowledgment "Ваш chat_id сохранен!" is sent after every message
  that has a sender and a chat, not only after an insert (main.go:106-111).
- A users.json that exists but does not decode does not reset the map. It
  is left as it was, and nothing is saved (main.go:55-58). Only a file of
  size zero resets the map to empty and saves it (main.go:48-52).
- When users.json is missing, the current map is saved as it is, and nothing
  is reset (main.go:34-37). At startup that map is the empty one.
- `os.Open` can fail for a reason other than "does not exist". The code then
  calls `Stat` on a nil file, that call fails, and `loadUsers` returns
  without any change. This is `UserFile.Unreadable`, the same branch as a
  failing `Stat`.
- The error responses come from `http.Error`, which adds a newline after the
  text. The error bodies therefore end in "\n". The success bodies do not.
- A Telegram user without a username has the key "". All such users share
  one entry, and only the first of them to write is recorded
  (`Relay.OnMessageTwice`).

## Model

| member | source | states |
|---|---|---|
| Format.Digits | main.go:139 | the decimal digits of a natural number: non-empty, all digits, no leading zero except for "0" |
| Format.FormatInt | main.go:139 | `%d` of an integer: a leading '-' exactly for negatives, followed by canonical digits |
| Format.ValueOfDigits | main.go:139 | reading the digits of n gives back n |
| Format.ParseFormat | main.go:139 | reading what `%d` prints for n gives back n |
| Format.FormatInjective | main.go:139 | different integers print differently |
| Relay.HttpError | main.go:118 | an `http.Error` reply has the given status and its body is the text followed by one newline character |
| Relay.SentTo | main.go:139 | the success body of a single send is status 200, starts with "Message sent to chat_id: ", continues with exactly what `%d` prints for the chat id, and that rest reads back as the chat id |
| Relay.SentToInjective | main.go:139 | two equal success bodies name the same chat |
| Relay.Load | main.go:32-59 | a missing file saves the current map unchanged; an empty file resets the map to empty and saves it; after either, the file holds the map; an unreadable or undecodable file changes nothing; a decoded JSON object is merged over the map, its entries winning; nothing is sent |
| Relay.RestartRecovers | main.go:55 | a process that starts empty and loads the last saved map has that map |
| Relay.Registering | main.go:78-95 | an update yields nothing exactly when the message, its sender or its chat is nil; otherwise it yields the sender's username, the chat id, and the contact's phone when a contact is attached or "" when not |
| Relay.InsertIfAbsent | main.go:98-100 | the keys grow by exactly the name; every existing record is kept; a new name gets the given record |
| Relay.InsertIfAbsentIdempotent | main.go:98-100 | inserting a name that is already present changes nothing, whatever the second record |
| Relay.OnMessage | main.go:76-112 | an update without message, sender or chat changes nothing and sends nothing; otherwise a new username is inserted and exactly one save of the new map follows; a known username keeps its record and nothing is saved; all other keys are untouched; the acknowledgment is sent to the chat in every case; the file stays in step with the map |
| Relay.OnMessageTwice | main.go:97-111 | two messages from the same username keep the first record, save at most once, and are both acknowledged |
| Relay.OnMessages | main.go:188-192 | handling updates one after another never removes a key or changes an existing record, only appends to the saves and the sends, and keeps the file in step with the map |
| Relay.NewSenderStep | main.go:98-103 | a message from a new username adds exactly one entry and one save |
| Relay.MessagesOnlyAddSenders | main.go:97-104 | after a run of messages, every key was already present or is the username of one of the messages |
| Relay.DistinctSendersAllRegistered | main.go:97-104 | messages from N distinct new usernames, handled one after another, add exactly N entries and save exactly N times |
| Relay.SendOne | main.go:114-140 | 400 exactly for a malformed body, 404 exactly for an unknown user, 500 exactly when the send to a known user fails, 200 exactly when it succeeds; one send to the user's chat with the request's text when the user is known, none otherwise; the 200 body names that chat |
| Relay.Broadcast | main.go:153-159 | one send per visited user |
| Relay.BroadcastAt | main.go:153-159 | the i-th send goes to the chat of the i-th visited user, with the request's text and that user's outcome |
| Relay.EnumerationLength | main.go:153 | visiting every key of the map once takes exactly as many steps as the map has entries |
| Relay.BroadcastOnePerEntry | main.go:153-159 | the broadcast makes exactly as many sends as there are entries; every entry gets one to its chat with the request's text, whatever the other outcomes |
| Relay.FailuresCountVisited | main.go:155-158 | the failed sends of the visited users are as many as the visited users whose send fails |
| Relay.BroadcastFailures | main.go:155-158 | the number of failed sends equals the number of users whose send fails; failures do not stop the loop |
| Relay.SendAll | main.go:142-162 | a malformed body gives 400 and no sends; otherwise the reply is always "Message sent to all users" and the sends are one per entry, in visiting order, with the request's text |
| Relay.SendAllIgnoresUsername | main.go:143-161 | the username in the broadcast request makes no difference |
| Server.Registry.constructor | main.go:25 | a new registry has the empty map, no saves and no sends |
| Server.Registry.SaveUsers | main.go:62-74 | a save records the whole current map |
| Server.Registry.Send | main.go:107-108 | a send records the chat, the text and Telegram's answer; it reports an error exactly when Telegram refused |
| Server.Registry.LoadUsers | main.go:32-59 | moves the registry to `Relay.Load` of its old state |
| Server.Registry.HandleMessage | main.go:76-112 | moves the registry to `Relay.OnMessage` of its old state |
| Server.Registry.HandleSendMessage | main.go:114-140 | leaves the map and the saves unchanged, appends `Relay.SendOne`'s sends to the outbox, and returns its response |
| Server.Registry.HandleSendMessageToAll | main.go:142-162 | leaves the map and the saves unchanged; for a decoded body, the loop visits every key exactly once, and the outbox grows by `Relay.SendAll`'s sends for that visiting order; returns its response |
| Scenarios.SendToRegisteredUser | main.go:132-139 | alice at chat 42, message "hi": one send (42, "hi") and the body "Message sent to chat_id: 42" |
| Scenarios.SendToUnknownUser | main.go:127-130 | an unregistered bob: 404 "User not found" and no send |
| Scenarios.BroadcastToThreeWithOneFailure | main.go:150-161 | three users, one send failing: still "Message sent to all users", three sends, one failed, in any visiting order |

## Left out

- The Telegram client: constructing it, `GetUpdatesChan`, and receiving updates from its channel (main.go:164-178, main.go:188). These are library and network I/O. The loop's handling of the received updates one after another is `Relay.OnMessages`. `bot.Send` is modelled only as a recorded attempt whose success is an input.
- The HTTP server and routing (main.go:180-186), and `http.ResponseWriter` mechanics such as headers and content types. A response is a status and a body.
- JSON encoding and decoding of request bodies and of users.json. Decoding is an input that is `Ok` or `Malformed`. Saving records the map itself instead of its JSON text.
- Relay.Load: when users.json holds content that fails to decode part-way, Go's decoder may already have merged some entries into the map. The model leaves the map unchanged in that case.
- Relay.Load: a users.json holding the JSON text `null` is not modelled. Go's decoder then sets the map to nil without an error (main.go:55), and the first insert of a new username panics on the nil map (main.go:100), which ends the process. The model has no nil map and no crash, so it would treat such a file as an empty object or as undecodable.
- `Relay.Synced` (the file holds the current map) is tracked through the saves only, since the model does not record what users.json held before the first save. A process that starts from an existing users.json that decodes has the file's map in memory, but `Synced` holds for it only after its first save.
- File-system failures in `saveUsers` (`os.Create` or the encoder failing) are not modelled. Every save records its snapshot. Log messages are not modelled either.
- The mutex and the goroutines (main.go:26, main.go:97-104, main.go:123-125, main.go:150-151, main.go:183). The model is sequential. The lock only makes each handler's access to the map atomic, and `Relay.OnMessages` runs the handlers one after another.
- Go's randomised map iteration order. The broadcast visits the keys in an order it returns as a ghost result, and the proved properties hold for every such order.
- Chat ids are `int64` values. Go's `int64` cannot overflow in this code, because ids are only copied and printed.
