# Chat relay: connection registry and broadcast handlers

A model of the server of a minimal real-time chat relay. The server keeps one
in-memory registry, `users`, a JavaScript `Map` from socket connection id to
display name, and reacts to three socket events:

- `join(name)` stores `name || "Anonymous"` under the connection id, then
  broadcasts the full user list and a "`<name> joined the chat.`" notice;
- `message(text)` broadcasts the text, credited to the sender's registered
  name or to "Anonymous", without touching the registry;
- `disconnect` removes the connection's entry, broadcasts the user list, and
  a "`<name> left the chat.`" notice only if the connection had joined.

The model has four modules:

- `OrderedMap` (ordered_map.dfy): a JavaScript `Map` as its list of entries in
  insertion order, with `Keys`, `Values`, `Get`, `Set` and `Delete` and their
  laws (`set` on a present key overwrites in place, on a new key appends;
  `delete` removes one entry and keeps the order of the rest).
- `Chat` (chat_server.dfy): the outbound `Event` datatype, the falsy-to-
  "Anonymous" rule `OrAnonymous`, and the class `ChatServer` whose field
  `users` is the registry and whose methods `Join`, `Message` and
  `Disconnect` are the handlers. Each method returns the events it
  broadcasts, in emission order (`io.emit` becomes "append to the returned
  list"). The class invariant is that keys are distinct and names non-empty.
- `Replay` (replay.dfy): the registry after any sequence of handler calls,
  and a characterisation that does not mention the map operations: the user
  list holds exactly the connections that joined and have not disconnected
  since, each under the name of its latest join, in the order in which their
  current sessions began.
- `ChatScenarios` (scenarios.dfy): short client sessions with `ChatServer` whose
  broadcasts follow from the handlers' contracts alone.

Clock readings (`Date.now()`) and message ids (`Date.now()` plus a random
suffix) are parameters of the handlers. A join payload is `Option<string>`:
`None` stands for `undefined` or `null`.

Where the specification of the system and the code disagree, the model
follows the code:

- The specification says a disconnect of a connection that never joined
  broadcasts nothing; the code broadcasts the user list on every disconnect
  (backend/server.js:54) and only the "left" notice depends on having joined.
- The specification says a whitespace-only name becomes "Anonymous"; the
  server replaces only falsy names (absent or empty) and keeps `"   "` as it
  is (backend/server.js:28). Trimming happens only in the browser client.

## Model

| member | source | states |
|---|---|---|
| `OrderedMap.Get` | backend/server.js:40 | `users.get(id)` is defined exactly when `id` is a key, and then the returned name is the one stored with `id` |
| `OrderedMap.GetEntry` | backend/server.js:51 | in a map with distinct keys, `get` of an entry's key returns that entry's value |
| `OrderedMap.SetPresent` | backend/server.js:28 | `set` on a key already present replaces its entry in place: same keys, same length, only that position's value changes in `values()` |
| `OrderedMap.SetAbsent` | backend/server.js:28 | `set` on a new key appends the entry, so `values()` gains the name at the end |
| `OrderedMap.SetDistinct` | backend/server.js:28 | `set` keeps the keys distinct |
| `OrderedMap.GetSet` | backend/server.js:28-29 | after `set(id, v)`, `get(id)` is `v` and every other key reads as before |
| `OrderedMap.DeleteAbsent` | backend/server.js:52 | `delete` of a key that is not present leaves the map unchanged |
| `OrderedMap.DeletePresent` | backend/server.js:52 | `delete` of a present key removes exactly its entry; the other entries and their values keep their relative order |
| `OrderedMap.DeleteDistinct` | backend/server.js:52 | after `delete(id)` the keys are still distinct and `id` is no longer one of them |
| `OrderedMap.GetDelete` | backend/server.js:51-52 | after `delete(id)`, `get(id)` is undefined and every other key reads as before |
| `OrderedMap.DeleteIdempotent` | backend/server.js:52 | deleting the same key twice is the same as deleting it once |
| `Chat.OrAnonymous` | backend/server.js:28 | `name \|\| "Anonymous"`: absent or empty becomes "Anonymous", any other string (whitespace-only included) is kept, and the result is never empty |
| `Chat.SetRegistry` | backend/server.js:28 | storing a non-empty name keeps the registry invariant (distinct keys, non-empty names) |
| `Chat.DeleteRegistry` | backend/server.js:52 | removing an entry keeps the registry invariant |
| `Chat.ChatServer.constructor` | backend/server.js:21 | the registry starts empty |
| `Chat.ChatServer.Join` | backend/server.js:27-36 | upserts `name \|\| "Anonymous"`, keeps the invariant, and emits exactly `userList` with the post-update names and then `systemMessage` "`<stored name> joined the chat.`" |
| `Chat.ChatServer.Message` | backend/server.js:39-48 | emits exactly one `message` event carrying the given id, time and unchanged text, whose sender is the registered name when the id has joined and "Anonymous" otherwise; the registry is not modified |
| `Chat.ChatServer.Disconnect` | backend/server.js:50-61 | removes only that id's entry, always emits `userList` with the post-removal names first, and emits a second event, "`<name> left the chat.`" with the removed name, if and only if the id had an entry |
| `Replay.RunConsistent` | backend/server.js:27-61 | after any sequence of join, message and disconnect calls from an empty registry: keys are distinct, names non-empty, an id is registered exactly when it joined and has not disconnected since, with the name of its latest join, and entries are ordered by the start of their current session |
| `Replay.JoinConsistent` | backend/server.js:27-31 | a join extends that consistency to the longer trace: a rejoin keeps the session's start, a first join starts a session after every other one |
| `Replay.DisconnectConsistent` | backend/server.js:50-54 | a disconnect extends that consistency to the longer trace |
| `Replay.UserListAfter` | backend/server.js:31 | every name in the broadcast user list belongs to a live connection and is the name of that connection's latest join |
| `Replay.LiveListed` | backend/server.js:31 | every live connection appears in the registry under its latest name |
| `Replay.SenderAfter` | backend/server.js:40 | a message after a trace is credited to the latest name of a live sender, and to "Anonymous" for one that never joined or has disconnected |
| `ChatScenarios.JoinThenMessage` | backend/server.js:27-48 | after joining as a non-empty name, a message is broadcast with that name as sender |
| `ChatScenarios.MessageBeforeJoin` | backend/server.js:39-47 | a message from a connection that never joined is credited to "Anonymous" |
| `ChatScenarios.DisconnectTwice` | backend/server.js:50-61 | the first disconnect of a joined connection emits the emptied user list and a "left" notice; a second one, or one without a join, emits only the user list |
| `ChatScenarios.BlankNames` | backend/server.js:27-47 | an empty join name yields sender "Anonymous"; a blank name `"   "` is kept as the sender |
| `ChatScenarios.RejoinKeepsPlace` | backend/server.js:28-35 | rejoining under a new name keeps the connection's place in the user list |
| `ChatScenarios.NewcomerLast` | backend/server.js:28-35 | a new connection's name is listed after everyone already online |
| `ChatScenarios.LeaveClosesGap` | backend/server.js:50-60 | a departure is announced under the leaver's name and the others keep their order |

## Left out

- Server setup and transport (express app, CORS, `http.createServer`, the socket.io server options, `server.listen`) and the `GET /` health endpoint: library plumbing and I/O.
- The `connection` event itself: a connection is only its id; the model does not track which ids are open.
- `console.log` calls: logging only.
- The format and uniqueness of message ids and the values of timestamps (`Date.now()`, `Math.random()`): they are nondeterministic and enter as parameters.
- Fan-out to the individual clients, delivery, and interleaving of events from different connections: each handler call is atomic and its broadcasts are the returned list.
- Payloads that are not strings (numbers, `false`, objects) for `join` and `message`: only strings and an absent name are modelled.
- The browser client (frontend/src/App.js): rendering, trimming of input before it is sent, time formatting and appending received events to a list.
