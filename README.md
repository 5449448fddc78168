# Secure chat backend: presence, routing and history core

This project models, in Dafny, the server-side core of a real-time chat backend
(Express + socket.io + MongoDB). It covers four stateful pieces.

- **Presence registry** (`onlineUsers` in `backend/server.js`). Maps each user id
  to the set of that user's live socket ids. A connection adds its socket. A
  disconnect removes it and drops the user's entry once the set is empty.
  `sendToUser` emits one event to every socket of one user.
- **Send router** (the socket `send` handler). Takes the sender from the socket's
  bound identity and drops intents with no sender, no message or no target. A
  group send needs an existing group that lists the sender. A direct send goes to
  the sender and, if different, the receiver. The message is persisted encrypted
  before any event is emitted, and a failed insert emits nothing.
- **Group store** (`backend/group.js`). Covers create, list, add-member,
  remove-member, exit, the group history, the cascade delete and the per-user
  clear.
- **Message store with a soft-delete overlay** (`backend/chat.js` and the group
  history and clear routes). A history answer is filtered by conversation and by
  "requester not in `deletedFor`", sorted by time and decrypted. A clear adds the
  requester to `deletedFor` with set semantics.

Modules, one per component:

| file | module | models |
|---|---|---|
| `outcomes.dfy` | `Outcomes` | `Option`, the route answers `Result`, and the HTTP statuses as `Status` variants |
| `codec.dfy` | `Codec` | AES-256-CBC as a symbolic cipher: a ciphertext opens only with the key and iv it was sealed with |
| `records.dfy` | `Records` | the `Message` and `Group` documents (`backend/models.js`) and the array operations on their fields |
| `history.dfy` | `History` | the history queries, the clear overlay and the cascade filter, as functions, with their lemmas |
| `store.dfy` | `Store` | class `Db` (the collections) and the group and clear routes that change it, as methods |
| `routing.dfy` | `Routing` | the registry, fan-out and send decision as functions, with their lemmas |
| `server.dfy` | `Server` | class `ChatServer` (`onlineUsers`, the emitted events) and its socket handlers, as methods |
| `scenarios.dfy` | `Scenarios` | end-to-end runs of the handlers, proved from the class contracts alone |

Modelling choices:

- A JavaScript value that is falsy where the code tests it (absent, `null`, `""`)
  is the empty string `""`. This covers the socket's bound user id, the intent's
  `receiver`, `groupId` and `message`, a group `name` and a body's `userId`.
- User ids and group ids are both strings, since a message's `receiver` holds
  either.
- Every emitted event is appended to `ChatServer.sent`, which plays the transport.
- Each handler runs as one atomic method.
- The iv drawn by `crypto.randomBytes(16)`, the insert time `Date.now` and the
  success of `Message.create` are parameters supplied by the caller.
- A new group's document id is a parameter, as MongoDB assigns it. An id already
  in use fails the insert with status 500.
- The user collection is the set `Db.users`. Add-member consults it.
- The AES key is the subset type `Key` (exactly 32 bytes), because the process
  refuses to start otherwise. An iv is the subset type `Iv` (exactly 16 bytes).
- `Group.members` is an array. The code deduplicates it at creation and refuses
  a second copy with 409; the model proves it stays duplicate-free.
- The group history route answers 403 to a non-member.
- MongoDB leaves the order of records with equal `time` unspecified. The model
  keeps them in insertion order (a stable sort).

## Model

| member | source | states |
|---|---|---|
| `Codec.Encrypt` | backend/encrypt.js:13-19 | the ciphertext opens to the plaintext under the process key and its own iv, and under no other iv or key |
| `Codec.Decrypt` | backend/encrypt.js:21-30 | opening succeeds exactly when the key and iv are the ones the ciphertext was sealed with; otherwise it fails and yields no text |
| `Records.Dedup` | backend/group.js:17 | `Array.from(new Set(ids))` holds no duplicate and exactly the elements of its input |
| `Records.Without` | backend/group.js:98 | the filter removes every copy of the id, keeps every other element, keeps a duplicate-free list duplicate-free, and returns a list without the id unchanged |
| `Records.AddToSet` | backend/chat.js:38 | `$addToSet` keeps every old entry in place; it changes nothing when the id is already there and otherwise appends exactly that id, so it never duplicates |
| `Store.InitialMembers` | backend/group.js:16-24 | a new group's members are the requested ids plus the creator: the creator is a member, no id appears twice, and nothing else is added |
| `History.Select` | backend/chat.js:9-15 | the query filter keeps each record of the conversation that the requester has not cleared, with its multiplicity, and nothing else |
| `History.SortByTime` | backend/chat.js:16 | `.sort({ time: 1 })` answers a permutation of its input in non-decreasing time order |
| `History.Timeline` | backend/group.js:138-142 | the records of a history answer are exactly the visible records of the conversation, each as often as it is stored, in non-decreasing time |
| `History.OpenAll` | backend/chat.js:18-23 | each answered item carries its record's sender, receiver and time, and the text its body decrypts to; one failed decryption fails the whole answer with 500 |
| `History.HistoryAnswer` | backend/chat.js:9-23 | a history answer fails exactly when a visible record does not decrypt; otherwise its k-th item is the k-th record of the time-ordered visible records, with that record's sender, receiver and time and the text its body decrypts to |
| `History.DirectHistory` | backend/chat.js:8-26 | the direct history fails only with 500 on a decryption failure; otherwise its k-th item is the k-th uncleared direct record between the pair (both directions) in time order, with that record's sender, receiver, time and decrypted text |
| `History.GroupHistory` | backend/group.js:127-156 | a missing group answers 404 and a non-member 403; for a member, the k-th item is the k-th uncleared record of the group in time order, with its sender, receiver, time and decrypted text |
| `History.Mark` | backend/group.js:190-193 | a record outside the cleared conversation, or one the requester already cleared, is unchanged; any other record of the conversation gets exactly the requester appended to `deletedFor` and nothing else changes |
| `History.ClearIdempotent` | backend/chat.js:32-38 | clearing twice leaves the log as clearing once does |
| `History.ClearHides` | backend/chat.js:32-38 | after a user clears a conversation, the query filter shows that user none of its records |
| `History.SelectCleared` | backend/group.js:190-193 | for any other user, or for a conversation sharing no record with the cleared one, clearing commutes with the query filter |
| `History.InsertCleared` | backend/chat.js:16 | a clear keeps every time, so it commutes with inserting into a time-sorted list |
| `History.SortCleared` | backend/chat.js:16 | a clear commutes with sorting by time |
| `History.OpenAllCleared` | backend/chat.js:18-23 | decrypting a cleared list yields the same answer as decrypting the original |
| `History.ClearIsLocal` | backend/group.js:186-193 | a clear by one user leaves every other user's answer for every conversation unchanged, and that user's own answers for every conversation sharing no record with the cleared one |
| `History.DirectClearEffect` | backend/chat.js:29-38 | after `POST /chat/:user/clear` the requester's history with that user is empty; the requester's direct histories with anyone else, every group history and every other user's direct histories are unchanged |
| `History.GroupClearEffect` | backend/group.js:187-195 | after a member clears a group, that member's history of the group is empty; that member's other group histories, every direct history and every other user's group histories are unchanged |
| `History.Purge` | backend/group.js:172 | `deleteMany` removes every group record of that group and keeps every other record with its multiplicity |
| `History.PurgeKeepsOthers` | backend/group.js:171-172 | the cascade leaves the query filter of every direct conversation and every other group unchanged |
| `History.DeleteGroupEffect` | backend/group.js:171-176 | after the cascade the group's history answers 404, and every direct history and every other group's history is unchanged |
| `Store.Db.Create` | backend/server.js:109-115 | `Message.create` appends exactly one record to the log |
| `Store.Db.CreateGroup` | backend/group.js:9-31 | a missing name answers 400 and a taken id 500, changing nothing; otherwise the group is stored with its initial members, lists stay duplicate-free, and the creator's group list gains the new group |
| `Store.Db.AddMember` | backend/group.js:45-79 | the checks run in the source's order: missing userId 400, missing group 404, requester not a member 403, already a member 409, unknown user 404; success appends exactly that id; a failure changes nothing |
| `Store.Db.RemoveMember` | backend/group.js:82-106 | missing userId 400, missing group 404, requester not a member 403; otherwise every copy of the id is filtered out, and removing a non-member changes nothing |
| `Store.Db.ExitGroup` | backend/group.js:109-124 | only a missing group fails (404); otherwise the requester is filtered out with no membership check, the group stays even when empty, and the requester's group list loses it |
| `Store.Db.DeleteGroup` | backend/group.js:159-184 | missing group 404, non-member 403, both changing nothing; otherwise the group's messages and then the group are removed, and the answer counts the deleted messages |
| `Store.Db.DeleteGroupMessages` | backend/group.js:172-173 | the record-by-record `deleteMany` leaves the log `Purge` describes and counts what it removed |
| `Store.Db.ClearGroup` | backend/group.js:187-200 | the log becomes the cleared log of the group, with no existence or membership check; `modifiedCount` is the number of group records the requester could still see |
| `Store.Db.ClearDirect` | backend/chat.js:29-46 | the log becomes the cleared log of the pair, both directions; `modifiedCount` is the number of those records the requester could still see |
| `Store.Db.ClearFor` | backend/chat.js:32-41 | the record-by-record `updateMany` leaves the cleared log and counts the records whose `deletedFor` grew |
| `Routing.Register` | backend/server.js:78-85 | a bound socket joins its user's set, creating the entry if needed; other users' entries are unchanged; an unbound socket changes nothing; no empty entry appears, and a fresh socket id keeps one owner per socket |
| `Routing.Unregister` | backend/server.js:159-167 | a disconnect removes only that socket id and drops the user's key when the set empties; an unbound socket or an unknown user changes nothing; no empty entry is left |
| `Routing.ConnectThenDisconnect` | backend/server.js:159-167 | a connect followed by the disconnect of the same new socket leaves the registry exactly as it was, with no stray entry |
| `Routing.ReachMembers` | backend/server.js:94-100 | a fan-out reaches a socket exactly when its user is among the addressed users; a user with no entry contributes nothing |
| `Routing.ReachOnce` | backend/server.js:124-127 | with distinct users and one owner per socket, no socket is reached twice |
| `Routing.Route` | backend/server.js:89-106 | no bound sender or an empty message drops; a group id takes precedence over a receiver; a group send needs an existing group listing the sender; a direct send needs a receiver; anything else drops |
| `Routing.Audience` | backend/server.js:124-152 | a dropped send addresses no one and a group send addresses the group's members; a direct send addresses the sender first, then the receiver, each once, and no one else, even when they are the same user |
| `Routing.Record` | backend/server.js:108-115 | the persisted record's sender is the socket's bound id, its receiver is the group id or the receiver, `isGroup` marks the path, `deletedFor` is empty and the body decrypts to the message |
| `Routing.PayloadOf` | backend/server.js:117-122 | the emitted payload carries the bound sender, the target, the plaintext and the path flag |
| `Routing.FanoutExactlyOnce` | backend/server.js:124-152 | with duplicate-free member lists and one owner per socket, an accepted send reaches each live socket of its audience exactly once and no other socket |
| `Routing.SelfSendOnce` | backend/server.js:148-152 | a direct message to oneself reaches each of one's sockets exactly once |
| `Server.ChatServer.Connect` | backend/server.js:78-85 | the registry becomes `Register` of the old one, and no entry is ever empty |
| `Server.ChatServer.Disconnect` | backend/server.js:159-167 | the registry becomes `Unregister` of the old one, and no entry is ever empty |
| `Server.ChatServer.SendToUser` | backend/server.js:94-100 | emits one event to each registered socket of the user and none when the user has no entry; earlier events are kept |
| `Server.ChatServer.FanOutToMembers` | backend/server.js:124-127 | one `sendToUser` per listed member: the sockets reached are the fan-out of the whole list |
| `Server.ChatServer.DeliverDirect` | backend/server.js:148-152 | the direct path reaches the sender's sockets, and the receiver's only when the receiver is someone else |
| `Scenarios.DirectHi` | backend/server.js:128-152 | with u1 and u2 connected, u1's "hi" to u2 stores one direct record from u1 to u2 that decrypts to "hi", and each of the two sockets receives the payload once |
| `Scenarios.OutsiderToGroup` | backend/server.js:102-106 | a connected non-member's send to an existing group stores nothing and emits nothing |
| `Server.ChatServer.HandleSend` | backend/server.js:87-157 | a dropped intent or a failed insert appends nothing and emits nothing; otherwise exactly one record is appended before any emit, and the plaintext payload reaches exactly the audience's sockets |

## Left out

- `Server.ChatServer.SendToUser`: states which sockets receive the event, each how often, but not the emit order. The model does not track the insertion order in which a JavaScript `Set` iterates.
- JWT verification in the socket middleware (`backend/server.js:62-76`) and `backend/auth.js` are not part of this model. The identity the handshake binds is a parameter of the handlers, `""` when none.
- The CORS origin checks, Express and socket.io plumbing, and `server.listen` are transport configuration. HTTP statuses appear only as `Status` variants.
- AES-256-CBC and random ivs are foreign calls and randomness. The codec is symbolic, so the model does not capture that real CBC decryption with a wrong iv garbles the first block instead of failing.
- Async interleaving between handlers is not modelled. Each handler runs atomically.
- MongoDB failures other than a failed `Message.create` and a taken group id are not modelled. These include a malformed id (`CastError`) and a failed `save`. Each would answer 500, or for a send, deliver nothing.
- `GET /chat/:user` has no `try`/`catch`, so a decryption failure there leaves the request unanswered. The model answers `Err(ServerError)` in that case, as the group history route does.
- The list route `GET /group` is the function `Store.GroupsOf`. Its effect is stated through `Store.Db.CreateGroup` and `Store.Db.ExitGroup` rather than as a contract of its own.
- Route answers carry the changed group or an id rather than the full JSON documents. `POST /group` answers with the new group's id.
- `String(...)` coercions are not modelled, because every id is already a string.
- The React frontend, `backend/models.js` beyond the record shapes, and `convert-drawio.js` are not part of this model.
