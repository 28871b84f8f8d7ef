# QuickChat core in Dafny

QuickChat is a two-party chat application: an Express and socket.io server
backed by Mongo, and a React client. This project models the deterministic
logic underneath that plumbing and proves properties of it:

- **Origins** (`origins.dfy`): how the server builds its CORS allow-list from
  the comma-separated `CORS_ORIGIN` string (split, `trim`, strip one quote at
  each end, drop empty entries, default `http://localhost:5173`), and the
  `corsOriginCheck` decision with its error message.
- **Presence** (`presence.dfy`): `userSocketMap`, the process-wide table from
  user id to socket id. The class `Realtime` holds the table, the order
  `Object.keys` lists its keys in, the open sockets, and the log of emitted
  events. Its connection and disconnect handlers broadcast `getOnlineUsers`.
  A ghost history of lifecycle events, with the pure `Replay`, specifies the
  table after any sequence of handlers.
- **MessageModel** (`message_model.dfy`): the message record (sender,
  receiver, optional text, optional image, `seen` defaulting to false). The
  collection is the class `MessageStore`, whose methods create messages and
  flip `seen` flags in place. Pure functions specify the queries: the thread
  between two users, unseen counts, the unseen table, and the two updates.
- **MessageControllers** (`message_controllers.dfy`): the four message
  handlers. `getUsersForSideBar` runs the unseen-count aggregation and the
  `forEach` that fills `unseenMap`. `getMessages` reads the thread, then
  marks messages seen in bulk. `markMessageAsSeen` sets one flag.
  `sendMessage` validates, stores, and pushes to an online receiver.
- **UserModel** and **Accounts** (`user_model.dfy`, `accounts.dfy`): the user
  record and its password-free view, and the user collection. The
  `signup`/`login` guards are modelled in the order they run. `updateProfile`
  is modelled with its field merge and the `isBase64` test that separates an
  upload from a plain URL.
- **ChatClient** (`chat_client.dfy`): the client's chat context as the class
  `ChatState`. It covers the `newMessage` handler (append as seen and request
  a mark when the sender is on screen, otherwise bump that sender's unseen
  count), subscription with and without a socket, and the state updates of
  `sendMessage`, `getUsers` and `getMessages`. Lemmas connect the client's
  counter to the server's unseen table.

Behaviour kept exactly as the code has it:
- The server's disconnect handler deletes the entry of the id it captured at
  connect time, whatever socket that entry now names. A stale socket's
  disconnect therefore removes a newer socket's entry
  (`Presence.StaleDisconnectRemoves`).
- A connection without a `userId` disconnects with `delete userSocketMap[undefined]`.
  That deletes the key `"undefined"`.
- A connection with `userId` `"__proto__"` does not get an entry: the
  assignment reaches the inherited `Object.prototype` accessor, which ignores
  a string, so the table and its keys stay as they were
  (`Presence.ProtoNeverStored`).
- The roster broadcast goes to every open socket, including sockets that
  never registered an id.
- `markMessageAsSeen` of an unknown id answers `null` with status 200. It is
  not an error.
- In `updateProfile`, an empty `fullName` passes the handler's own guard but
  is refused by the schema's `required` check when the document is saved. The
  save then throws after any old picture has already been deleted.

## Model

| member | source | states |
|---|---|---|
| Origins.Split | server/src/server.js:15 | `split(',')` yields at least one piece and no piece contains the separator |
| Origins.JoinSplit | server/src/server.js:15 | splitting loses nothing: joining the pieces with the separator gives back the configured string |
| Origins.SplitJoin | server/src/server.js:15 | separator-free pieces joined with ',' split back into the same pieces |
| Origins.TrimSlice | server/src/server.js:16 | `trim()` returns a slice of the entry with only white space cut from either end, and the result neither starts nor ends with white space |
| Origins.StripQuotesSlice | server/src/server.js:16 | the quote regex removes a quote at the start exactly when there is one, and a quote at the end exactly when one remains there; nothing else is removed, and a quote-free entry is unchanged |
| Origins.CleanQuoted | server/src/server.js:16 | an entry written as white space, a quote, the origin, a quote and white space cleans to the origin |
| Origins.CleanAll | server/src/server.js:16 | the `map` keeps the number of entries and cleans each entry in place |
| Origins.NonEmptyMembers | server/src/server.js:17 | `filter(Boolean)` keeps exactly the non-empty entries |
| Origins.ParseOriginsMembers | server/src/server.js:14-17 | an origin is on the list iff it is non-empty and some comma-separated piece cleans to it |
| Origins.ParseJoinedOrigins | server/src/server.js:14-17 | a list of clean origins written comma-separated parses back to the same list in the same order |
| Origins.QuotedOriginParses | server/src/server.js:14-17 | a configured origin wrapped in quotes (and white space) gives an allow-list holding exactly the origin without its quotes |
| Origins.DefaultConfiguration | server/src/server.js:13-17 | an unset or empty `CORS_ORIGIN` gives exactly `["http://localhost:5173"]` |
| Origins.CorsOriginCheck | server/src/server.js:28-31 | a refusal only happens for a present origin and carries the message "CORS error: Origin <origin> not allowed by CORS" |
| Origins.CorsDecision | server/src/server.js:19-33 | a missing origin is always allowed; with '*' on the list everything is allowed; otherwise a request is allowed iff its origin is empty or equals an entry exactly |
| Origins.ConfiguredOriginAllowed | server/src/server.js:13-33 | end to end: a non-empty origin is allowed iff some piece of the configured string cleans to it or to '*' |
| Presence.StepFrame | server/src/server.js:50-60 | a connect with a truthy id other than "__proto__" sets that id's entry to the new socket; any other connect changes nothing; a disconnect deletes its captured id's key; no other entry changes |
| Presence.ReplayLookup | server/src/server.js:50-60 | after any sequence of connects and disconnects, a user has an entry iff its last storing connect (truthy id, not "__proto__") was not followed by an event for that id, and the entry is that connect's socket |
| Presence.ProtoNeverStored | server/src/server.js:52-54 | no history of handlers gives the table a "__proto__" entry |
| Presence.StaleDisconnectRemoves | server/src/server.js:53-60 | connect, reconnect on a newer socket, then the old socket's disconnect leaves the user with no entry |
| Presence.Without | server/src/server.js:60 | deleting a key that is absent leaves the key order as it is |
| Presence.WithoutKeeps | server/src/server.js:60 | deleting a key removes it from the key order, keeps every other key, and keeps the order duplicate-free |
| Presence.WithoutSplice | server/src/server.js:60-61 | after `delete`, `Object.keys` lists the keys before the deleted one and then the keys after it, each in their old order |
| Presence.Realtime.OnConnection | server/src/server.js:49-56 | the connection handler updates the table as `Step` does, appends a new storable id (truthy, not "__proto__") to the key order, records the open socket, and broadcasts the key list to every open socket; the table stays the replay of the history, and every entry names an open socket opened by that user |
| Presence.Realtime.OnDisconnect | server/src/server.js:58-62 | the disconnect handler deletes the captured id's key whichever socket the entry names, removes it from the key order, closes the socket, and broadcasts the remaining keys to the sockets still open |
| Presence.Realtime.SocketOf | server/src/controllers/message.controllers.js:106 | `userSocketMap[receiverId]` is a socket exactly when the id has an entry, and it is that entry |
| Presence.Realtime.EmitNewMessage | server/src/controllers/message.controllers.js:108 | one `newMessage` event to the given socket is appended to the log |
| Presence.LookupIsLastConnect | server/src/server.js:46-62 | in any reachable server state, a user's socket is the one from its last undisconnected storing connect, and that socket is still open; "__proto__" is never among the broadcast keys |
| MessageModel.ThreadMembers | server/src/controllers/message.controllers.js:53-58 | the thread holds exactly the stored messages between the two users, in either direction |
| MessageModel.ThreadOrdered | server/src/controllers/message.controllers.js:53-58 | the thread keeps the collection's order |
| MessageModel.ThreadSymmetric | server/src/controllers/message.controllers.js:54-57 | the `$or` query names the same thread whichever user asks |
| MessageModel.MarkSeenFromEffect | server/src/controllers/message.controllers.js:60 | the bulk update sets `seen` on exactly the messages from the selected user to the requester, and changes no other field and no other message |
| MessageModel.MarkSeenFromClears | server/src/controllers/message.controllers.js:60 | after the bulk update nothing from that sender to that receiver is unseen, and every other pair's unseen count is unchanged |
| MessageModel.MarkSeenFromIdempotent | server/src/controllers/message.controllers.js:60 | running the bulk update twice is the same as running it once |
| MessageModel.MarkOneSeenEffect | server/src/controllers/message.controllers.js:73-77 | marking one id sets `seen` on the message with that id and on no other; an unknown id changes nothing; marking again changes nothing more |
| MessageModel.UpdatesKeepIds | server/src/controllers/message.controllers.js:60 | neither update changes a message id, so the collection stays in creation order |
| MessageModel.UnseenMapSpec | server/src/controllers/message.controllers.js:18-37 | the unseen table has a key exactly for each sender with at least one unseen message to the receiver, and its value is that count |
| MessageModel.MessageStore.Create | server/src/controllers/message.controllers.js:98-103 | creating a message appends exactly one message under a fresh id, with the given fields and `seen` false |
| MessageModel.MessageStore.UpdateManySeen | server/src/controllers/message.controllers.js:60 | the in-place loop leaves the collection equal to `MarkSeenFrom` of the old collection |
| MessageModel.MessageStore.FindByIdAndMarkSeen | server/src/controllers/message.controllers.js:73-77 | the collection becomes `MarkOneSeen` of the old one; the answer is None iff no message has the id, and otherwise the updated message with `seen` set |
| MessageControllers.TallyRows | server/src/controllers/message.controllers.js:25-30 | adding one message to the `$group` rows keeps one row per sender with positive counts; the sender has a row afterwards and no other sender gains one |
| MessageControllers.TallyCounts | server/src/controllers/message.controllers.js:25-30 | adding one message raises its sender's count and the total by one and leaves every other count alone |
| MessageControllers.AggregateUnseenSpec | server/src/controllers/message.controllers.js:18-31 | the aggregation yields one row per sender with unseen messages to the receiver, holding that sender's count, and the counts add up to the receiver's unseen total |
| MessageControllers.BuildUnseenMap | server/src/controllers/message.controllers.js:34-37 | the `forEach` loop builds exactly `RowsTable` of the rows: each row in turn writes its count under its sender, so a later row for the same sender wins |
| MessageControllers.RowsTableSpec | server/src/controllers/message.controllers.js:34-37 | for rows with distinct senders, the filled table has a key exactly for each row's sender, holding that row's count |
| MessageControllers.RowsTableSum | server/src/controllers/message.controllers.js:34-37 | for rows with distinct senders, the filled table's values add up to the rows' total |
| MessageControllers.OtherUsersMembers | server/src/controllers/message.controllers.js:16 | the roster holds every user but the requester, without passwords, and nothing else |
| MessageControllers.GetUsersForSideBar | server/src/controllers/message.controllers.js:11-43 | a missing requester id is a 400; otherwise the answer is the other users and a table with one key per sender with unseen messages to the requester, valued at that count, all values adding up to the requester's unseen total |
| MessageControllers.SidebarTableIsUnseenMap | server/src/controllers/message.controllers.js:18-37 | the sidebar's table is exactly the receiver's unseen table |
| MessageControllers.GetMessages | server/src/controllers/message.controllers.js:47-65 | a missing id throws and changes nothing; otherwise the answer is the thread as read before the update, and the store afterwards has the selected user's messages to the requester marked seen |
| MessageControllers.ThreadShowsPreUpdateFlags | server/src/controllers/message.controllers.js:53-60 | the returned thread still shows every unseen message from the selected user, though the store has none left afterwards |
| MessageControllers.MarkMessageAsSeen | server/src/controllers/message.controllers.js:68-81 | a missing id is a 400; otherwise status 200 with the stored message of that id, now seen and otherwise unchanged, or null iff no message has that id |
| MessageControllers.SendCheckOrder | server/src/controllers/message.controllers.js:88-92 | a send passes iff the sender is known, the receiver is given and there is text or an image; every refusal is a 400, and the sender check comes before the receiver check |
| MessageControllers.SendMessage | server/src/controllers/message.controllers.js:84-114 | a refused send or failed upload stores nothing and emits nothing; otherwise exactly one unseen message holding the uploaded image's URL is appended, answered with 201, and one `newMessage` event goes to the receiver's socket iff the receiver has a truthy entry |
| MessageControllers.SentMessageHasContent | server/src/controllers/message.controllers.js:90-103 | a stored message has non-empty text or an image URL whenever the upload returns a URL |
| UserModel.Public | server/src/controllers/user.controllers.js:34-35 | the returned user carries every stored field except the password |
| UserModel.FindByEmail | server/src/controllers/user.controllers.js:25 | `findOne({email})` finds nothing iff no user has that email, and otherwise finds a user with that email |
| UserModel.IndexOfId | server/src/controllers/user.controllers.js:90 | `findById` finds nothing iff no user has that id, and otherwise finds the first user with it |
| UserModel.UserStore.Create | server/src/controllers/user.controllers.js:29-31 | creating a user with an unused email and id appends it and keeps emails and ids unique |
| UserModel.UserStore.Save | server/src/controllers/user.controllers.js:130 | saving a loaded user replaces that one document and keeps emails and ids unique |
| Accounts.SignupGuards | server/src/controllers/user.controllers.js:21-28 | signup passes iff all four fields are non-empty and no user has the email; a missing field is a 400 checked before the email lookup, and a taken email is a 409 |
| Accounts.Signup | server/src/controllers/user.controllers.js:18-40 | a refused signup changes nothing; otherwise exactly one user is created with the hashed password and an empty picture, and answered with 201 without its password |
| Accounts.LoginOutcome | server/src/controllers/user.controllers.js:43-66 | a missing email is reported before a missing password; every refusal is a 400; login succeeds iff both fields are present, a user has the email and the password matches its hash, and then answers that user without its password |
| Accounts.LoginFindsTheUser | server/src/controllers/user.controllers.js:52-59 | with unique emails, login answers for the one user with that email, or "Incorrect Password" |
| Accounts.CommaFreeIsBase64 | server/src/controllers/user.controllers.js:100-102 | a picture with no comma, such as a plain image URL, counts as an upload iff it starts with "data:" |
| Accounts.MergedFields | server/src/controllers/user.controllers.js:95-128 | the merge keeps id, email and password; bio and fullName are overwritten whenever sent, even as ""; an uploaded picture takes the upload's URL and public id; a URL replaces only the picture; no picture changes neither |
| Accounts.UpdateProfile | server/src/controllers/user.controllers.js:83-139 | no truthy field is a 400 and an unknown user a 404; a failed upload throws; the old public id is handed to cleanup only when an upload replaces it; an empty resulting fullName throws at save; otherwise the user becomes the merged document, answered with 200 without its password |
| ChatClient.AppendMessage | client/src/context/ChatContext.jsx:50 | the new message goes after all existing messages, which keep their order |
| ChatClient.BumpUnseenEffect | client/src/context/ChatContext.jsx:66-71 | the sender's count becomes its previous value plus one, or 1 when absent; no other sender's count changes and no other key appears |
| ChatClient.BumpMirrorsServer | client/src/context/ChatContext.jsx:65-71 | bumping the server's unseen table for a pushed unseen message gives the server's table with that message stored |
| ChatClient.MarkKeepsServerTable | client/src/context/ChatContext.jsx:61-64 | the mark request for a message shown on arrival leaves the server's unseen table as it was before the message was stored |
| ChatClient.ChatState.SubscribeToMessages | client/src/context/ChatContext.jsx:58-74 | without a socket nothing is registered; otherwise a handler closing over the current selection is registered |
| ChatClient.ChatState.UnsubscribeFromMessages | client/src/context/ChatContext.jsx:77-79 | with a socket the handler is removed; without one nothing changes |
| ChatClient.ChatState.SetSocket | client/src/context/ChatContext.jsx:76-84 | a socket arriving or going away re-runs the effect: the old handler is removed, and a handler closing over the current selection is registered exactly when a socket is present |
| ChatClient.ChatState.SelectUser | client/src/context/ChatContext.jsx:81-84 | selecting a user re-runs the effect, so a registered handler always sees the current selection |
| ChatClient.ChatState.OnNewMessage | client/src/context/ChatContext.jsx:60-73 | a message from the selected user is appended marked seen and its id is sent to be marked; any other message, also with nobody selected, leaves the list alone and bumps its sender's count |
| ChatClient.ChatState.Deliver | client/src/context/ChatContext.jsx:60-73 | a pushed message changes nothing without a registered handler, and otherwise has the handler's effect for the current selection |
| ChatClient.ChatState.GetUsers | client/src/context/ChatContext.jsx:15-26 | a reply replaces the roster and the unseen table wholesale; a failed request changes neither |
| ChatClient.ChatState.GetMessages | client/src/context/ChatContext.jsx:29-39 | a reply replaces the message list wholesale; a failed request changes nothing |
| ChatClient.ChatState.SendMessage | client/src/context/ChatContext.jsx:42-55 | with a user selected and a reply, the server's message is appended after all existing ones; with nobody selected, or a failed request, nothing changes |
| ChatClient.NoSocketIgnoresPushes | client/src/context/ChatContext.jsx:58-59 | a client without a socket registers no handler, and any number of pushed messages leave its list, counts and mark requests empty |

## Left out

- Mongo and Mongoose: queries, the aggregation engine, timestamps and ObjectId generation. The collections are sequences. Message ids come from a counter and user ids are supplied by the caller, so ordering by id stands in for insertion order.
- `profilePicPublicId` is modelled as a stored field of the user. It is not declared in the user schema (server/src/models/user.models.js:5-16), and whether Mongoose keeps it depends on settings outside these files.
- Object.keys lists integer-like keys in numeric order before the others. The model keeps insertion order for every key, which matches Mongo ObjectId strings.
- The handshake `userId` is a string or absent. A repeated query parameter (`?userId=a&userId=b`) arrives as an array, whose property key is its elements joined with ','; the model takes that joined string as the id, and does not model the array value itself.
- Request bodies are strings or absent. Other JSON values (numbers, objects) and the email schema's `trim` are not modelled.
- bcrypt hashing and comparison are parameters of `Signup` and `Login`. JWT, cookies, `isAuth`, `logout` and the authentication middleware are not part of this model. The requester id is a parameter, and the empty string stands for a missing id.
- Image uploads are a parameter that returns a URL and a public id, or fails. Deleting the old image only records its public id as `cleanup`, because the handler swallows the outcome of that call.
- `Thrown` stands for any exception the async wrapper turns into an error reply. That wrapper is not part of this model, so its status code is not modelled. The 400 branch of `getMessages` refers to an unbound name and throws a ReferenceError; it is modelled as `Thrown`.
- Socket.io transport: emitted events are appended to a log, and delivery, ordering and liveness are not modelled. The client's socket is a flag: only its presence matters, and `ChatState.SetSocket` models it changing.
- Concurrency: handlers run one at a time. Races such as two signups with the same email passing the lookup together, or a reply arriving after the selection changed, are not modelled.
- The client's toasts, axios configuration and error logging are not modelled; a failed request appears as an absent reply.
- The client's mark requests are logged and not sent. Their effect on the server is `MarkMessageAsSeen`, and `ChatClient.MarkKeepsServerTable` connects the two.
