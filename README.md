# webChat support chat — a Dafny model

webChat is a customer-support chat. Customers and one admin connect to a
socket.io server. The server keeps the connected sockets in an in-memory
registry and relays messages between customers and the admin. A React
dashboard merges the user list fetched from the API with its local chat state,
filters it by a search query, appends the agent's outgoing messages and labels
each user's "last seen" time. A Mongoose schema describes a stored message and
derives a conversation key from its two participants.

This project models three parts of that system:

- `server.dfy` (module `Server`): the server state as a class `ChatServer`.
  - Its fields are `activeUsers` (the `Map` from socket id to entry, kept in
    insertion order), `adminSocket` (the single admin slot) and `outbox`.
    `outbox` is the log of every `io.to(id).emit(...)`.
  - Each socket handler is one method. The `forEach` loops over the map are
    `while` loops, proved against the pure fan-out functions of `presence.dfy`.
  - `Serve` runs any trace of socket events. It keeps the admin-slot invariant
    as long as no socket announces itself both as a customer and as the admin.
- `presence.dfy` (module `Presence`): the registry entries, the payloads and
  events, and which sockets each fan-out reaches.
- `ordered_map.dfy` (module `OrderedMap`): a JavaScript `Map` as a key/value
  sequence in insertion order, with `get`, `set` and `delete`.
- `chat_application.dfy` (module `ChatApplication`): the dashboard's pure
  logic. It covers `mergeUsers`, `getInitials`, `filteredUsers`,
  `handleSendMessage` (a function from the old component state to the new one)
  and the `formatLastSeen` buckets.
- `message.dfy` (module `MessageModel`): the `conversationKey` virtual, and the
  schema's required, enum, trim and default rules written as a validator.
- `js_string.dfy`, `sequences.dfy` and `wrappers.dfy`: the JavaScript string
  operations the code relies on, order-preserving filtering, and `Option`.
  The string operations are `trim`, `toLowerCase`/`toUpperCase`, `includes`,
  `split(' ')`/`join`, and number-to-text.

Modelling choices:

- A socket id is a non-empty string. `if (adminSocket)` is therefore exactly
  "the slot is set".
- `value || fallback` on a string field is `Presence.Or`. An absent field and
  `""` both take the fallback.
- In `user_connect`, the awaited database step comes before the registry is
  touched. It is the boolean input `persisted`. When it fails, the handler's
  `catch` leaves everything unchanged. That includes the throw of
  `email.toLowerCase()` on a missing e-mail.
- A message payload that is absent makes the handler throw before it emits
  anything. It is `None`, and the handler then changes nothing.
- The clock is an input. `handleSendMessage` takes the new message id and the
  formatted time as parameters. `formatLastSeen` takes the elapsed
  milliseconds.

## Model

| member | source | states |
|---|---|---|
| Server.ChatServer.constructor | backend/server.js:29-31 | the server starts with an empty registry, no admin and nothing emitted |
| Server.ChatServer.NotifyUsers | backend/server.js:98-102 | the `forEach` emits the event to every entry that is not admin-flagged, in map order, and to no other socket |
| Server.ChatServer.CollectUsers | backend/server.js:127-136 | the `users` list built by the loop is the summary of every non-admin entry, in map order |
| Server.ChatServer.UserConnect | backend/server.js:42-110 | if persistence failed, nothing changes. Otherwise: the caller's non-admin entry is set with the `userId`/`User-xxxxx` defaults, and every other key reads as before. `user_connected` goes to the admin only when the slot is set. `connected` always goes to the caller. `admin_status{online:true}` goes to every customer, caller included. The slot invariant survives unless the slot holder itself announces as a customer, which breaks it |
| Server.ChatServer.AdminConnect | backend/server.js:113-158 | the slot becomes the caller unconditionally, and the caller's entry is set (or overwritten) as admin-flagged. Any earlier admin entry stays. The snapshot and `totalUsers` are the non-admin entries and their count. Every customer gets `admin_status{online:true}`. Afterwards the slot names an admin-flagged entry |
| Server.ChatServer.UserMessage | backend/server.js:161-190 | an unregistered or admin-flagged sender, or a missing payload, emits nothing. Otherwise `new_message` goes to the slot only if it is set, then `message_sent` always goes to the sender |
| Server.ChatServer.AdminMessage | backend/server.js:193-227 | a sender without an admin-flagged entry is ignored. An unregistered target gives only `error{"User not found"}` to the sender. Otherwise exactly one `admin_reply` goes to the target, then one `message_delivered` with the target's name goes to the sender |
| Server.ChatServer.AdminBroadcast | backend/server.js:230-259 | from an admin-flagged sender, `admin_reply` of type `broadcast` goes to every non-admin entry in map order. Then `broadcast_sent` reports `activeUsers.size - 1` |
| Server.ChatServer.Disconnect | backend/server.js:262-295 | an unregistered socket changes nothing and emits nothing. Otherwise exactly that entry is deleted and its key is no longer in the map. An admin-flagged departure clears the slot and sends `admin_status{online:false}` to each remaining customer. A customer departure sends `user_disconnected` to the slot if it is set. The slot invariant is preserved |
| Server.ChatServer.Handle | backend/server.js:39-296 | each socket event runs its handler. For each event it gives the new registry (`set` for the two connects when they succeed, `delete` for `disconnect`, unchanged for the three message events) and exactly what is emitted. Only `admin_connect` (to the caller) and `disconnect` of an admin-flagged entry (to empty) move the slot, and the slot invariant survives every event except a slot holder's own `user_connect` |
| Server.ChatServer.Serve | backend/server.js:116-124 | over any sequence of events in which no socket sends both `user_connect` and `admin_connect`, a set `adminSocket` always names an admin-flagged entry of the map |
| Presence.NonAdminSocketsMembers | backend/server.js:98-102 | a socket receives the fan-out exactly when it has an entry that is not admin-flagged |
| Presence.NonAdminSocketsKeys | backend/server.js:243-247 | the fan-out visits its targets in the map's insertion order |
| Presence.BroadcastCountExact | backend/server.js:243-251 | the reported `size - 1` equals the number of `admin_reply` deliveries exactly when one entry is admin-flagged |
| Presence.CountSplit | backend/server.js:243-250 | every entry is either a fan-out target or admin-flagged |
| Presence.SnapshotMatches | backend/server.js:127-143 | the admin's snapshot lists the same sockets as the fan-out, in the same order, each with its entry's name |
| Presence.DeleteAdminKeepsTargets | backend/server.js:272-291 | notifying customers before the admin entry is deleted reaches the same sockets as notifying them after |
| Presence.UserEntry | backend/server.js:70-77 | the customer entry: a missing or empty `userId` gives the socket id, a missing or empty `name` gives `User-` plus the id's first five characters. E-mail and contact are as sent, the socket id is the caller's, and the entry is not admin-flagged |
| Presence.AdminEntry | backend/server.js:119-124 | the admin entry: user id `admin`, the sent name or `Admin` when it is missing or empty, the caller's socket id, admin-flagged, no e-mail or contact |
| Presence.DefaultName | backend/server.js:72 | the default name is `User-` followed by the first five characters of the socket id, or all of them if it is shorter |
| OrderedMap.Get | backend/server.js:163 | `get` finds the key's value exactly when the key is present |
| OrderedMap.SetKeys | backend/server.js:70 | `set` on a present key keeps the key order, and on a new key appends it |
| OrderedMap.SetGet | backend/server.js:119-124 | after `set`, `get` of that key gives the new value and every other key reads as before |
| OrderedMap.SetDistinct | backend/server.js:30 | `set` never makes a key appear twice |
| OrderedMap.Delete | backend/server.js:291 | `delete` removes the key, leaves every other key's value, keeps the order of the rest, and shrinks the map by one when the key was present |
| ChatApplication.MergeUsersOrder | frontend/chatbox/app/_component/ChatApplication.tsx:99-135 | `MergeUsers` gives the API users in API order, followed by exactly the previous users whose ids the API did not return. They keep their previous order, each as many times as it was there |
| ChatApplication.MergeKeepsIds | frontend/chatbox/app/_component/ChatApplication.tsx:129-133 | every id held before a merge is still held after it |
| ChatApplication.MergeChatFields | frontend/chatbox/app/_component/ChatApplication.tsx:105-125 | for each element of `apiUsers.map` (`MergeOne`): a known user takes the API fields but keeps its unread count and last message, and keeps its avatar unless that was empty (then the initials). A new user starts at 0, `""` and its initials |
| ChatApplication.Existing | frontend/chatbox/app/_component/ChatApplication.tsx:102-106 | the lookup map built from the previous list finds a user with that id exactly when one exists. For a repeated id it is the last such user, since a later pair overwrites an earlier one in `new Map(...)` |
| ChatApplication.HeadsOfSplit | frontend/chatbox/app/_component/ChatApplication.tsx:139-142 | the first characters of the words from `split(' ')`, joined, are the characters that start a word, and empty words contribute nothing |
| ChatApplication.WordStartsAreStarts | frontend/chatbox/app/_component/ChatApplication.tsx:139-142 | every collected character sits at a position that starts a word |
| ChatApplication.InitialsAreWordStarts | frontend/chatbox/app/_component/ChatApplication.tsx:138-145 | `GetInitials` has at most two characters. They are the first word starts, upper-cased |
| ChatApplication.FilteredUsersSpec | frontend/chatbox/app/_component/ChatApplication.tsx:205-208 | `FilteredUsers` is an order-preserving subsequence of the users. It keeps a user exactly when the lower-cased query occurs in the lower-cased name or e-mail, as many times as that user occurs in the list |
| ChatApplication.EmptyQueryKeepsAll | frontend/chatbox/app/_component/ChatApplication.tsx:205-208 | an empty search keeps every user |
| ChatApplication.HandleSendMessage | frontend/chatbox/app/_component/ChatApplication.tsx:179-196 | an all-white-space input, or no selected user, leaves the state unchanged. Otherwise exactly one agent message with status `sent` is appended to the selected user's list (created if absent). Every other list and the selection stay the same, and the input is cleared |
| ChatApplication.FormatLastSeen | frontend/chatbox/app/_component/ChatApplication.tsx:210-221 | under one minute is "just now". Whole minutes 1-59 are "minutes ago", whole hours 1-23 are "hours ago", and a day or more is the date, each bucket with its exact range of elapsed milliseconds |
| ChatApplication.MinutesLabelReadsBack | frontend/chatbox/app/_component/ChatApplication.tsx:214-218 | the `Nm ago` label of `LastSeenText` is digits followed by `m ago`, and the digits read back as the whole minutes elapsed |
| ChatApplication.HoursLabelReadsBack | frontend/chatbox/app/_component/ChatApplication.tsx:214-219 | the `Nh ago` label of `LastSeenText` is digits followed by `h ago`, and the digits read back as the whole hours elapsed |
| MessageModel.ConversationKeySymmetric | backend/models/Message.js:75-78 | swapping sender and receiver gives the same `ConversationKey` |
| MessageModel.ConversationKeySorted | backend/models/Message.js:76-77 | `ConversationKey` is the smaller id in JavaScript string order, `_`, then the larger id |
| MessageModel.LexTotal | backend/models/Message.js:76 | the default `sort` order puts any two different ids one way round, never both |
| MessageModel.ConversationKeyInjective | backend/models/Message.js:75-78 | for ids without `_`, two pairs with the same key are the same pair |
| MessageModel.ConversationKeyAmbiguous | backend/models/Message.js:77 | an id containing `_` lets two different pairs share a key |
| MessageModel.Cast | backend/models/Message.js:33-63 | `messageType` defaults to `text`, and `isRead` and `isBroadcast` default to false |
| MessageModel.ValidMessageIff | backend/models/Message.js:4-37 | a message is valid exactly when `conversationId`, `sender`, `senderId` and `receiverId` are non-empty, the sender is `user` or `admin`, the content has a character other than white space (it is trimmed before the required check), and the type is absent or one of `text`, `file`, `image`, `broadcast` |
| MessageModel.ValidEnums | backend/models/Message.js:9-13 | a valid message's sender and type hold allowed values |
| JsString.TrimEmptyIff | frontend/chatbox/app/_component/ChatApplication.tsx:180 | `trim()` is empty exactly when every character is white space |
| JsString.TrimIsInfix | backend/models/Message.js:28-32 | the stored `content` is the given text with only leading and trailing white space removed: `trim()` is a contiguous slice with white space on both sides of it |
| JsString.JoinSplit | frontend/chatbox/app/_component/ChatApplication.tsx:140 | joining the pieces of `split(' ')` with spaces gives the string back |
| JsString.IncludesIff | frontend/chatbox/app/_component/ChatApplication.tsx:206-207 | `includes` holds exactly when the query occurs at some position |
| JsString.ParseNatToString | frontend/chatbox/app/_component/ChatApplication.tsx:218-219 | the decimal text of a count reads back as that count |

## Left out

- MongoDB persistence in `user_connect` (backend/server.js:48-67) is the input `persisted`. The lookup by e-mail and the saved `User` document are not modelled.
- socket.io and Express are not modelled: the transport, `socket.join` rooms, CORS, `server.listen` and the `/health` route. Emitting is appending to `outbox`.
- Timestamps in emitted events, `Date.now()` ids, `toLocaleTimeString` and `toLocaleDateString` are left out or taken as inputs. Each handler is one atomic step, so the interleaving of the `await`s in `user_connect` is not modelled.
- `console.log` calls are left out.
- Payloads that are present but not objects are not modelled.
- `user_message` and `admin_broadcast` with an object that lacks `message` are not modelled. The source still sends `new_message`/`message_sent` (backend/server.js:176,180) or `admin_reply`/`broadcast_sent` (backend/server.js:245,249), each with `message: undefined`. The model has only a message text or no payload at all, and a missing payload emits nothing.
- `admin_message` with an object that has a registered `userId` but no `message` is not modelled. The source still sends `admin_reply` and `message_delivered` with `message: undefined` (backend/server.js:198,214,217). `DirectMessage` always carries a message text.
- A `user_connect` with no payload at all throws before any change. It behaves like a failed persistence step and is not a separate case.
- React rendering, `scrollToBottom`, `fetchUsersFromAPI` and the sample data are not part of this model, and neither are invalid date strings (`NaN` elapsed time).
- The API user objects of `mergeUsers` are typed as `Profile` records. Extra fields that the spread would copy are not modelled.
- JsString.LowerChar and JsString.UpperChar map only ASCII letters. JavaScript's full Unicode case mapping is not modelled.
- MessageModel.LexLess compares Unicode scalar values. JavaScript compares UTF-16 code units, and the two differ only for characters outside the Basic Multilingual Plane.
- ChatApplication.GetInitials and ChatApplication.Heads take whole characters. JavaScript's `word[0]` and `.slice(0, 2)` take UTF-16 code units. For a word starting outside the Basic Multilingual Plane, such as `"😀 Ann"`, the source gives a lone high surrogate and `A`, while the model gives `😀A`.
- MessageModel.ValidMessageIff covers only the fields that carry constraints. The unconstrained fields are not modelled: socket ids, `timestamp`, `readAt`, `userInfo`, `adminInfo` and `broadcastTo`. Mongoose's casting of non-string values is not modelled either.
- backend/routes/auth.js, backend/models/User.js and backend/models/conversation.js are not part of this model.
- Disconnecting any admin-flagged entry clears `adminSocket`, as the code does, even when a later `admin_connect` moved the slot to another socket. The model keeps this behaviour. `Server.Serve` proves that the slot never names a missing or customer entry; an empty slot while an admin is still connected is allowed.
