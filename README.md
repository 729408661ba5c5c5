# Messaging and relationship state of a dating backend, in Dafny

This project models the stateful core of a dating and social-matching backend
written for Node.js, Express, Mongoose and socket.io. It covers the parts of
that backend that keep or decide state:

- **Realtime gateway** (`Socket.Gateway`). It keeps these fields:
  - the presence registry, an insertion-ordered map from user id to socket id;
  - the per-socket room memberships;
  - the shared conversation store;
  - a log of every emitted event, tagged with its target.

  Its handlers are `userOnline`, `joinChatRoom`, `joinReceiverRoom`,
  `sendMessage`, `leaveRoom` and `disconnect`.
- **Conversation store** (`Conversations.ConversationStore`). Each conversation
  has a participant list and an ordered list of messages. Each message carries a
  read flag.
- **Conversation read API** (`ChatRoutes`). Fetching a conversation creates an
  unsaved empty one when none exists, and otherwise marks every message read.
  A second route marks one message read.
- **Connection requests** (`ConnectionModel`, `ConnectionRoutes`):
  - the Connection document, with its status enum, required ids, timestamps and
    pre-save guard against self-connections;
  - the send and review routes, which change the record store
    (`ConnectionRoutes.ConnectionStore`);
  - the pending-requests list;
  - the chat-list summary: last message, unread count, and a most-recent-first
    sort.
- **Discovery feed** (`Feed`): every user except the viewer and anyone the viewer
  has a connection record with.
- **Validators and the user schema** (`Validation`, `UserModel`): the else-if
  chains that check sign-up and profile-update bodies, and the constraints,
  setters and unique email index of the User schema.
- **Authentication middleware** (`UserAuth`): bearer-token extraction and the
  accept/reject decision.

Some of the source's I/O is replaced by parameters:
- `mongoose.isValidObjectId` and `validator.isEmail` are `string -> bool`.
- `jwt.verify` is a function from the token to an optional payload id.
- The current time is an integer `now`, and today's date is a
  `(year, month, day)` triple.
- The ids the database assigns on save (a new conversation's id, a new message's
  id) are passed in.

Mongo queries become computations over sequences:
- `findOne` is the first match in insertion order.
- `$or` over both directions is `Between`.
- `$all` is membership of both ids.
- `$nin` is exclusion by a set.

Three invariants tie the pieces together:
- Every stored connection record passed the save guard, and no two records link
  the same pair (`ConnectionRoutes.RecordsValid`). So no accepted self-connection
  exists, and `sendMessage` to oneself always fails authorisation.
- In a sequential setting, each unordered pair has at most one conversation
  (`Conversations.StoreValid`).
- A stored message only ever gains its read flag (`Conversations.StoreExtends`).

Three behaviours worth knowing, modelled as written:
- Fetching a conversation marks every message read, including the viewer's own
  (src/routes/chat.js:38-46, `ChatRoutes.FetchMarksEveryMessageRead`). The chat
  list's unread count, by contrast, counts only messages from the other user
  (src/routes/connection.js:38-40, `ConnectionRoutes.UnreadCountIsSize`).
- `sendMessage` stores whatever text it receives, the empty string included
  (src/utils/socket.js:77-106, `Socket.AppendAddsOneMessage`).
- The sign-up validator declares `age` as a constant
  (src/utils/validation.js:27) and decrements it when the birthday is still to
  come (src/utils/validation.js:31). That branch therefore throws, where the
  profile-update validator passes (`Validation.PendingBirthdayDiverges`).

## Model

| member | source | states |
|---|---|---|
| Strings.LessTotal | src/utils/socket.js:52 | the default sort order used for room names is total: distinct strings are ordered one way or the other |
| Strings.LessAsymmetric | src/utils/socket.js:52 | the sort order is asymmetric, so sorting a pair gives one result |
| Strings.ToLower | src/utils/validation.js:36 | lowercasing keeps the length, turns each ASCII upper-case letter into its lower-case letter (32 code points on), and keeps every other character |
| Strings.Trim | src/models/user.js:10 | trimming yields an infix of the input whose first and last characters are not white space, and every character removed before or after it is white space |
| Strings.TrimIdempotent | src/models/user.js:10 | trimming a trimmed string changes nothing |
| Strings.Split | src/middlewares/userAuth.js:13 | splitting yields at least one field, and no field contains the separator |
| Strings.JoinSplit | src/middlewares/userAuth.js:13 | joining the fields of a split with the separator gives back the original string |
| ConnectionModel.ParseStatus | src/models/connection.js:15-22 | a string is accepted by the status enum exactly when it is "interested", "accepted" or "rejected", and the parsed status names that string |
| ConnectionModel.StatusRoundTrip | src/models/connection.js:18-21 | every status survives naming and parsing |
| ConnectionModel.InvalidPaths | src/models/connection.js:5-22 | fromUserId or toUserId is reported when absent, and status when absent or outside the enum |
| ConnectionModel.Save | src/models/connection.js:5-36 | a save succeeds exactly when validation passes and the two ends differ; the record then carries the document's fields and creation and update times equal to now |
| ConnectionModel.Resave | src/models/connection.js:25-36 | re-saving after a status change keeps the ids and creation time and sets the new status and update time |
| ConnectionModel.NoSelfConnectionIsSaved | src/models/connection.js:30-36 | a document whose two ends are the same user is never saved |
| Conversations.FindChat | src/utils/socket.js:96 | the conversation found is the first one holding both ids, and none is found exactly when no conversation holds both |
| Conversations.AtMostOneConversationPerPair | src/utils/socket.js:96-102 | in a valid store, two conversations holding the same two distinct users are the same conversation |
| Conversations.StoreExtendsTransitive | src/routes/chat.js:41 | the "only sets read flags and appends" relation composes across operations |
| Conversations.ReadNeverReverts | src/routes/chat.js:41 | a message that is read stays read across any extension of the store |
| ConnectionRoutes.NoAcceptedSelfConnection | src/models/connection.js:30-36 | no user has an accepted connection with themselves in a store of saved records |
| ConnectionRoutes.SendRequest | src/routes/connection.js:115-165 | a created request goes from the viewer to a different target, is interested, and no earlier record links the pair (SendSucceedsExactlyWhen states when it succeeds) |
| ConnectionRoutes.SendSucceedsExactlyWhen | src/routes/connection.js:120-165 | a request is created exactly when the status is "interested", the target id is valid, the target exists and is not the viewer, and no record links the pair; the record is interested, from the viewer to the target, timestamped now |
| ConnectionRoutes.SendKeepsRecordsValid | src/routes/connection.js:142-165 | a successful send keeps the store free of self and duplicate records |
| ConnectionRoutes.FindPending | src/routes/connection.js:208-212 | finds an interested record from the given sender to the viewer with none before it, and finds none exactly when there is none |
| ConnectionRoutes.ReviewRequest | src/routes/connection.js:184-219 | a successful review names an interested record from the given user to the viewer, and the updated record is accepted or rejected (ReviewChangesOnlyThatStatus states when it succeeds and what else is kept) |
| ConnectionRoutes.ReviewChangesOnlyThatStatus | src/routes/connection.js:188-219 | a review succeeds exactly when the status is accepted or rejected, the id is valid and not the viewer's, and an interested request from that user to the viewer exists; only that record's status and update time change, and it leaves interested |
| ConnectionRoutes.ReviewKeepsRecordsValid | src/routes/connection.js:218-219 | a successful review keeps the store free of self and duplicate records |
| ConnectionRoutes.ConnectionStore.Send | src/routes/connection.js:115-165 | the route's result is the send decision; on success exactly that record is appended, otherwise the store is unchanged |
| ConnectionRoutes.ConnectionStore.Review | src/routes/connection.js:184-219 | on success exactly the reviewed record is replaced by its updated copy, otherwise the store is unchanged |
| ConnectionRoutes.Requests | src/routes/connection.js:85-88 | the result holds exactly the interested records addressed to the viewer, each as many times as it occurs in the store, and no other record |
| ConnectionRoutes.AcceptedFor | src/routes/connection.js:12-18 | the result holds exactly the accepted records in which the viewer is either end, each as many times as it occurs in the store, and no other record |
| ConnectionRoutes.UnreadCountIsSize | src/routes/connection.js:38-40 | the unread count is the number of messages sent by someone else and not yet read |
| ConnectionRoutes.AllReadMeansNoneUnread | src/routes/connection.js:38-40 | a conversation whose messages are all read has no unread messages for anyone |
| ConnectionRoutes.Summarize | src/routes/connection.js:23-40 | the last message is the conversation's final message, and there is none exactly when the conversation is absent or empty; the unread count is the number of unread positions |
| ConnectionRoutes.InsertByRecencyPermutes | src/routes/connection.js:60-64 | inserting a row into the list adds exactly that row |
| ConnectionRoutes.InsertByRecencySorted | src/routes/connection.js:60-64 | inserting a row into a list sorted most recent first keeps it sorted |
| ConnectionRoutes.SortByRecency | src/routes/connection.js:60-64 | the sorted list is a permutation of its input, in descending order of last-message time, or connection creation time when there is no message |
| ConnectionRoutes.Connections | src/routes/connection.js:10-64 | the result is a permutation of the summaries of the viewer's accepted records (one per record, multiplicities kept), each summary correct, sorted most recent first |
| ChatRoutes.MarkAllRead | src/routes/chat.js:39-46 | every message becomes read, and nothing else about any message changes |
| ChatRoutes.MarkAllReadIdempotent | src/routes/chat.js:39-46 | marking all messages read twice is the same as once |
| ChatRoutes.Fetch | src/routes/chat.js:8-66 | the reply and the store after a fetch: the store keeps its size and is unchanged on failure; a successful reply is a conversation holding both ids in which every message is read (the full behaviour is stated by FetchRejectsBadReceiver, FetchWithoutConversation, FetchMarksEveryMessageRead and FetchIdempotent) |
| ChatRoutes.FetchRejectsBadReceiver | src/routes/chat.js:12-18 | the fetch fails exactly when the receiver id is missing or malformed: a missing id gives ReceiverRequired, a malformed one InvalidReceiver, and the store is unchanged |
| ChatRoutes.FetchWithoutConversation | src/routes/chat.js:26-36 | with no conversation for the pair, the reply is a new empty conversation between the viewer and the receiver, and nothing is saved |
| ChatRoutes.FetchMarksEveryMessageRead | src/routes/chat.js:39-47 | with a conversation, afterwards every message of it is read whoever sent it, with count, order, sender and text kept and other conversations untouched |
| ChatRoutes.FetchIdempotent | src/routes/chat.js:22-47 | a second fetch leaves the store as the first left it; with a stored conversation it gives the same reply, and without one the replies differ only in the id of the unsaved conversation each builds |
| ChatRoutes.FetchExtendsStore | src/routes/chat.js:39-47 | fetching only sets read flags |
| ChatRoutes.FetchClearsUnread | src/routes/chat.js:39-47 | after the viewer fetches a conversation, the chat list counts no unread messages in it |
| ChatRoutes.FetchConversation | src/routes/chat.js:8-66 | the handler's loop over the messages produces exactly the reply and store of the fetch |
| ChatRoutes.FindMessage | src/routes/chat.js:92 | finds the first message with the id, and none exactly when no message has it |
| ChatRoutes.MarkOne | src/routes/chat.js:68-110 | the outcome and the store after marking one message: the store keeps its size and is unchanged on failure, and success needs a conversation for the pair (the full behaviour is stated by MarkOneFailsExactlyWhen and MarkOneSetsOnlyThatMessage) |
| ChatRoutes.MarkOneFailsExactlyWhen | src/routes/chat.js:72-93 | mark-as-read fails, saving nothing, exactly when the sender or message id is malformed, there is no conversation for the pair, or no message has that id |
| ChatRoutes.MarkOneSetsOnlyThatMessage | src/routes/chat.js:92-94 | on success exactly the first message with that id becomes read and every other message and conversation is unchanged |
| ChatRoutes.MarkOneExtendsStore | src/routes/chat.js:93 | marking one message only sets a read flag |
| ChatRoutes.MarkAsRead | src/routes/chat.js:68-110 | the handler's outcome and store are those of the mark-one decision |
| Socket.RoomFor | src/utils/socket.js:52 | the room name is the two ids joined by "_" in one order or the other (RoomForSorted fixes the order, RoomForCommutes the symmetry) |
| Socket.RoomForCommutes | src/utils/socket.js:52 | both participants of a pair compute the same room, in either order |
| Socket.RoomForSorted | src/utils/socket.js:52 | the room is the smaller id, "_", then the larger |
| Socket.WithoutUser | src/utils/socket.js:31-35 | deleting a user's entries keeps exactly the other entries |
| Socket.WithoutUserKeepsOrder | src/utils/socket.js:31-35 | the keys left after the deleting loop are the old keys, in order, without the user |
| Socket.Register | src/utils/socket.js:30-37 | the new registry ends with (user, socket), and every earlier entry is an old entry of another user (RegisterReplacesEntry adds distinct keys, that other users are kept, and the broadcast order) |
| Socket.RegisterReplacesEntry | src/utils/socket.js:30-43 | after registering, the user has exactly one entry, mapping to the new socket and placed last; other users' entries are unchanged; the broadcast keys put the user at the end |
| Socket.RemoveFirstSocket | src/utils/socket.js:161-167 | disconnecting removes at most one entry, removes one exactly when some entry points at the socket, and adds none (DisconnectRemovesAtMostOne states which entry goes) |
| Socket.RemoveFirstSocketAt | src/utils/socket.js:161-167 | the loop that stops at the first entry for the socket removes exactly that entry, or nothing when there is none |
| Socket.DisconnectRemovesAtMostOne | src/utils/socket.js:161-167 | a disconnect removes at most one entry, the first pointing at the socket, changes nothing when none does, and keeps user ids distinct |
| Socket.AppendMessage | src/utils/socket.js:96-106 | a send adds at most one conversation and keeps the id and participants of every existing one (AppendAddsOneMessage and AppendFindsPair state the new message and where it goes) |
| Socket.AppendAddsOneMessage | src/utils/socket.js:96-106 | a send appends one unread message from the sender at the end of the pair's conversation, creating it with participants [sender, receiver] when absent, and changes nothing else |
| Socket.AppendExtendsStore | src/utils/socket.js:105-106 | a send keeps every earlier message and conversation |
| Socket.AppendFindsPair | src/utils/socket.js:105-129 | after a send the pair's conversation carries the reported id and its old messages followed by the new one |
| Socket.AppendKeepsStoreValid | src/utils/socket.js:96-106 | a send between distinct users keeps one conversation per pair |
| Socket.AppendRaisesUnreadForReceiver | src/utils/socket.js:105 | after a send the receiver's chat list shows the new message last and one more unread |
| Socket.Gateway.UserOnline | src/utils/socket.js:21-47 | a missing or empty id changes and emits nothing; otherwise the registry becomes the registered one and its keys are broadcast to everyone |
| Socket.Gateway.JoinChatRoom | src/utils/socket.js:50-61 | the socket joins the pair's room and nothing else changes |
| Socket.Gateway.JoinReceiverRoom | src/utils/socket.js:64-74 | the socket joins the room named after the id and nothing else changes |
| Socket.Gateway.LeaveRoom | src/utils/socket.js:141-154 | the socket leaves the room and nothing else changes |
| Socket.Gateway.SendMessage | src/utils/socket.js:77-138 | without an accepted connection only the sender gets an error event and no conversation changes; otherwise the message is appended and only the receiver's room is told the conversation id and the new unread message |
| Socket.Gateway.Disconnect | src/utils/socket.js:157-170 | the first entry for the socket is removed, the keys are broadcast, and the socket's rooms are dropped |
| Socket.SendToSelfIsRefused | src/utils/socket.js:83-93 | a message to oneself is always refused: the sender alone is told and no conversation changes |
| Feed.HiddenIds | src/routes/feed.js:23-30 | every hidden id is linked with the viewer by some record (HiddenIffConnected gives the converse) |
| Feed.HiddenIffConnected | src/routes/feed.js:11-30 | a user is hidden exactly when some record of any status links them with the viewer in either direction |
| Feed.HideFromFeed | src/routes/feed.js:23-30 | the loop collects exactly the counterparts of the viewer's records |
| Feed.FeedOf | src/routes/feed.js:32-34 | the cards are exactly the projections of the users whose id is not excluded, and when stored ids are distinct no two cards share an id, so each such user appears once |
| Feed.FeedFor | src/routes/feed.js:32-34 | the feed has no more cards than stored users, none for the viewer, and when stored ids are distinct at most one card per user (FeedMembership states exactly who appears) |
| Feed.FeedMembership | src/routes/feed.js:32-34 | a user is in the feed exactly when they are not the viewer and no record links them with the viewer |
| Feed.FeedExcludesKnownUsers | src/routes/feed.js:25-33 | no card in the feed belongs to the viewer or to anyone connected with them |
| Feed.GetFeed | src/routes/feed.js:8-39 | the route returns only users who are neither the viewer nor linked with them, and every such user |
| UserModel.ApplySetters | src/models/user.js:5-32 | name and address are stored trimmed, email lowercased and trimmed, and every other field unchanged |
| UserModel.ApplySettersIdempotent | src/models/user.js:10-31 | normalising a normalised document changes nothing |
| UserModel.SchemaErrors | src/models/user.js:5-62 | each path is reported exactly when its constraint fails: name 4 to 20 characters, a valid email, password, address and dob present, gender exactly Male, Female or Other, at least 3 interests, exactly 3 photos |
| UserModel.Insert | src/models/user.js:4-65 | a user is created exactly when the normalised document passes validation and its email is not taken, and is then appended |
| UserModel.InsertKeepsEmailsUnique | src/models/user.js:15 | creating users keeps every stored email distinct |
| UserModel.FindUser | src/middlewares/userAuth.js:20 | finds a user with the id, and none exactly when no user has it |
| Validation.ValidateSignUp | src/utils/validation.js:3-43 | a bad name is reported exactly when the name check fails, and a bad email exactly when the name passes and the email check fails |
| Validation.ValidateUpdateProfile | src/utils/validation.js:46-77 | a bad name is reported exactly when the name check fails, and no error outside name, address, age, gender and photos is reported |
| Validation.FirstFailure | src/utils/validation.js:15-42 | a chain passes exactly when every check holds, and otherwise reports the error of the first failing check |
| Validation.SignUpReportsFirstFailure | src/utils/validation.js:15-42 | sign-up reports the first failing check of name, email, password presence and length, address, birthday, age, gender, interests, photos |
| Validation.UpdateReportsFirstFailure | src/utils/validation.js:55-76 | a profile update reports the first failing check of name, address, age, gender, photos, where a pending birthday satisfies the later ones |
| Validation.SignUpPassesExactlyWhen | src/utils/validation.js:15-42 | sign-up passes exactly when every check holds, including a reached birthday and an age of at least 18 when the date is known |
| Validation.UpdatePassesExactlyWhen | src/utils/validation.js:55-76 | an update passes exactly when name and address hold and either the birthday is pending or age, gender and photos hold |
| Validation.PendingBirthdayDiverges | src/utils/validation.js:25-71 | with a birthday still to come, an update skips age, gender and photos, while sign-up fails with the reassignment error |
| Validation.SignUpRefusesEveryPendingBirthday | src/utils/validation.js:27-31 | every sign-up whose birthday is still to come this year is refused, whatever the age |
| Validation.ThreeCharNamePassesValidationFailsSchema | src/models/user.js:5-11 | every three-character name passes the validator, while the schema rejects it after trimming |
| Validation.LowercaseGenderPassesValidationFailsSchema | src/models/user.js:37-44 | "male" passes the validator but the case-sensitive enum rejects it |
| Validation.FewInterestsPassValidationFailSchema | src/models/user.js:45-53 | one or two interests pass the validator but the schema rejects them |
| UserAuth.BearerToken | src/middlewares/userAuth.js:8-16 | a missing header or one not starting with "Bearer " is refused; an extracted token is non-empty and has no space |
| UserAuth.TokenIsSecondField | src/middlewares/userAuth.js:13-16 | the token is the text after "Bearer " up to the next space, refused when empty |
| UserAuth.BearerTokenRoundTrip | src/middlewares/userAuth.js:8-16 | a non-empty token without spaces comes back out of "Bearer " plus the token |
| UserAuth.EmptyTokenRejected | src/middlewares/userAuth.js:14-16 | "Bearer " alone, or a second space after it, is refused as a bad token |
| UserAuth.Authenticate | src/middlewares/userAuth.js:8-27 | a request is accepted exactly when a token is extracted, verifies to an id, and that id resolves to a stored user, who is the result |
| UserAuth.Exchange.UserAuth | src/middlewares/userAuth.js:4-37 | on success the request carries the user and next is called once; on any failure the response is 401 "Unauthorized" and next is not called |

## Left out

- Socket.io delivery: the model records each emit and its target in an output log. It does not model which clients receive it, or the room socket.io joins automatically for each socket's own id.
- Mongo persistence and query operators become sequence operations. `populate` and the response projections of `/connections` and `/requests` (renamed user fields) are not modelled; the summary carries the connection record itself.
- Concurrency: the find-then-create race in `sendMessage` and the `Promise.all` fan-out in `/connections` are not modelled. Handlers run one at a time, which is what makes one conversation per pair provable.
- src/models/chat.js is not part of this model: its declared schema does not match the shape the code uses, so the used shape (participants, messages) is modelled.
- Console logging is not modelled. The HTTP routes' JSON error messages are replaced by error kinds. The socket `error` event keeps its text ("Failed to send message" with the cause), and so does the 401 body ("Unauthorized").
- Failures of the database itself (a save or lookup that throws) are not modelled.
- The error events of `joinChatRoom`, `joinReceiverRoom` and `leaveRoom` are not modelled: only a failing socket.io call could raise them.
- Malformed event payloads (a missing `receiverId`, a non-string id) are not modelled beyond the missing or empty `userId` of `userOnline`; ids are strings.
- Dates: JavaScript `Date` parsing, time zones and `new Date(null)` are not modelled. A birth date is a `(year, month, day)` triple or absent; an absent date stands for one that does not parse, which makes every comparison false.
- Timestamps are integers; `createdAt` of a new message equals the `now` of the save.
- String lengths count characters, not UTF-16 code units, and the sort order compares characters. `ToLower` lowercases only ASCII letters.
- Non-string field types (a number or array where a string is expected) and the type errors they would raise are not modelled, except a missing password in sign-up.
- Strings.Split models splitting at a one-character separator only.
- ConnectionRoutes.SortByRecency: the source's sort is stable; the model states only the order and the permutation, not stability among rows with equal keys.
- UserAuth.Exchange.UserAuth: an exception thrown by a downstream handler inside `next()` would also be caught and answered with 401; that path is not modelled.
- ConnectionRoutes.Requests: the contract fixes which records appear and how often, not their order; `find` without a sort promises no order.
- ConnectionRoutes.AcceptedFor: the contract fixes which records appear and how often, not their order; `find` without a sort promises no order.
- Feed.FeedOf: the contract fixes which cards appear and, for distinct stored ids, that each appears once, not their order; `find` without a sort promises no order. A card includes the user id, which Mongo returns by default beside the projected fields.
