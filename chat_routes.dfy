/** The conversation read API (src/routes/chat.js): fetching a conversation,
    which marks all of its messages read, and marking one message read. */
module ChatRoutes {
  import opened Common
  import opened Conversations
  import ConnectionRoutes

  datatype ChatError =
    | ReceiverRequired | InvalidReceiver     // GET /chats/:receiverUserId
    | InvalidSender | InvalidMessageId       // PATCH /mark-as-read/:senderUserId/:messageId
    | ChatNotFound | MessageNotFound

  /** Every message flagged read; nothing else about any message changes. */
  function MarkAllRead(ms: seq<Message>): (r: seq<Message>)
    ensures |r| == |ms|
    ensures forall i :: 0 <= i < |ms| ==> r[i].isRead && MessageExtends(ms[i], r[i])
  {
    seq(|ms|, i requires 0 <= i < |ms| => ms[i].(isRead := true))
  }

  lemma MarkAllReadIdempotent(ms: seq<Message>)
    ensures MarkAllRead(MarkAllRead(ms)) == MarkAllRead(ms)
  {
  }

  /** GET /chats/:receiverUserId for the authenticated viewer: the reply and the
      store afterwards. `newChatId` is the id a freshly built, unsaved Chat gets. */
  function Fetch(chats: seq<Conversation>, viewer: UserId, receiver: string,
                 isValidId: string -> bool, newChatId: string): (r: (Result<Conversation, ChatError>, seq<Conversation>))
    ensures |r.1| == |chats|
    ensures r.0.Failure? ==> r.1 == chats
    ensures r.0.Success? ==> Involves(r.0.value, viewer, receiver)
                             && forall m :: m in r.0.value.messages ==> m.isRead
  {
    if receiver == "" then (Failure(ReceiverRequired), chats)
    else if !isValidId(receiver) then (Failure(InvalidReceiver), chats)
    else match FindChat(chats, viewer, receiver)
      case None => (Success(Conversation(newChatId, [viewer, receiver], [])), chats)
      case Some(k) =>
        var c := chats[k].(messages := MarkAllRead(chats[k].messages));
        (Success(c), chats[k := c])
  }

  /** A missing receiver id fails with ReceiverRequired and a malformed one with
      InvalidReceiver, before the store is touched. */
  lemma FetchRejectsBadReceiver(chats: seq<Conversation>, viewer: UserId, receiver: string,
                                isValidId: string -> bool, newChatId: string)
    ensures var (r, after) := Fetch(chats, viewer, receiver, isValidId, newChatId);
      && (r.Failure? <==> receiver == "" || !isValidId(receiver))
      && (receiver == "" ==> r == Failure(ReceiverRequired))
      && (receiver != "" && !isValidId(receiver) ==> r == Failure(InvalidReceiver))
      && (r.Failure? ==> after == chats)
  {
  }

  /** With no conversation for the pair the reply is a new empty one between the
      viewer and the receiver, and nothing is saved. */
  lemma FetchWithoutConversation(chats: seq<Conversation>, viewer: UserId, receiver: string,
                                 isValidId: string -> bool, newChatId: string)
    requires receiver != "" && isValidId(receiver)
    requires forall i :: 0 <= i < |chats| ==> !Involves(chats[i], viewer, receiver)
    ensures Fetch(chats, viewer, receiver, isValidId, newChatId)
            == (Success(Conversation(newChatId, [viewer, receiver], [])), chats)
  {
  }

  /** With a conversation, every message of it is read afterwards, whoever sent
      it; count, order, ids, senders and texts stay; no other conversation changes. */
  lemma FetchMarksEveryMessageRead(chats: seq<Conversation>, viewer: UserId, receiver: string,
                                   isValidId: string -> bool, newChatId: string, k: nat)
    requires receiver != "" && isValidId(receiver)
    requires k < |chats| && Involves(chats[k], viewer, receiver)
    requires forall j :: 0 <= j < k ==> !Involves(chats[j], viewer, receiver)
    ensures var (r, after) := Fetch(chats, viewer, receiver, isValidId, newChatId);
      && r.Success? && |after| == |chats| && r.value == after[k]
      && r.value.id == chats[k].id && r.value.participants == chats[k].participants
      && |r.value.messages| == |chats[k].messages|
      && (forall i :: 0 <= i < |r.value.messages| ==>
            r.value.messages[i].isRead && MessageExtends(chats[k].messages[i], r.value.messages[i]))
      && (forall j :: 0 <= j < |chats| && j != k ==> after[j] == chats[j])
  {
  }

  /** A second fetch leaves the store as the first left it. With a stored
      conversation it gives the same reply; without one each fetch builds its own
      unsaved conversation, so the replies agree on everything but the fresh id. */
  lemma FetchIdempotent(chats: seq<Conversation>, viewer: UserId, receiver: string,
                        isValidId: string -> bool, newChatId: string, newChatId2: string)
    ensures var (r, after) := Fetch(chats, viewer, receiver, isValidId, newChatId);
      var (r2, after2) := Fetch(after, viewer, receiver, isValidId, newChatId2);
      && after2 == after
      && (FindChat(chats, viewer, receiver).Some? || r.Failure? ==> r2 == r)
      && (r.Success? ==> r2.Success? && r2.value.participants == r.value.participants
                                     && r2.value.messages == r.value.messages)
  {
    var (r, after) := Fetch(chats, viewer, receiver, isValidId, newChatId);
    match FindChat(chats, viewer, receiver)
    case None =>
    case Some(k) =>
      if receiver != "" && isValidId(receiver) {
        assert after[k].participants == chats[k].participants;
        assert forall j :: 0 <= j < |chats| ==> after[j].participants == chats[j].participants;
        assert FindChat(after, viewer, receiver) == Some(k);
        MarkAllReadIdempotent(chats[k].messages);
        var c := after[k];
        assert c.(messages := MarkAllRead(c.messages)) == c;
        assert after[k := c] == after;
      }
  }

  /** Fetching only ever sets read flags. */
  lemma FetchExtendsStore(chats: seq<Conversation>, viewer: UserId, receiver: string,
                          isValidId: string -> bool, newChatId: string)
    ensures StoreExtends(chats, Fetch(chats, viewer, receiver, isValidId, newChatId).1)
  {
  }

  /** After the viewer fetches a conversation, the chat list shows it with no unread messages. */
  lemma FetchClearsUnread(chats: seq<Conversation>, viewer: UserId, receiver: string,
                          isValidId: string -> bool, newChatId: string)
    requires receiver != "" && isValidId(receiver)
    ensures var after := Fetch(chats, viewer, receiver, isValidId, newChatId).1;
      ConnectionRoutes.UnreadCount(ConnectionRoutes.PairMessages(after, viewer, receiver), viewer) == 0
  {
    var after := Fetch(chats, viewer, receiver, isValidId, newChatId).1;
    match FindChat(chats, viewer, receiver)
    case None =>
      assert ConnectionRoutes.PairMessages(after, viewer, receiver) == [];
    case Some(k) =>
      assert forall j :: 0 <= j < |chats| ==> after[j].participants == chats[j].participants;
      assert FindChat(after, viewer, receiver) == Some(k);
      ConnectionRoutes.AllReadMeansNoneUnread(after[k].messages, viewer);
  }

  /** The chat route handler: the loop over `chats.messages` that sets `isRead`,
      then the save. */
  method FetchConversation(store: ConversationStore, viewer: UserId, receiver: string,
                           isValidId: string -> bool, newChatId: string)
    returns (r: Result<Conversation, ChatError>)
    requires store.Valid()
    modifies store
    ensures store.Valid()
    ensures (r, store.chats) == Fetch(old(store.chats), viewer, receiver, isValidId, newChatId)
  {
    if receiver == "" {
      return Failure(ReceiverRequired);
    }
    if !isValidId(receiver) {
      return Failure(InvalidReceiver);
    }
    var found := FindChat(store.chats, viewer, receiver);
    if found.None? {
      return Success(Conversation(newChatId, [viewer, receiver], []));
    }
    var k := found.value;
    var chat := store.chats[k];
    var ms := chat.messages;
    var i := 0;
    while i < |ms|
      invariant 0 <= i <= |ms| && |ms| == |chat.messages|
      invariant forall j :: 0 <= j < i ==> ms[j] == chat.messages[j].(isRead := true)
      invariant forall j :: i <= j < |ms| ==> ms[j] == chat.messages[j]
    {
      if !ms[i].isRead {
        ms := ms[i := ms[i].(isRead := true)];
      }
      i := i + 1;
    }
    assert ms == MarkAllRead(chat.messages);
    chat := chat.(messages := ms);
    store.chats := store.chats[k := chat];
    r := Success(chat);
  }

  // ---------------------------------------------------------------- mark-as-read

  /** `chat.messages.find(msg => msg._id.toString() === messageId)`. */
  function FindMessage(ms: seq<Message>, id: string): (r: Option<nat>)
    ensures r.Some? ==> r.value < |ms| && ms[r.value].id == id
    ensures r.Some? ==> forall j :: 0 <= j < r.value ==> ms[j].id != id
    ensures r.None? <==> forall j :: 0 <= j < |ms| ==> ms[j].id != id
  {
    if |ms| == 0 then None
    else if ms[0].id == id then Some(0)
    else match FindMessage(ms[1..], id)
      case None => None
      case Some(k) => Some(k + 1)
  }

  /** PATCH /mark-as-read/:senderUserId/:messageId: the outcome and the store
      afterwards. A message id that is not in the conversation makes `find` yield
      undefined, the assignment to it throws, and nothing is saved. */
  function MarkOne(chats: seq<Conversation>, viewer: UserId, sender: string, messageId: string,
                   isValidId: string -> bool): (r: (Outcome<ChatError>, seq<Conversation>))
    ensures |r.1| == |chats|
    ensures r.0.Fail? ==> r.1 == chats
    ensures r.0.Pass? ==> FindChat(chats, viewer, sender).Some?
  {
    if !isValidId(sender) then (Fail(InvalidSender), chats)
    else if !isValidId(messageId) then (Fail(InvalidMessageId), chats)
    else match FindChat(chats, viewer, sender)
      case None => (Fail(ChatNotFound), chats)
      case Some(k) =>
        var ms := chats[k].messages;
        match FindMessage(ms, messageId)
        case None => (Fail(MessageNotFound), chats)
        case Some(j) => (Pass, chats[k := chats[k].(messages := ms[j := ms[j].(isRead := true)])])
  }

  /** Mark-as-read fails, saving nothing, exactly when an id is malformed, the pair
      has no conversation, or the conversation has no message with that id. */
  lemma MarkOneFailsExactlyWhen(chats: seq<Conversation>, viewer: UserId, sender: string,
                                messageId: string, isValidId: string -> bool)
    ensures var (o, after) := MarkOne(chats, viewer, sender, messageId, isValidId);
      && (o.Fail? <==>
            !isValidId(sender) || !isValidId(messageId)
            || FindChat(chats, viewer, sender).None?
            || (forall j :: 0 <= j < |chats[FindChat(chats, viewer, sender).value].messages| ==>
                  chats[FindChat(chats, viewer, sender).value].messages[j].id != messageId))
      && (o.Fail? ==> after == chats)
  {
  }

  /** On success exactly one message changes: the first with that id in the pair's
      conversation, which becomes read; every other message and conversation stays. */
  lemma MarkOneSetsOnlyThatMessage(chats: seq<Conversation>, viewer: UserId, sender: string,
                                   messageId: string, isValidId: string -> bool)
    requires MarkOne(chats, viewer, sender, messageId, isValidId).0.Pass?
    ensures var after := MarkOne(chats, viewer, sender, messageId, isValidId).1;
      exists k, j ::
        && 0 <= k < |chats| && Involves(chats[k], viewer, sender)
        && 0 <= j < |chats[k].messages| && chats[k].messages[j].id == messageId
        && (forall j' :: 0 <= j' < j ==> chats[k].messages[j'].id != messageId)
        && after == chats[k := chats[k].(messages := chats[k].messages[j := chats[k].messages[j].(isRead := true)])]
  {
    var k := FindChat(chats, viewer, sender).value;
    var j := FindMessage(chats[k].messages, messageId).value;
    assert 0 <= k < |chats| && 0 <= j < |chats[k].messages|;
  }

  lemma MarkOneExtendsStore(chats: seq<Conversation>, viewer: UserId, sender: string,
                            messageId: string, isValidId: string -> bool)
    ensures StoreExtends(chats, MarkOne(chats, viewer, sender, messageId, isValidId).1)
  {
  }

  /** The mark-as-read route handler. */
  method MarkAsRead(store: ConversationStore, viewer: UserId, sender: string, messageId: string,
                    isValidId: string -> bool) returns (o: Outcome<ChatError>)
    requires store.Valid()
    modifies store
    ensures store.Valid()
    ensures (o, store.chats) == MarkOne(old(store.chats), viewer, sender, messageId, isValidId)
  {
    if !isValidId(sender) {
      return Fail(InvalidSender);
    }
    if !isValidId(messageId) {
      return Fail(InvalidMessageId);
    }
    var found := FindChat(store.chats, viewer, sender);
    if found.None? {
      return Fail(ChatNotFound);
    }
    var chat := store.chats[found.value];
    var m := FindMessage(chat.messages, messageId);
    if m.None? {
      return Fail(MessageNotFound);
    }
    var ms := chat.messages[m.value := chat.messages[m.value].(isRead := true)];
    store.chats := store.chats[found.value := chat.(messages := ms)];
    o := Pass;
  }
}
