/** The realtime gateway (src/utils/socket.js): the presence registry, room
    membership, the send pipeline and the events the server emits. */
module Socket {
  import opened Common
  import opened Strings
  import opened Conversations
  import opened ConnectionRoutes

  // ---------------------------------------------------------------- rooms

  /** `[a, b].sort()`: the pair in ascending order. */
  function SortPair(a: UserId, b: UserId): (r: (UserId, UserId))
    ensures r == (a, b) || r == (b, a)
    ensures !Less(r.1, r.0)
  {
    LessAsymmetric(a, b);
    if Less(b, a) then (b, a) else (a, b)
  }

  /** `[a, b].sort().join("_")`: the room both participants of a chat join. */
  function RoomFor(a: UserId, b: UserId): (r: RoomId)
    ensures r == a + "_" + b || r == b + "_" + a
  {
    var p := SortPair(a, b);
    p.0 + "_" + p.1
  }

  /** Both participants compute the same room, whoever joins first. */
  lemma RoomForCommutes(a: UserId, b: UserId)
    ensures RoomFor(a, b) == RoomFor(b, a)
  {
    LessTotal(a, b);
    LessAsymmetric(a, b);
  }

  /** The room name is the smaller id, "_", then the larger. */
  lemma RoomForSorted(a: UserId, b: UserId)
    ensures exists x, y :: {x, y} == {a, b} && !Less(y, x) && RoomFor(a, b) == x + "_" + y
  {
    var p := SortPair(a, b);
    assert {p.0, p.1} == {a, b};
  }

  // ---------------------------------------------------------------- presence

  /** `onlineUsers`: a Map from user id to socket id, in insertion order. */
  type Presence = seq<(UserId, SocketId)>

  /** `Array.from(onlineUsers.keys())`. */
  function Keys(p: Presence): seq<UserId>
  {
    seq(|p|, i requires 0 <= i < |p| => p[i].0)
  }

  predicate DistinctKeys(p: Presence)
  {
    forall i, j :: 0 <= i < j < |p| ==> p[i].0 != p[j].0
  }

  /** The entries left after deleting every entry whose key is u. */
  function WithoutUser(p: Presence, u: UserId): (r: Presence)
    ensures forall e :: e in r <==> e in p && e.0 != u
    ensures |r| <= |p|
  {
    if |p| == 0 then []
    else
      var init := WithoutUser(p[..|p| - 1], u);
      assert forall e :: e in p <==> e in p[..|p| - 1] || e == p[|p| - 1];
      if p[|p| - 1].0 == u then init else init + [p[|p| - 1]]
  }

  lemma {:induction false} WithoutUserKeepsOrder(p: Presence, u: UserId)
    ensures Keys(WithoutUser(p, u)) == RemoveKey(Keys(p), u)
  {
    if |p| > 0 {
      WithoutUserKeepsOrder(p[..|p| - 1], u);
      assert Keys(p[..|p| - 1]) == Keys(p)[..|p| - 1];
    }
  }

  /** The keys in their order, with u dropped. */
  function RemoveKey(ks: seq<UserId>, u: UserId): seq<UserId>
  {
    if |ks| == 0 then []
    else RemoveKey(ks[..|ks| - 1], u) + (if ks[|ks| - 1] == u then [] else [ks[|ks| - 1]])
  }

  lemma {:induction false} WithoutUserKeepsDistinct(p: Presence, u: UserId)
    requires DistinctKeys(p)
    ensures DistinctKeys(WithoutUser(p, u))
  {
    if |p| > 0 {
      var init := p[..|p| - 1];
      WithoutUserKeepsDistinct(init, u);
      var w := WithoutUser(init, u);
      forall e | e in w ensures e.0 != p[|p| - 1].0 {
        assert e in init;
      }
    }
  }

  /** What `userOnline` leaves: any entry of u removed, then (u, s) set at the end. */
  function Register(p: Presence, u: UserId, s: SocketId): (r: Presence)
    ensures |r| > 0 && r[|r| - 1] == (u, s)
    ensures forall i :: 0 <= i < |r| - 1 ==> r[i].0 != u && r[i] in p
  {
    WithoutUser(p, u) + [(u, s)]
  }

  /** After registering, u has exactly one entry, it points at the new socket, and
      every other user's entry is as it was; u's key moves to the end of the broadcast. */
  lemma RegisterReplacesEntry(p: Presence, u: UserId, s: SocketId)
    requires DistinctKeys(p)
    ensures var p' := Register(p, u, s);
      && DistinctKeys(p')
      && p'[|p'| - 1] == (u, s)
      && (forall i :: 0 <= i < |p'| - 1 ==> p'[i].0 != u)
      && (forall v, x :: v != u ==> ((v, x) in p' <==> (v, x) in p))
      && Keys(p') == RemoveKey(Keys(p), u) + [u]
  {
    var w := WithoutUser(p, u);
    WithoutUserKeepsDistinct(p, u);
    WithoutUserKeepsOrder(p, u);
    var p' := w + [(u, s)];
    forall i | 0 <= i < |p'| - 1 ensures p'[i].0 != u {
      assert p'[i] == w[i] && w[i] in w;
    }
    assert Keys(p') == Keys(w) + [u];
  }

  /** Deleting the first entry whose socket is s (the loop with `break`). */
  function RemoveFirstSocket(p: Presence, s: SocketId): (r: Presence)
    ensures |p| - 1 <= |r| <= |p|
    ensures |r| == |p| <==> forall j :: 0 <= j < |p| ==> p[j].1 != s
    ensures forall e :: e in r ==> e in p
  {
    if |p| == 0 then []
    else if p[0].1 == s then p[1..]
    else [p[0]] + RemoveFirstSocket(p[1..], s)
  }

  /** The loop's stopping index i determines what is removed. */
  lemma {:induction false} RemoveFirstSocketAt(p: Presence, s: SocketId, i: nat)
    requires i <= |p| && (forall j :: 0 <= j < i ==> p[j].1 != s) && (i < |p| ==> p[i].1 == s)
    ensures RemoveFirstSocket(p, s) == if i < |p| then p[..i] + p[i + 1..] else p
  {
    if |p| > 0 && i > 0 {
      RemoveFirstSocketAt(p[1..], s, i - 1);
      assert RemoveFirstSocket(p, s) == [p[0]] + RemoveFirstSocket(p[1..], s);
      if i < |p| {
        assert p[..i] == [p[0]] + p[1..][..i - 1];
        assert p[i + 1..] == p[1..][i..];
      }
    }
  }

  /** Disconnecting removes at most one entry, the first pointing at the socket;
      a socket no entry points at changes nothing. */
  lemma DisconnectRemovesAtMostOne(p: Presence, s: SocketId)
    requires DistinctKeys(p)
    ensures var p' := RemoveFirstSocket(p, s);
      && DistinctKeys(p')
      && ((forall j :: 0 <= j < |p| ==> p[j].1 != s) ==> p' == p)
      && (forall i :: 0 <= i < |p| && p[i].1 == s && (forall j :: 0 <= j < i ==> p[j].1 != s)
            ==> p' == p[..i] + p[i + 1..])
  {
    var i := FirstSocketIndex(p, s);
    RemoveFirstSocketAt(p, s, i);
    if i < |p| {
      RemoveAtKeepsDistinct(p, i);
    }
  }

  /** Deleting one entry keeps user ids distinct. */
  lemma RemoveAtKeepsDistinct(p: Presence, i: nat)
    requires DistinctKeys(p) && i < |p|
    ensures DistinctKeys(p[..i] + p[i + 1..])
  {
    var p' := p[..i] + p[i + 1..];
    forall a, b | 0 <= a < b < |p'| ensures p'[a].0 != p'[b].0 {
      var a' := if a < i then a else a + 1;
      var b' := if b < i then b else b + 1;
      assert p'[a] == p[a'] && p'[b] == p[b'];
    }
  }

  function FirstSocketIndex(p: Presence, s: SocketId): (i: nat)
    ensures i <= |p| && (forall j :: 0 <= j < i ==> p[j].1 != s) && (i < |p| ==> p[i].1 == s)
  {
    if |p| == 0 then 0
    else if p[0].1 == s then 0
    else FirstSocketIndex(p[1..], s) + 1
  }

  // ---------------------------------------------------------------- events

  /** Where an emit goes: `io.emit`, `io.to(room).emit` or `socket.emit`. */
  datatype Target = Everyone | ToRoom(room: RoomId) | ToSender(socket: SocketId)

  datatype Event =
    | UsersOnline(users: seq<UserId>)
    | LastMessageUpdated(chatId: string, message: Message)
    | Error(reason: string, error: string)

  datatype Emission = Emission(target: Target, event: Event)

  // ---------------------------------------------------------------- send pipeline

  /** The store after `chat.messages.push(...)` and `chat.save()`; a conversation
      for the pair is created first when none exists. */
  function AppendMessage(chats: seq<Conversation>, sender: UserId, receiver: UserId, text: string,
                         chatId: string, msgId: string, now: int): (r: seq<Conversation>)
    ensures |chats| <= |r| <= |chats| + 1
    ensures forall i :: 0 <= i < |chats| ==> r[i].id == chats[i].id && r[i].participants == chats[i].participants
  {
    var m := Message(msgId, sender, text, false, now);
    match FindChat(chats, sender, receiver)
    case Some(k) => chats[k := chats[k].(messages := chats[k].messages + [m])]
    case None => chats + [Conversation(chatId, [sender, receiver], [m])]
  }

  /** `savedChat._id`. */
  function SavedChatId(chats: seq<Conversation>, sender: UserId, receiver: UserId, chatId: string): string
  {
    match FindChat(chats, sender, receiver)
    case Some(k) => chats[k].id
    case None => chatId
  }

  /** A send appends exactly one unread message from the sender at the end of the
      pair's conversation (created as [sender, receiver] when absent), and
      changes nothing else in the store. */
  lemma AppendAddsOneMessage(chats: seq<Conversation>, sender: UserId, receiver: UserId, text: string,
                             chatId: string, msgId: string, now: int)
    ensures var after := AppendMessage(chats, sender, receiver, text, chatId, msgId, now);
      var m := Message(msgId, sender, text, false, now);
      && (FindChat(chats, sender, receiver).None? ==>
            after == chats + [Conversation(chatId, [sender, receiver], [m])])
      && (FindChat(chats, sender, receiver).Some? ==>
            var k := FindChat(chats, sender, receiver).value;
            && |after| == |chats|
            && after[k] == chats[k].(messages := chats[k].messages + [m])
            && (forall j :: 0 <= j < |chats| && j != k ==> after[j] == chats[j]))
  {
  }

  /** The store after a send extends the store before it. */
  lemma AppendExtendsStore(chats: seq<Conversation>, sender: UserId, receiver: UserId, text: string,
                           chatId: string, msgId: string, now: int)
    ensures StoreExtends(chats, AppendMessage(chats, sender, receiver, text, chatId, msgId, now))
  {
    var after := AppendMessage(chats, sender, receiver, text, chatId, msgId, now);
    forall i | 0 <= i < |chats| ensures ConversationExtends(chats[i], after[i]) {
      assert after[i].messages[..|chats[i].messages|] == chats[i].messages;
    }
  }

  /** After a send the pair's conversation is found, it carries the id the
      gateway reports, and its messages are the old ones plus the new one. */
  lemma AppendFindsPair(chats: seq<Conversation>, sender: UserId, receiver: UserId, text: string,
                        chatId: string, msgId: string, now: int)
    ensures var after := AppendMessage(chats, sender, receiver, text, chatId, msgId, now);
      && FindChat(after, sender, receiver).Some?
      && var k := FindChat(after, sender, receiver).value;
         && after[k].id == SavedChatId(chats, sender, receiver, chatId)
         && after[k].messages == PairMessages(chats, sender, receiver) + [Message(msgId, sender, text, false, now)]
  {
    var after := AppendMessage(chats, sender, receiver, text, chatId, msgId, now);
    match FindChat(chats, sender, receiver)
    case Some(k) =>
      assert forall j :: 0 <= j < |chats| ==> after[j].participants == chats[j].participants;
      FindChatSameParticipants(chats, after, sender, receiver);
    case None =>
      assert after[..|chats|] == chats;
      FindChatAfterAppend(chats, after[|chats|], sender, receiver);
  }

  lemma {:induction false} FindChatSameParticipants(s: seq<Conversation>, t: seq<Conversation>, a: UserId, b: UserId)
    requires |s| == |t| && forall j :: 0 <= j < |s| ==> t[j].participants == s[j].participants
    ensures FindChat(t, a, b) == FindChat(s, a, b)
  {
    if |s| > 0 {
      FindChatSameParticipants(s[1..], t[1..], a, b);
    }
  }

  lemma {:induction false} FindChatAfterAppend(s: seq<Conversation>, c: Conversation, a: UserId, b: UserId)
    requires FindChat(s, a, b).None? && Involves(c, a, b)
    ensures FindChat(s + [c], a, b) == Some(|s|)
  {
    if |s| > 0 {
      assert (s + [c])[1..] == s[1..] + [c];
      FindChatAfterAppend(s[1..], c, a, b);
    }
  }

  /** A send between two distinct users keeps one conversation per pair. */
  lemma AppendKeepsStoreValid(chats: seq<Conversation>, sender: UserId, receiver: UserId, text: string,
                              chatId: string, msgId: string, now: int)
    requires StoreValid(chats) && sender != receiver
    ensures StoreValid(AppendMessage(chats, sender, receiver, text, chatId, msgId, now))
  {
    var after := AppendMessage(chats, sender, receiver, text, chatId, msgId, now);
    if FindChat(chats, sender, receiver).None? {
      var p := [sender, receiver];
      forall i | 0 <= i < |chats| ensures !SamePair(chats[i].participants, p) {
        assert !Involves(chats[i], sender, receiver);
      }
    }
  }

  /** The receiver sees the new message as the last one and one more unread. */
  lemma AppendRaisesUnreadForReceiver(chats: seq<Conversation>, sender: UserId, receiver: UserId, text: string,
                                      chatId: string, msgId: string, now: int)
    requires sender != receiver
    ensures var after := AppendMessage(chats, sender, receiver, text, chatId, msgId, now);
      var ms := PairMessages(after, sender, receiver);
      && |ms| > 0 && ms[|ms| - 1] == Message(msgId, sender, text, false, now)
      && UnreadCount(ms, receiver) == UnreadCount(PairMessages(chats, sender, receiver), receiver) + 1
  {
    AppendFindsPair(chats, sender, receiver, text, chatId, msgId, now);
    var ms := PairMessages(AppendMessage(chats, sender, receiver, text, chatId, msgId, now), sender, receiver);
    assert ms[..|ms| - 1] == PairMessages(chats, sender, receiver);
  }

  // ---------------------------------------------------------------- the gateway

  function RoomsOf(rooms: map<SocketId, set<RoomId>>, s: SocketId): set<RoomId>
  {
    if s in rooms then rooms[s] else {}
  }

  /** The server state shared by every socket handler. */
  class Gateway {
    var presence: Presence
    var rooms: map<SocketId, set<RoomId>>
    var log: seq<Emission>
    const chats: ConversationStore
    const connections: ConnectionStore

    ghost predicate Valid()
      reads this, chats, connections
    {
      DistinctKeys(presence) && chats.Valid() && connections.Valid()
    }

    constructor (chats: ConversationStore, connections: ConnectionStore)
      requires chats.Valid() && connections.Valid()
      ensures Valid()
      ensures this.chats == chats && this.connections == connections
      ensures presence == [] && rooms == map[] && log == []
    {
      this.chats := chats;
      this.connections := connections;
      presence, rooms, log := [], map[], [];
    }

    /** `userOnline`: a missing or empty id is dropped; otherwise any entry of the
        user is deleted, the new one set, and the keys broadcast to everyone. */
    method UserOnline(sock: SocketId, userId: Option<string>)
      requires Valid()
      modifies this
      ensures Valid()
      ensures rooms == old(rooms)
      ensures userId.None? || userId.value == "" ==> presence == old(presence) && log == old(log)
      ensures userId.Some? && userId.value != "" ==>
        && presence == Register(old(presence), userId.value, sock)
        && log == old(log) + [Emission(Everyone, UsersOnline(Keys(presence)))]
    {
      if userId.None? || userId.value == "" {
        return;
      }
      var u := userId.value;
      var kept: Presence := [];
      var i := 0;
      while i < |presence|
        invariant 0 <= i <= |presence|
        invariant kept == WithoutUser(presence[..i], u)
      {
        assert presence[..i + 1][..i] == presence[..i];
        if presence[i].0 != u {
          kept := kept + [presence[i]];
        }
        i := i + 1;
      }
      assert presence[..i] == presence;
      RegisterReplacesEntry(presence, u, sock);
      presence := kept + [(u, sock)];
      log := log + [Emission(Everyone, UsersOnline(Keys(presence)))];
    }

    /** `joinChatRoom`: join the room named after the sorted pair. */
    method JoinChatRoom(sock: SocketId, userId: UserId, receiverId: UserId)
      requires Valid()
      modifies this
      ensures Valid()
      ensures presence == old(presence) && log == old(log)
      ensures rooms == old(rooms)[sock := RoomsOf(old(rooms), sock) + {RoomFor(userId, receiverId)}]
    {
      rooms := rooms[sock := RoomsOf(rooms, sock) + {RoomFor(userId, receiverId)}];
    }

    /** `joinReceiverRoom`: join the personal room named after the id. */
    method JoinReceiverRoom(sock: SocketId, receiverId: UserId)
      requires Valid()
      modifies this
      ensures Valid()
      ensures presence == old(presence) && log == old(log)
      ensures rooms == old(rooms)[sock := RoomsOf(old(rooms), sock) + {receiverId}]
    {
      rooms := rooms[sock := RoomsOf(rooms, sock) + {receiverId}];
    }

    /** `leaveRoom`. */
    method LeaveRoom(sock: SocketId, roomId: RoomId)
      requires Valid()
      modifies this
      ensures Valid()
      ensures presence == old(presence) && log == old(log)
      ensures rooms == old(rooms)[sock := RoomsOf(old(rooms), sock) - {roomId}]
    {
      rooms := rooms[sock := RoomsOf(rooms, sock) - {roomId}];
    }

    /** `sendMessage`: require an accepted connection between the pair, find or
        create the conversation, append, save, and notify the receiver's room.
        `chatId` and `msgId` are the ids the database assigns on save. */
    method SendMessage(sock: SocketId, userId: UserId, receiverId: UserId, text: string,
                       chatId: string, msgId: string, now: int)
      requires Valid()
      modifies this, chats
      ensures Valid()
      ensures presence == old(presence) && rooms == old(rooms)
      ensures !AcceptedBetween(connections.records, userId, receiverId) ==>
        && chats.chats == old(chats.chats)
        && log == old(log) + [Emission(ToSender(sock), Error("Failed to send message", "Connection not found"))]
      ensures AcceptedBetween(connections.records, userId, receiverId) ==>
        && chats.chats == AppendMessage(old(chats.chats), userId, receiverId, text, chatId, msgId, now)
        && log == old(log) + [Emission(ToRoom(receiverId),
             LastMessageUpdated(SavedChatId(old(chats.chats), userId, receiverId, chatId),
                                Message(msgId, userId, text, false, now)))]
    {
      if !AcceptedBetween(connections.records, userId, receiverId) {
        log := log + [Emission(ToSender(sock), Error("Failed to send message", "Connection not found"))];
        return;
      }
      if userId == receiverId {
        NoAcceptedSelfConnection(connections.records, userId);
        assert false;
      }
      var m := Message(msgId, userId, text, false, now);
      var found := FindChat(chats.chats, userId, receiverId);
      var chat;
      if found.None? {
        chat := Conversation(chatId, [userId, receiverId], []);
      } else {
        chat := chats.chats[found.value];
      }
      chat := chat.(messages := chat.messages + [m]);
      assert found.None? ==> chat.messages == [m];
      AppendKeepsStoreValid(chats.chats, userId, receiverId, text, chatId, msgId, now);
      if found.None? {
        chats.chats := chats.chats + [chat];
      } else {
        chats.chats := chats.chats[found.value := chat];
      }
      var saved := chat.messages[|chat.messages| - 1];
      log := log + [Emission(ToRoom(receiverId), LastMessageUpdated(chat.id, saved))];
    }

    /** `disconnect`: delete the first entry pointing at the socket, broadcast the
        keys; socket.io drops the socket's room memberships. */
    method Disconnect(sock: SocketId)
      requires Valid()
      modifies this
      ensures Valid()
      ensures presence == RemoveFirstSocket(old(presence), sock)
      ensures log == old(log) + [Emission(Everyone, UsersOnline(Keys(presence)))]
      ensures rooms == old(rooms) - {sock}
    {
      var i := 0;
      while i < |presence| && presence[i].1 != sock
        invariant 0 <= i <= |presence|
        invariant forall j :: 0 <= j < i ==> presence[j].1 != sock
      {
        i := i + 1;
      }
      RemoveFirstSocketAt(presence, sock, i);
      DisconnectRemovesAtMostOne(presence, sock);
      if i < |presence| {
        presence := presence[..i] + presence[i + 1..];
      }
      log := log + [Emission(Everyone, UsersOnline(Keys(presence)))];
      rooms := rooms - {sock};
    }
  }

  /** A user sending to themselves is always refused: the sender alone is told,
      and no conversation is created or changed. */
  method SendToSelfIsRefused(g: Gateway, sock: SocketId, u: UserId, text: string,
                             chatId: string, msgId: string, now: int)
    requires g.Valid()
    modifies g, g.chats
    ensures g.Valid()
    ensures g.chats.chats == old(g.chats.chats)
    ensures g.log == old(g.log) + [Emission(ToSender(sock), Error("Failed to send message", "Connection not found"))]
  {
    NoAcceptedSelfConnection(g.connections.records, u);
    g.SendMessage(sock, u, u, text, chatId, msgId, now);
  }
}
