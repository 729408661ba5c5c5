/** The conversation store as socket.js and the chat routes use it: each
    conversation has a participant list and an ordered list of messages. */
module Conversations {
  import opened Common

  datatype Message = Message(
    id: string,
    senderId: UserId,
    text: string,
    isRead: bool,
    createdAt: int)

  datatype Conversation = Conversation(
    id: string,
    participants: seq<UserId>,
    messages: seq<Message>)

  /** The query `participants: { $all: [a, b] }`. */
  predicate Involves(c: Conversation, a: UserId, b: UserId)
  {
    a in c.participants && b in c.participants
  }

  /** `Chat.findOne` with `$all`: the first stored conversation holding both ids. */
  function FindChat(chats: seq<Conversation>, a: UserId, b: UserId): (r: Option<nat>)
    ensures r.Some? ==> r.value < |chats| && Involves(chats[r.value], a, b)
    ensures r.Some? ==> forall j :: 0 <= j < r.value ==> !Involves(chats[j], a, b)
    ensures r.None? <==> forall j :: 0 <= j < |chats| ==> !Involves(chats[j], a, b)
  {
    if |chats| == 0 then None
    else if Involves(chats[0], a, b) then Some(0)
    else match FindChat(chats[1..], a, b)
      case None => None
      case Some(k) => Some(k + 1)
  }

  predicate SamePair(p: seq<UserId>, q: seq<UserId>)
  {
    |p| == 2 && |q| == 2 &&
    ((p[0] == q[0] && p[1] == q[1]) || (p[0] == q[1] && p[1] == q[0]))
  }

  /** Every stored conversation is between two distinct users, and no unordered
      pair has two conversations. */
  ghost predicate StoreValid(chats: seq<Conversation>)
  {
    && (forall i :: 0 <= i < |chats| ==>
          |chats[i].participants| == 2 && chats[i].participants[0] != chats[i].participants[1])
    && (forall i, j :: 0 <= i < j < |chats| ==>
          !SamePair(chats[i].participants, chats[j].participants))
  }

  /** In a valid store a pair of distinct users has at most one conversation,
      so the one `findOne` returns is the only one. */
  lemma {:induction false} AtMostOneConversationPerPair(chats: seq<Conversation>, a: UserId, b: UserId, i: nat, j: nat)
    requires StoreValid(chats) && a != b
    requires i < |chats| && j < |chats|
    requires Involves(chats[i], a, b) && Involves(chats[j], a, b)
    ensures i == j
  {
    var p, q := chats[i].participants, chats[j].participants;
    assert p[0] != p[1] && q[0] != q[1];
    assert SamePair(p, q) && SamePair(q, p);
  }

  /** A message only ever gains its read flag; everything else stays as it was. */
  predicate MessageExtends(m: Message, m': Message)
  {
    && m'.id == m.id && m'.senderId == m.senderId && m'.text == m.text
    && m'.createdAt == m.createdAt && (m.isRead ==> m'.isRead)
  }

  /** A conversation keeps its id, its participants and the prefix of its messages. */
  predicate ConversationExtends(c: Conversation, c': Conversation)
  {
    && c'.id == c.id && c'.participants == c.participants
    && |c.messages| <= |c'.messages|
    && forall k :: 0 <= k < |c.messages| ==> MessageExtends(c.messages[k], c'.messages[k])
  }

  /** The store grows by appending and never loses or rewrites what it held. */
  predicate StoreExtends(s: seq<Conversation>, s': seq<Conversation>)
  {
    |s| <= |s'| && forall i :: 0 <= i < |s| ==> ConversationExtends(s[i], s'[i])
  }

  lemma StoreExtendsTransitive(s: seq<Conversation>, s': seq<Conversation>, s'': seq<Conversation>)
    requires StoreExtends(s, s') && StoreExtends(s', s'')
    ensures StoreExtends(s, s'')
  {
    forall i | 0 <= i < |s|
      ensures ConversationExtends(s[i], s''[i])
    {
      assert ConversationExtends(s[i], s'[i]) && ConversationExtends(s'[i], s''[i]);
      forall k | 0 <= k < |s[i].messages|
        ensures MessageExtends(s[i].messages[k], s''[i].messages[k])
      {
        assert MessageExtends(s[i].messages[k], s'[i].messages[k]);
        assert MessageExtends(s'[i].messages[k], s''[i].messages[k]);
      }
    }
  }

  /** Once a message is read it stays read across any extension of the store. */
  lemma ReadNeverReverts(s: seq<Conversation>, s': seq<Conversation>, i: nat, k: nat)
    requires StoreExtends(s, s')
    requires i < |s| && k < |s[i].messages| && s[i].messages[k].isRead
    ensures i < |s'| && k < |s'[i].messages| && s'[i].messages[k].isRead
  {
    assert ConversationExtends(s[i], s'[i]);
    assert MessageExtends(s[i].messages[k], s'[i].messages[k]);
  }

  /** The persisted conversations, shared by the socket gateway and the chat routes. */
  class ConversationStore {
    var chats: seq<Conversation>

    ghost predicate Valid()
      reads this
    {
      StoreValid(chats)
    }

    constructor ()
      ensures Valid() && chats == []
    {
      chats := [];
    }
  }
}
