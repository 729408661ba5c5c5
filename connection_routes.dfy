/** The connection-request routes (src/routes/connection.js): sending and
    reviewing requests, the pending-request list and the chat-list summary. */
module ConnectionRoutes {
  import opened Common
  import opened ConnectionModel
  import opened Conversations
  import opened UserModel

  /** The record links a and b, in either direction (the `$or` queries). */
  predicate Between(c: Connection, a: UserId, b: UserId)
  {
    (c.fromUserId == a && c.toUserId == b) || (c.fromUserId == b && c.toUserId == a)
  }

  predicate ExistsBetween(rs: seq<Connection>, a: UserId, b: UserId)
  {
    exists i :: 0 <= i < |rs| && Between(rs[i], a, b)
  }

  /** The authorisation query of the send pipeline: an accepted record for the pair. */
  predicate AcceptedBetween(rs: seq<Connection>, a: UserId, b: UserId)
  {
    exists i :: 0 <= i < |rs| && rs[i].status == Accepted && Between(rs[i], a, b)
  }

  /** What every stored record satisfies: it passed the save guard (non-empty,
      distinct ends), and no two records link the same pair. */
  ghost predicate RecordsValid(rs: seq<Connection>)
  {
    && (forall i :: 0 <= i < |rs| ==>
          rs[i].fromUserId != rs[i].toUserId && rs[i].fromUserId != "" && rs[i].toUserId != "")
    && (forall i, j :: 0 <= i < j < |rs| ==> !Between(rs[j], rs[i].fromUserId, rs[i].toUserId))
  }

  /** No user ever has an accepted connection with themselves. */
  lemma NoAcceptedSelfConnection(rs: seq<Connection>, u: UserId)
    requires RecordsValid(rs)
    ensures !AcceptedBetween(rs, u, u)
  {
    forall i | 0 <= i < |rs|
      ensures !(rs[i].status == Accepted && Between(rs[i], u, u))
    {
      assert rs[i].fromUserId != rs[i].toUserId;
    }
  }

  // ---------------------------------------------------------------- /send

  datatype SendError =
    | StatusRequired | TargetRequired | InvalidStatus | InvalidTarget
    | UserNotFound | SelfRequest | AlreadyExists | SendSaveFailed(e: SaveError)

  /** POST /send/:updateStatus/:toUserId: the checks in the order the route makes
      them, then the save of a new record. */
  function SendRequest(rs: seq<Connection>, users: seq<User>, viewer: UserId,
                       updateStatus: string, toUserId: string,
                       isValidId: string -> bool, now: int): (r: Result<Connection, SendError>)
    ensures r.Success? ==> viewer != toUserId && !ExistsBetween(rs, viewer, toUserId)
    ensures r.Success? ==> r.value.fromUserId == viewer && r.value.toUserId == toUserId
                           && r.value.status == Interested
  {
    if updateStatus == "" then Failure(StatusRequired)
    else if toUserId == "" then Failure(TargetRequired)
    else if updateStatus != "interested" then Failure(InvalidStatus)
    else if !isValidId(toUserId) then Failure(InvalidTarget)
    else if FindUser(users, toUserId).None? then Failure(UserNotFound)
    else if viewer == toUserId then Failure(SelfRequest)
    else if ExistsBetween(rs, viewer, toUserId) then Failure(AlreadyExists)
    else match Save(ConnectionDoc(Some(viewer), Some(toUserId), Some(updateStatus)), now)
      case Success(c) => Success(c)
      case Failure(e) => Failure(SendSaveFailed(e))
  }

  /** A request is created exactly when every check passes, and it is always a
      fresh `interested` record from the viewer to the target. */
  lemma SendSucceedsExactlyWhen(rs: seq<Connection>, users: seq<User>, viewer: UserId,
                                updateStatus: string, toUserId: string,
                                isValidId: string -> bool, now: int)
    ensures var r := SendRequest(rs, users, viewer, updateStatus, toUserId, isValidId, now);
      && (r.Success? <==>
            updateStatus == "interested" && isValidId(toUserId) && toUserId != ""
            && (exists u :: u in users && u.id == toUserId)
            && viewer != toUserId && viewer != "" && !ExistsBetween(rs, viewer, toUserId))
      && (r.Success? ==> r.value == Connection(viewer, toUserId, Interested, now, now))
  {
    var r := SendRequest(rs, users, viewer, updateStatus, toUserId, isValidId, now);
    if FindUser(users, toUserId).Some? {
      assert FindUser(users, toUserId).value in users;
    }
  }

  /** A successful send keeps the store free of self and duplicate records. */
  lemma SendKeepsRecordsValid(rs: seq<Connection>, users: seq<User>, viewer: UserId,
                              updateStatus: string, toUserId: string,
                              isValidId: string -> bool, now: int)
    requires RecordsValid(rs)
    requires SendRequest(rs, users, viewer, updateStatus, toUserId, isValidId, now).Success?
    ensures RecordsValid(rs + [SendRequest(rs, users, viewer, updateStatus, toUserId, isValidId, now).value])
  {
    var c := SendRequest(rs, users, viewer, updateStatus, toUserId, isValidId, now).value;
    var rs' := rs + [c];
    forall i, j | 0 <= i < j < |rs'|
      ensures !Between(rs'[j], rs'[i].fromUserId, rs'[i].toUserId)
    {
      if j == |rs| {
        assert rs'[i] == rs[i];
        assert !Between(rs[i], viewer, toUserId);
      }
    }
  }

  // ---------------------------------------------------------------- /review

  datatype ReviewError =
    | ReviewStatusRequired | SourceRequired | ReviewInvalidStatus | InvalidSource
    | SelfReview | RequestNotFound | ReviewSaveFailed(e: SaveError)

  /** The first pending request from `from` to `to`. */
  function FindPending(rs: seq<Connection>, from: UserId, to: UserId): (r: Option<nat>)
    ensures r.Some? ==> r.value < |rs| && rs[r.value].fromUserId == from
                        && rs[r.value].toUserId == to && rs[r.value].status == Interested
    ensures r.Some? ==> forall j :: 0 <= j < r.value ==>
      !(rs[j].fromUserId == from && rs[j].toUserId == to && rs[j].status == Interested)
    ensures r.None? <==> forall j :: 0 <= j < |rs| ==>
      !(rs[j].fromUserId == from && rs[j].toUserId == to && rs[j].status == Interested)
  {
    if |rs| == 0 then None
    else if rs[0].fromUserId == from && rs[0].toUserId == to && rs[0].status == Interested then Some(0)
    else match FindPending(rs[1..], from, to)
      case None => None
      case Some(k) => Some(k + 1)
  }

  /** PATCH /review/:updateStatus/:fromUserId: which record changes and how. */
  function ReviewRequest(rs: seq<Connection>, viewer: UserId, updateStatus: string,
                         fromUserId: string, isValidId: string -> bool,
                         now: int): (r: Result<(nat, Connection), ReviewError>)
    ensures r.Success? ==> r.value.0 < |rs| && rs[r.value.0].toUserId == viewer
                           && rs[r.value.0].fromUserId == fromUserId && rs[r.value.0].status == Interested
    ensures r.Success? ==> r.value.1.status in {Accepted, Rejected}
  {
    if updateStatus == "" then Failure(ReviewStatusRequired)
    else if fromUserId == "" then Failure(SourceRequired)
    else if updateStatus != "accepted" && updateStatus != "rejected" then Failure(ReviewInvalidStatus)
    else if !isValidId(fromUserId) then Failure(InvalidSource)
    else if viewer == fromUserId then Failure(SelfReview)
    else match FindPending(rs, fromUserId, viewer)
      case None => Failure(RequestNotFound)
      case Some(k) =>
        match Resave(rs[k], ParseStatus(updateStatus).value, now)
        case Success(c) => Success((k, c))
        case Failure(e) => Failure(ReviewSaveFailed(e))
  }

  /** Only the recipient of a pending request can settle it, only to accepted or
      rejected, and only its status and update time change. */
  lemma ReviewChangesOnlyThatStatus(rs: seq<Connection>, viewer: UserId, updateStatus: string,
                                    fromUserId: string, isValidId: string -> bool, now: int)
    requires RecordsValid(rs)
    ensures var r := ReviewRequest(rs, viewer, updateStatus, fromUserId, isValidId, now);
      && (r.Success? <==>
            (updateStatus == "accepted" || updateStatus == "rejected") && isValidId(fromUserId)
            && fromUserId != viewer
            && exists j :: 0 <= j < |rs| && rs[j].fromUserId == fromUserId
                           && rs[j].toUserId == viewer && rs[j].status == Interested)
      && (r.Success? ==>
            var (k, c) := r.value;
            && k < |rs| && rs[k].fromUserId == fromUserId && rs[k].toUserId == viewer
            && rs[k].status == Interested
            && c == rs[k].(status := ParseStatus(updateStatus).value, updatedAt := now)
            && c.status != Interested)
  {
    var k := FindPending(rs, fromUserId, viewer);
    if k.Some? {
      assert rs[k.value].fromUserId != rs[k.value].toUserId;
    }
  }

  lemma ReviewKeepsRecordsValid(rs: seq<Connection>, viewer: UserId, updateStatus: string,
                                fromUserId: string, isValidId: string -> bool, now: int)
    requires RecordsValid(rs)
    requires ReviewRequest(rs, viewer, updateStatus, fromUserId, isValidId, now).Success?
    ensures var (k, c) := ReviewRequest(rs, viewer, updateStatus, fromUserId, isValidId, now).value;
      k < |rs| && RecordsValid(rs[k := c])
  {
    ReviewChangesOnlyThatStatus(rs, viewer, updateStatus, fromUserId, isValidId, now);
    var (k, c) := ReviewRequest(rs, viewer, updateStatus, fromUserId, isValidId, now).value;
    var rs' := rs[k := c];
    forall i, j | 0 <= i < j < |rs'|
      ensures !Between(rs'[j], rs'[i].fromUserId, rs'[i].toUserId)
    {
      assert Between(rs'[j], rs'[i].fromUserId, rs'[i].toUserId)
         <==> Between(rs[j], rs[i].fromUserId, rs[i].toUserId);
    }
  }

  /** The Connection collection, updated in place by the two mutating routes. */
  class ConnectionStore {
    var records: seq<Connection>

    ghost predicate Valid()
      reads this
    {
      RecordsValid(records)
    }

    constructor ()
      ensures Valid() && records == []
    {
      records := [];
    }

    /** POST /send/:updateStatus/:toUserId. */
    method Send(viewer: UserId, updateStatus: string, toUserId: string, users: seq<User>,
                isValidId: string -> bool, now: int) returns (r: Result<Connection, SendError>)
      requires Valid()
      modifies this
      ensures Valid()
      ensures r == SendRequest(old(records), users, viewer, updateStatus, toUserId, isValidId, now)
      ensures r.Success? ==> records == old(records) + [r.value]
      ensures r.Failure? ==> records == old(records)
    {
      r := SendRequest(records, users, viewer, updateStatus, toUserId, isValidId, now);
      if r.Success? {
        SendKeepsRecordsValid(records, users, viewer, updateStatus, toUserId, isValidId, now);
        records := records + [r.value];
      }
    }

    /** PATCH /review/:updateStatus/:fromUserId: `existingConnection.status = ...; save()`. */
    method Review(viewer: UserId, updateStatus: string, fromUserId: string,
                  isValidId: string -> bool, now: int) returns (r: Result<Connection, ReviewError>)
      requires Valid()
      modifies this
      ensures Valid()
      ensures var spec := ReviewRequest(old(records), viewer, updateStatus, fromUserId, isValidId, now);
        && (spec.Success? ==> r == Success(spec.value.1) && records == old(records)[spec.value.0 := spec.value.1])
        && (spec.Failure? ==> r == Failure(spec.error) && records == old(records))
    {
      var spec := ReviewRequest(records, viewer, updateStatus, fromUserId, isValidId, now);
      match spec
      case Success(kc) =>
        ReviewKeepsRecordsValid(records, viewer, updateStatus, fromUserId, isValidId, now);
        records := records[kc.0 := kc.1];
        r := Success(kc.1);
      case Failure(e) =>
        r := Failure(e);
    }
  }

  // ---------------------------------------------------------------- /requests

  /** GET /requests: the pending requests addressed to the viewer, in store order. */
  function Requests(rs: seq<Connection>, viewer: UserId): (r: seq<Connection>)
    ensures |r| <= |rs|
    ensures forall c :: c in r <==> c in rs && c.status == Interested && c.toUserId == viewer
    ensures forall c :: multiset(r)[c] == if c.status == Interested && c.toUserId == viewer then multiset(rs)[c] else 0
  {
    if |rs| == 0 then []
    else
      var rest := Requests(rs[1..], viewer);
      assert rs == [rs[0]] + rs[1..];
      assert forall c :: c in rs <==> c == rs[0] || c in rs[1..];
      if rs[0].status == Interested && rs[0].toUserId == viewer then [rs[0]] + rest else rest
  }

  // ---------------------------------------------------------------- /connections

  /** The accepted records the viewer takes part in, in store order. */
  function AcceptedFor(rs: seq<Connection>, viewer: UserId): (r: seq<Connection>)
    ensures |r| <= |rs|
    ensures forall c :: c in r <==>
      c in rs && c.status == Accepted && (c.fromUserId == viewer || c.toUserId == viewer)
    ensures forall c :: multiset(r)[c] ==
                       (if c.status == Accepted && (c.fromUserId == viewer || c.toUserId == viewer) then multiset(rs)[c] else 0)
  {
    if |rs| == 0 then []
    else
      var rest := AcceptedFor(rs[1..], viewer);
      assert rs == [rs[0]] + rs[1..];
      assert forall c :: c in rs <==> c == rs[0] || c in rs[1..];
      if rs[0].status == Accepted && (rs[0].fromUserId == viewer || rs[0].toUserId == viewer)
      then [rs[0]] + rest else rest
  }

  datatype Summary = Summary(connection: Connection, lastMessage: Option<Message>, unreadCount: nat)

  /** A message the viewer has not seen: someone else sent it and it is unread. */
  predicate UnreadFor(m: Message, viewer: UserId)
  {
    m.senderId != viewer && !m.isRead
  }

  function UnreadCount(ms: seq<Message>, viewer: UserId): nat
  {
    if |ms| == 0 then 0
    else UnreadCount(ms[..|ms| - 1], viewer) + (if UnreadFor(ms[|ms| - 1], viewer) then 1 else 0)
  }

  /** The count equals the number of positions holding a message unread for the viewer. */
  lemma {:induction false} UnreadCountIsSize(ms: seq<Message>, viewer: UserId)
    ensures UnreadCount(ms, viewer) == |set i | 0 <= i < |ms| && UnreadFor(ms[i], viewer)|
  {
    if |ms| > 0 {
      var n := |ms| - 1;
      var p := ms[..n];
      UnreadCountIsSize(p, viewer);
      var sp := set i | 0 <= i < |p| && UnreadFor(p[i], viewer);
      var s := set i | 0 <= i < |ms| && UnreadFor(ms[i], viewer);
      if UnreadFor(ms[n], viewer) {
        assert s == sp + {n};
      } else {
        assert s == sp;
      }
    }
  }

  /** Once every message of a conversation is read, nobody has anything unread in it. */
  lemma {:induction false} AllReadMeansNoneUnread(ms: seq<Message>, viewer: UserId)
    requires forall i :: 0 <= i < |ms| ==> ms[i].isRead
    ensures UnreadCount(ms, viewer) == 0
  {
    if |ms| > 0 {
      AllReadMeansNoneUnread(ms[..|ms| - 1], viewer);
    }
  }

  /** The messages of the pair's conversation, or none when it does not exist. */
  function PairMessages(chats: seq<Conversation>, a: UserId, b: UserId): seq<Message>
  {
    match FindChat(chats, a, b)
    case None => []
    case Some(k) => chats[k].messages
  }

  /** One row of the chat list: the record, its conversation's last message and
      how many of its messages are unread for the viewer. */
  function Summarize(c: Connection, chats: seq<Conversation>, viewer: UserId): (s: Summary)
    ensures s.connection == c
    ensures var ms := PairMessages(chats, c.fromUserId, c.toUserId);
      && (s.lastMessage.None? <==> |ms| == 0)
      && (s.lastMessage.Some? ==> s.lastMessage.value == ms[|ms| - 1])
      && s.unreadCount == |set i | 0 <= i < |ms| && UnreadFor(ms[i], viewer)|
  {
    var ms := PairMessages(chats, c.fromUserId, c.toUserId);
    UnreadCountIsSize(ms, viewer);
    Summary(c, if |ms| > 0 then Some(ms[|ms| - 1]) else None, UnreadCount(ms, viewer))
  }

  /** The sort key: the last message's time, else the record's creation time. */
  function RecencyKey(s: Summary): int
  {
    if s.lastMessage.Some? then s.lastMessage.value.createdAt else s.connection.createdAt
  }

  predicate MostRecentFirst(s: seq<Summary>)
  {
    forall i, j :: 0 <= i < j < |s| ==> RecencyKey(s[i]) >= RecencyKey(s[j])
  }

  /** Places x ahead of the first row that is not more recent than it. */
  function InsertByRecency(x: Summary, s: seq<Summary>): seq<Summary>
  {
    if |s| == 0 then [x]
    else if RecencyKey(s[0]) <= RecencyKey(x) then [x] + s
    else [s[0]] + InsertByRecency(x, s[1..])
  }

  lemma {:induction false} InsertByRecencyPermutes(x: Summary, s: seq<Summary>)
    ensures multiset(InsertByRecency(x, s)) == multiset(s) + multiset{x}
  {
    if |s| > 0 && RecencyKey(s[0]) > RecencyKey(x) {
      InsertByRecencyPermutes(x, s[1..]);
      assert s == [s[0]] + s[1..];
    }
  }

  /** Inserting into a list sorted most recent first keeps it sorted. */
  lemma {:induction false} InsertByRecencySorted(x: Summary, s: seq<Summary>)
    requires MostRecentFirst(s)
    ensures MostRecentFirst(InsertByRecency(x, s))
  {
    if |s| > 0 && RecencyKey(s[0]) > RecencyKey(x) {
      var rest := InsertByRecency(x, s[1..]);
      InsertByRecencySorted(x, s[1..]);
      InsertByRecencyPermutes(x, s[1..]);
      forall j | 0 <= j < |rest| ensures RecencyKey(rest[j]) <= RecencyKey(s[0]) {
        assert rest[j] in multiset(rest);
        assert rest[j] == x || rest[j] in multiset(s[1..]);
      }
      var r := [s[0]] + rest;
      forall a, b | 0 <= a < b < |r| ensures RecencyKey(r[a]) >= RecencyKey(r[b]) {
        if a > 0 { assert r[a] == rest[a - 1] && r[b] == rest[b - 1]; }
        else { assert r[b] == rest[b - 1]; }
      }
    }
  }

  /** `formattedConnections.sort(...)`: most recent first. */
  function SortByRecency(s: seq<Summary>): (r: seq<Summary>)
    ensures multiset(r) == multiset(s)
    ensures MostRecentFirst(r)
  {
    if |s| == 0 then []
    else
      assert s == [s[0]] + s[1..];
      var rest := SortByRecency(s[1..]);
      InsertByRecencyPermutes(s[0], rest);
      InsertByRecencySorted(s[0], rest);
      InsertByRecency(s[0], rest)
  }

  function SummarizeAll(cs: seq<Connection>, chats: seq<Conversation>, viewer: UserId): (r: seq<Summary>)
    ensures |r| == |cs|
    ensures forall i :: 0 <= i < |cs| ==> r[i] == Summarize(cs[i], chats, viewer)
  {
    seq(|cs|, i requires 0 <= i < |cs| => Summarize(cs[i], chats, viewer))
  }

  /** GET /connections: one summary per accepted record of the viewer, most recent first. */
  function Connections(rs: seq<Connection>, chats: seq<Conversation>, viewer: UserId): (r: seq<Summary>)
    ensures MostRecentFirst(r)
    ensures |r| == |AcceptedFor(rs, viewer)|
    ensures multiset(r) == multiset(SummarizeAll(AcceptedFor(rs, viewer), chats, viewer))
    ensures forall s :: s in r ==>
      && s.connection in rs && s.connection.status == Accepted
      && (s.connection.fromUserId == viewer || s.connection.toUserId == viewer)
      && s == Summarize(s.connection, chats, viewer)
    ensures forall c ::
      (c in rs && c.status == Accepted && (c.fromUserId == viewer || c.toUserId == viewer))
      ==> Summarize(c, chats, viewer) in r
  {
    var cs := AcceptedFor(rs, viewer);
    var m := SummarizeAll(cs, chats, viewer);
    SummariesCover(cs, chats, viewer);
    SortKeepsMembers(m);
    SortByRecency(m)
  }

  lemma SortKeepsMembers(m: seq<Summary>)
    ensures |SortByRecency(m)| == |m|
    ensures forall s :: s in SortByRecency(m) <==> s in m
  {
    var r := SortByRecency(m);
    assert |multiset(r)| == |multiset(m)|;
    forall s ensures s in r <==> s in m {
      assert s in r <==> s in multiset(r);
      assert s in m <==> s in multiset(m);
    }
  }

  lemma SummariesCover(cs: seq<Connection>, chats: seq<Conversation>, viewer: UserId)
    ensures forall s :: s in SummarizeAll(cs, chats, viewer) ==>
      s.connection in cs && s == Summarize(s.connection, chats, viewer)
    ensures forall c :: c in cs ==> Summarize(c, chats, viewer) in SummarizeAll(cs, chats, viewer)
  {
    var m := SummarizeAll(cs, chats, viewer);
    forall c | c in cs
      ensures Summarize(c, chats, viewer) in m
    {
      var i :| 0 <= i < |cs| && cs[i] == c;
      assert m[i] == Summarize(c, chats, viewer);
    }
    forall s | s in m
      ensures s.connection in cs && s == Summarize(s.connection, chats, viewer)
    {
      var i :| 0 <= i < |m| && m[i] == s;
      assert s == Summarize(cs[i], chats, viewer);
    }
  }
}
