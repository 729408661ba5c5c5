/** The discovery feed (src/routes/feed.js): every user except the viewer and
    anyone the viewer already has a connection record with, in either direction
    and whatever its status. */
module Feed {
  import opened Common
  import opened ConnectionModel
  import opened UserModel
  import opened ConnectionRoutes

  /** The query `$or: [{fromUserId: viewer}, {toUserId: viewer}]`. */
  predicate Involving(c: Connection, viewer: UserId)
  {
    c.fromUserId == viewer || c.toUserId == viewer
  }

  /** The end of an involving record that is not the viewer. */
  function Counterpart(c: Connection, viewer: UserId): UserId
  {
    if viewer != c.fromUserId then c.fromUserId else c.toUserId
  }

  /** The set `hideFromFeed` over the records in store order. */
  function HiddenIds(rs: seq<Connection>, viewer: UserId): (r: set<UserId>)
    ensures forall x :: x in r ==> ExistsBetween(rs, viewer, x)
  {
    if |rs| == 0 then {}
    else
      HiddenIds(rs[..|rs| - 1], viewer)
      + (if Involving(rs[|rs| - 1], viewer) then {Counterpart(rs[|rs| - 1], viewer)} else {})
  }

  /** A user is hidden exactly when some record links them with the viewer. */
  lemma {:induction false} HiddenIffConnected(rs: seq<Connection>, viewer: UserId, x: UserId)
    ensures x in HiddenIds(rs, viewer) <==> ExistsBetween(rs, viewer, x)
  {
    if |rs| > 0 {
      var init, last := rs[..|rs| - 1], rs[|rs| - 1];
      HiddenIffConnected(init, viewer, x);
      if ExistsBetween(init, viewer, x) {
        var i :| 0 <= i < |init| && Between(init[i], viewer, x);
        assert rs[i] == init[i];
      }
      if ExistsBetween(rs, viewer, x) && !Between(last, viewer, x) {
        var i :| 0 <= i < |rs| && Between(rs[i], viewer, x);
        assert i < |init| && init[i] == rs[i];
      }
      assert Involving(last, viewer) && Counterpart(last, viewer) == x <==> Between(last, viewer, x);
    }
  }

  /** The `hideFromFeed` loop over the viewer's records. */
  method HideFromFeed(rs: seq<Connection>, viewer: UserId) returns (hidden: set<UserId>)
    ensures hidden == HiddenIds(rs, viewer)
  {
    hidden := {};
    var i := 0;
    while i < |rs|
      invariant 0 <= i <= |rs|
      invariant hidden == HiddenIds(rs[..i], viewer)
    {
      assert rs[..i + 1][..i] == rs[..i];
      if Involving(rs[i], viewer) {
        hidden := hidden + {Counterpart(rs[i], viewer)};
      }
      i := i + 1;
    }
    assert rs[..i] == rs;
  }

  /** The projection `"name profilePhotos selectedInterests"` (with `_id`). */
  datatype FeedCard = FeedCard(
    id: UserId,
    name: Option<string>,
    profilePhotos: Option<seq<string>>,
    selectedInterests: Option<seq<string>>)

  function CardOf(u: User): FeedCard
  {
    FeedCard(u.id, u.doc.name, u.doc.profilePhotos, u.doc.selectedInterests)
  }

  /** Stored users have distinct ids (`_id` is the primary key). */
  predicate DistinctIds(users: seq<User>)
  {
    forall i, j :: 0 <= i < j < |users| ==> users[i].id != users[j].id
  }

  /** `User.find({_id: {$nin: excluded}})`, projected, in store order. */
  function FeedOf(users: seq<User>, excluded: set<UserId>): (r: seq<FeedCard>)
    ensures |r| <= |users|
    ensures forall card :: card in r <==> exists u :: u in users && u.id !in excluded && card == CardOf(u)
    ensures DistinctIds(users) ==> forall i, j :: 0 <= i < j < |r| ==> r[i].id != r[j].id
  {
    if |users| == 0 then []
    else
      var rest := FeedOf(users[1..], excluded);
      assert forall u :: u in users <==> u == users[0] || u in users[1..];
      assert DistinctIds(users) ==> forall card :: card in rest ==> card.id != users[0].id;
      if users[0].id in excluded then rest else [CardOf(users[0])] + rest
  }

  /** The response of `GET /feed` for the viewer. */
  function FeedFor(rs: seq<Connection>, users: seq<User>, viewer: UserId): (r: seq<FeedCard>)
    ensures |r| <= |users|
    ensures forall card :: card in r ==> card.id != viewer
    ensures DistinctIds(users) ==> forall i, j :: 0 <= i < j < |r| ==> r[i].id != r[j].id
  {
    FeedOf(users, HiddenIds(rs, viewer) + {viewer})
  }

  /** A user is in the feed exactly when they are not the viewer and no record, of
      any status and in either direction, links them with the viewer. */
  lemma FeedMembership(rs: seq<Connection>, users: seq<User>, viewer: UserId, u: User)
    requires u in users
    ensures CardOf(u) in FeedFor(rs, users, viewer) <==> u.id != viewer && !ExistsBetween(rs, viewer, u.id)
  {
    HiddenIffConnected(rs, viewer, u.id);
    if CardOf(u) in FeedFor(rs, users, viewer) {
      var w :| w in users && w.id !in HiddenIds(rs, viewer) + {viewer} && CardOf(u) == CardOf(w);
      assert w.id == u.id;
    }
  }

  /** No card in the feed belongs to the viewer or to anyone they are connected with. */
  lemma FeedExcludesKnownUsers(rs: seq<Connection>, users: seq<User>, viewer: UserId, card: FeedCard)
    requires card in FeedFor(rs, users, viewer)
    ensures card.id != viewer && !ExistsBetween(rs, viewer, card.id)
  {
    HiddenIffConnected(rs, viewer, card.id);
  }

  /** `GET /feed`: collect the ids to hide, then query the users. */
  method GetFeed(rs: seq<Connection>, users: seq<User>, viewer: UserId) returns (cards: seq<FeedCard>)
    ensures cards == FeedFor(rs, users, viewer)
    ensures forall card :: card in cards ==> (card.id != viewer && !ExistsBetween(rs, viewer, card.id))
    ensures forall u :: (u in users && u.id != viewer && !ExistsBetween(rs, viewer, u.id)) ==> CardOf(u) in cards
  {
    var hidden := HideFromFeed(rs, viewer);
    cards := FeedOf(users, hidden + {viewer});
    forall card | card in cards ensures card.id != viewer && !ExistsBetween(rs, viewer, card.id) {
      FeedExcludesKnownUsers(rs, users, viewer, card);
    }
    forall u | u in users && u.id != viewer && !ExistsBetween(rs, viewer, u.id) ensures CardOf(u) in cards {
      FeedMembership(rs, users, viewer, u);
    }
  }
}
