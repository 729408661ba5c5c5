/** The Connection document: its status enum, required ids, timestamps and the
    pre-save guard against self-connections (src/models/connection.js). */
module ConnectionModel {
  import opened Common

  datatype Status = Interested | Accepted | Rejected

  function StatusName(s: Status): string
  {
    match s
    case Interested => "interested"
    case Accepted => "accepted"
    case Rejected => "rejected"
  }

  /** Casting a string against the status enum. */
  function ParseStatus(s: string): (r: Option<Status>)
    ensures r.Some? <==> s == "interested" || s == "accepted" || s == "rejected"
    ensures r.Some? ==> StatusName(r.value) == s
  {
    if s == "interested" then Some(Interested)
    else if s == "accepted" then Some(Accepted)
    else if s == "rejected" then Some(Rejected)
    else None
  }

  lemma StatusRoundTrip(st: Status)
    ensures ParseStatus(StatusName(st)) == Some(st)
  {
  }

  /** A stored connection; `timestamps: true` gives it createdAt and updatedAt. */
  datatype Connection = Connection(
    fromUserId: UserId,
    toUserId: UserId,
    status: Status,
    createdAt: int,
    updatedAt: int)

  /** A connection record about to be saved, with each field possibly absent. */
  datatype ConnectionDoc = ConnectionDoc(
    fromUserId: Option<UserId>,
    toUserId: Option<UserId>,
    status: Option<string>)

  datatype Path = FromPath | ToPath | StatusPath

  datatype SaveError =
    | Invalid(paths: set<Path>)   // schema validation: required fields and the enum
    | SelfConnection              // the pre-save hook

  /** The paths that fail schema validation. */
  function InvalidPaths(d: ConnectionDoc): (r: set<Path>)
    ensures FromPath in r <==> !Truthy(d.fromUserId)
    ensures ToPath in r <==> !Truthy(d.toUserId)
    ensures StatusPath in r <==> d.status.None? || ParseStatus(d.status.value).None?
  {
    (if Truthy(d.fromUserId) then {} else {FromPath})
    + (if Truthy(d.toUserId) then {} else {ToPath})
    + (if d.status.Some? && ParseStatus(d.status.value).Some? then {} else {StatusPath})
  }

  /** Saving a document: validation runs first, then the pre-save hook, and the
      stored record is stamped with `now` as both timestamps. */
  function Save(d: ConnectionDoc, now: int): (r: Result<Connection, SaveError>)
    ensures r.Success? <==> InvalidPaths(d) == {} && d.fromUserId != d.toUserId
    ensures r.Success? ==>
      && Some(r.value.fromUserId) == d.fromUserId
      && Some(r.value.toUserId) == d.toUserId
      && Some(StatusName(r.value.status)) == d.status
      && r.value.fromUserId != r.value.toUserId
      && r.value.createdAt == now && r.value.updatedAt == now
    ensures r.Failure? && InvalidPaths(d) == {} ==> r.error == SelfConnection
  {
    var bad := InvalidPaths(d);
    if bad != {} then Failure(Invalid(bad))
    else if d.fromUserId.value == d.toUserId.value then Failure(SelfConnection)
    else Success(Connection(d.fromUserId.value, d.toUserId.value,
                            ParseStatus(d.status.value).value, now, now))
  }

  /** Re-saving a stored record after its status changed: the same guard runs,
      createdAt is kept and updatedAt becomes `now`. */
  function Resave(c: Connection, status: Status, now: int): (r: Result<Connection, SaveError>)
    ensures r.Success? <==> c.fromUserId != c.toUserId && c.fromUserId != "" && c.toUserId != ""
    ensures r.Success? ==> r.value == c.(status := status, updatedAt := now)
  {
    match Save(ConnectionDoc(Some(c.fromUserId), Some(c.toUserId), Some(StatusName(status))), now)
    case Success(saved) => Success(saved.(createdAt := c.createdAt))
    case Failure(e) => Failure(e)
  }

  /** Every save, new or repeated, refuses a record whose two ends are the same user. */
  lemma NoSelfConnectionIsSaved(d: ConnectionDoc, now: int)
    requires d.fromUserId.Some? && d.fromUserId == d.toUserId
    ensures Save(d, now).Failure?
  {
  }
}
