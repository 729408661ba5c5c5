/** The User document and the constraints its schema places on each field
    (src/models/user.js). */
module UserModel {
  import opened Common
  import opened Strings

  /** The fields of a user as a request body carries them; any may be absent. */
  datatype UserDoc = UserDoc(
    name: Option<string>,
    email: Option<string>,
    password: Option<string>,
    address: Option<string>,
    dob: Option<Date>,          // None: absent, or a value that does not parse as a date
    gender: Option<string>,
    selectedInterests: Option<seq<string>>,
    profilePhotos: Option<seq<string>>)

  /** A stored user: its id and its (normalised) fields. */
  datatype User = User(id: UserId, doc: UserDoc)

  function MapOpt(o: Option<string>, f: string -> string): Option<string>
  {
    match o
    case None => None
    case Some(s) => Some(f(s))
  }

  /** The schema's setters: `name` and `address` are trimmed, `email` lowercased and trimmed. */
  function ApplySetters(d: UserDoc): (r: UserDoc)
    ensures r.name.Some? <==> d.name.Some?
    ensures r.name.Some? ==> r.name.value == Trim(d.name.value)
    ensures r.email.Some? <==> d.email.Some?
    ensures r.email.Some? ==> r.email.value == Trim(ToLower(d.email.value))
    ensures r.address.Some? <==> d.address.Some?
    ensures r.address.Some? ==> r.address.value == Trim(d.address.value)
    ensures r.password == d.password && r.dob == d.dob && r.gender == d.gender
    ensures r.selectedInterests == d.selectedInterests && r.profilePhotos == d.profilePhotos
  {
    d.(name := MapOpt(d.name, Trim),
       email := MapOpt(d.email, s => Trim(ToLower(s))),
       address := MapOpt(d.address, Trim))
  }

  /** Setting the same document twice changes nothing more. */
  lemma ApplySettersIdempotent(d: UserDoc)
    ensures ApplySetters(ApplySetters(d)) == ApplySetters(d)
  {
    if d.name.Some? { TrimIdempotent(d.name.value); }
    if d.address.Some? { TrimIdempotent(d.address.value); }
    if d.email.Some? {
      var e := Trim(ToLower(d.email.value));
      TrimLowerStable(ToLower(d.email.value));
      assert ToLower(e) == e;
      TrimIdempotent(ToLower(d.email.value));
    }
  }

  /** A string without upper-case letters is its own lower-case form. */
  lemma LowerFixed(t: string)
    requires forall i :: 0 <= i < |t| ==> !IsUpper(t[i])
    ensures ToLower(t) == t
  {
    assert forall i :: 0 <= i < |t| ==> ToLower(t)[i] == t[i];
  }

  /** Trimming a lower-case string leaves it lower-case. */
  lemma TrimLowerStable(s: string)
    requires ToLower(s) == s
    ensures ToLower(Trim(s)) == Trim(s)
  {
    var k := |s| - |TrimStart(s)|;
    LowerInfix(s, k, k + |Trim(s)|);
  }

  /** Every infix of a lower-case string is lower-case. */
  lemma LowerInfix(s: string, lo: nat, hi: nat)
    requires ToLower(s) == s && lo <= hi <= |s|
    ensures ToLower(s[lo..hi]) == s[lo..hi]
  {
    var t := s[lo..hi];
    forall i | 0 <= i < |t| ensures !IsUpper(t[i]) {
      assert t[i] == s[lo + i];
      assert s[lo + i] == ToLower(s)[lo + i];
    }
    LowerFixed(t);
  }

  datatype UserPath =
    | NamePath | EmailPath | PasswordPath | AddressPath | DobPath
    | GenderPath | InterestsPath | PhotosPath

  function Count(o: Option<seq<string>>): nat
  {
    if o.Some? then |o.value| else 0
  }

  /** Field-level validity of an already-normalised document. */
  predicate NameValid(d: UserDoc)
  {
    Truthy(d.name) && 4 <= |d.name.value| <= 20
  }

  predicate EmailValid(d: UserDoc, isEmail: string -> bool)
  {
    Truthy(d.email) && isEmail(d.email.value)
  }

  predicate GenderValid(d: UserDoc)
  {
    d.gender.Some? && d.gender.value in ["Male", "Female", "Other"]
  }

  /** Every path that fails validation; Mongoose reports them all at once.
      An absent array defaults to the empty one, which its validator rejects. */
  function SchemaErrors(d: UserDoc, isEmail: string -> bool): (r: set<UserPath>)
    ensures NamePath in r <==> !NameValid(d)
    ensures EmailPath in r <==> !EmailValid(d, isEmail)
    ensures PasswordPath in r <==> !Truthy(d.password)
    ensures AddressPath in r <==> !Truthy(d.address)
    ensures DobPath in r <==> d.dob.None?
    ensures GenderPath in r <==> !GenderValid(d)
    ensures InterestsPath in r <==> Count(d.selectedInterests) < 3
    ensures PhotosPath in r <==> Count(d.profilePhotos) != 3
  {
    (if NameValid(d) then {} else {NamePath})
    + (if EmailValid(d, isEmail) then {} else {EmailPath})
    + (if Truthy(d.password) then {} else {PasswordPath})
    + (if Truthy(d.address) then {} else {AddressPath})
    + (if d.dob.Some? then {} else {DobPath})
    + (if GenderValid(d) then {} else {GenderPath})
    + (if Count(d.selectedInterests) >= 3 then {} else {InterestsPath})
    + (if Count(d.profilePhotos) == 3 then {} else {PhotosPath})
  }

  datatype UserSaveError = ValidationFailed(paths: set<UserPath>) | DuplicateEmail

  ghost predicate EmailsUnique(users: seq<User>)
  {
    forall i, j :: 0 <= i < j < |users| ==> users[i].doc.email != users[j].doc.email
  }

  /** Creating a user: setters, then validation, then the unique index on email. */
  function Insert(users: seq<User>, id: UserId, d: UserDoc, isEmail: string -> bool): (r: Result<seq<User>, UserSaveError>)
    ensures r.Success? <==>
      SchemaErrors(ApplySetters(d), isEmail) == {} &&
      forall u :: u in users ==> u.doc.email != ApplySetters(d).email
    ensures r.Success? ==> r.value == users + [User(id, ApplySetters(d))]
    ensures r.Failure? && SchemaErrors(ApplySetters(d), isEmail) != {} ==>
      r.error == ValidationFailed(SchemaErrors(ApplySetters(d), isEmail))
  {
    var n := ApplySetters(d);
    var bad := SchemaErrors(n, isEmail);
    if bad != {} then Failure(ValidationFailed(bad))
    else if exists u :: u in users && u.doc.email == n.email then Failure(DuplicateEmail)
    else Success(users + [User(id, n)])
  }

  /** The unique index keeps every stored email distinct. */
  lemma InsertKeepsEmailsUnique(users: seq<User>, id: UserId, d: UserDoc, isEmail: string -> bool)
    requires EmailsUnique(users)
    requires Insert(users, id, d, isEmail).Success?
    ensures EmailsUnique(Insert(users, id, d, isEmail).value)
  {
    AppendKeepsEmailsUnique(users, User(id, ApplySetters(d)));
  }

  /** Appending a user whose email no stored user has keeps emails distinct. */
  lemma AppendKeepsEmailsUnique(users: seq<User>, u: User)
    requires EmailsUnique(users)
    requires forall v :: v in users ==> v.doc.email != u.doc.email
    ensures EmailsUnique(users + [u])
  {
    var r := users + [u];
    forall i, j | 0 <= i < j < |r| ensures r[i].doc.email != r[j].doc.email {
      if j == |users| {
        assert r[i] in users;
      }
    }
  }

  /** `User.findById`: the first user with that id. */
  function FindUser(users: seq<User>, id: UserId): (r: Option<User>)
    ensures r.Some? ==> r.value in users && r.value.id == id
    ensures r.None? <==> forall u :: u in users ==> u.id != id
  {
    if |users| == 0 then None
    else if users[0].id == id then Some(users[0])
    else FindUser(users[1..], id)
  }
}
