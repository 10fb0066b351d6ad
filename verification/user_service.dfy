/** The user operations over the store. Emails are compared and stored in
    normalised form: lower-cased, then trimmed. */
module UserService {
  import opened Wrappers
  import opened Primitives
  import opened Text
  import opened Store
  import D = Domain
  import ResumeService

  /** `email.ToLowerInvariant().Trim()`: the lower-cased email with the white
      space at both ends cut off. */
  function Normalize(email: string): (n: string)
    ensures exists i, j :: (0 <= i <= j <= |email| && n == ToLower(email)[i..j]
                            && AllWhiteSpace(email[..i]) && AllWhiteSpace(email[j..]))
    ensures forall k :: 0 <= k < |n| ==> !IsUpper(n[k])
    ensures n == [] <==> AllWhiteSpace(email)
    ensures n == [] || (!IsWhiteSpace(n[0]) && !IsWhiteSpace(n[|n| - 1]))
    ensures |n| <= |email|
  {
    var n := Trim(ToLower(email));
    TrimmedLower(email, n);
    n
  }

  /** What `Trim` promises about the lower-cased text, restated in terms of
      the email itself. */
  lemma TrimmedLower(email: string, n: string)
    requires exists i, j :: (0 <= i <= j <= |email| && n == ToLower(email)[i..j]
                             && AllWhiteSpace(ToLower(email)[..i]) && AllWhiteSpace(ToLower(email)[j..]))
    requires n == [] <==> AllWhiteSpace(ToLower(email))
    ensures exists i, j :: (0 <= i <= j <= |email| && n == ToLower(email)[i..j]
                            && AllWhiteSpace(email[..i]) && AllWhiteSpace(email[j..]))
    ensures forall k :: 0 <= k < |n| ==> !IsUpper(n[k])
    ensures n == [] <==> AllWhiteSpace(email)
  {
    var i, j :| 0 <= i <= j <= |email| && n == ToLower(email)[i..j]
      && AllWhiteSpace(ToLower(email)[..i]) && AllWhiteSpace(ToLower(email)[j..]);
    LowerSliceAt(email, n, i, j);
    ToLowerSlice(email, 0, |email|);
    ToLowerAllWhiteSpace(email);
  }

  lemma LowerSliceAt(email: string, n: string, i: nat, j: nat)
    requires i <= j <= |email| && n == ToLower(email)[i..j]
    requires AllWhiteSpace(ToLower(email)[..i]) && AllWhiteSpace(ToLower(email)[j..])
    ensures AllWhiteSpace(email[..i]) && AllWhiteSpace(email[j..])
    ensures forall k :: 0 <= k < |n| ==> !IsUpper(n[k])
  {
    ToLowerSlice(email, 0, i);
    ToLowerSlice(email, j, |email|);
    ToLowerSlice(email, i, j);
    ToLowerAllWhiteSpace(email[..i]);
    ToLowerAllWhiteSpace(email[j..]);
  }

  /** Normalising twice is normalising once. */
  lemma NormalizeIdempotent(email: string)
    ensures Normalize(Normalize(email)) == Normalize(email)
  {
    var l := ToLower(email);
    ToLowerTrim(l);
    ToLowerIdempotent(email);
    TrimIdempotent(l);
  }

  /** The id of the user stored under the normalised email, if any; `None`
      for a null or blank email. */
  function FindUserId(db: Db, email: Option<string>): (r: Option<Guid>)
    requires Valid(db)
    ensures IsNullOrWhiteSpace(email) ==> r == None
    ensures r.Some? ==> r.value in db.users && db.users[r.value].email == Normalize(email.value)
    ensures r.None? && !IsNullOrWhiteSpace(email) ==>
      forall id :: id in db.users ==> db.users[id].email != Normalize(email.value)
  {
    if IsNullOrWhiteSpace(email) then None
    else
      var n := Normalize(email.value);
      if n in db.emailIndex then Some(db.emailIndex[n]) else None
  }

  /** The user with the given id, with its resumes. */
  function GetUserById(db: Db, id: Guid): (r: Option<D.User>)
    requires Valid(db)
    ensures r.Some? <==> id in db.users
    ensures r.Some? ==> r.value.id == id && r.value.email == db.users[id].email
    ensures r.Some? ==> r.value.resumes == ResumeService.GetResumesByUserId(db, id)
  {
    if id in db.users then
      Some(D.User(id, db.users[id].email, ResumeService.GetResumesByUserId(db, id)))
    else
      None
  }

  /** The user stored under the normalised email, with its resumes; `None`
      for a null or blank email. */
  function GetUserByEmail(db: Db, email: Option<string>): (r: Option<D.User>)
    requires Valid(db)
    ensures IsNullOrWhiteSpace(email) ==> r == None
    ensures !IsNullOrWhiteSpace(email) ==>
      (r.Some? <==> exists id :: id in db.users && db.users[id].email == Normalize(email.value))
    ensures r.Some? ==> r.value.id in db.users && r.value.email == Normalize(email.value)
  {
    match FindUserId(db, email)
    case None => None
    case Some(id) => GetUserById(db, id)
  }

  /** Registers a new user under the normalised email and a freshly generated
      id (`newId` stands for `Guid.NewGuid()`). */
  function CreateUser(db: Db, email: Option<string>, newId: Guid): (r: Reply<D.User>)
    requires Valid(db)
    ensures Valid(r.db)
    ensures IsNullOrWhiteSpace(email) ==> r == Reply(Failure(InvalidArgument), db)
    ensures !IsNullOrWhiteSpace(email) && FindUserId(db, email).Some? ==> r == Reply(Failure(AlreadyExists), db)
    ensures r.result.Failure? ==> r.db == db
    ensures r.result.Success? <==>
      && !IsNullOrWhiteSpace(email) && FindUserId(db, email).None?
      && newId !in db.users && |Normalize(email.value)| <= MaxEmailLength
    ensures r.result.Success? ==>
      && r.result.value == D.User(newId, Normalize(email.value), [])
      && r.result.value.email != []
      && r.db.users == db.users[newId := UserRow(Normalize(email.value))]
      && r.db.resumes == db.resumes && r.db.quizzes == db.quizzes
  {
    if IsNullOrWhiteSpace(email) then
      Reply(Failure(InvalidArgument), db)
    else if FindUserId(db, email).Some? then
      Reply(Failure(AlreadyExists), db)
    else
      var n := Normalize(email.value);
      if newId in db.users || |n| > MaxEmailLength then
        Reply(Failure(StoreFailure), db)
      else
        Reply(Success(D.User(newId, n, [])), AddUser(db, newId, n))
  }

  /** Returns the user stored under the email, or creates one. */
  function GetOrCreateUser(db: Db, email: Option<string>, newId: Guid): (r: Reply<D.User>)
    requires Valid(db)
    ensures Valid(r.db)
    ensures GetUserByEmail(db, email).Some? ==> r == Reply(Success(GetUserByEmail(db, email).value), db)
    ensures GetUserByEmail(db, email).None? ==> r == CreateUser(db, email, newId)
    ensures |r.db.users| <= |db.users| + 1
  {
    match GetUserByEmail(db, email)
    case Some(u) => Reply(Success(u), db)
    case None => CreateUser(db, email, newId)
  }

  // ---- Properties across operations -----------------------------------------

  /** Looking a user up by email is looking up the id the email index names. */
  lemma LookupByEmailIsById(db: Db, email: Option<string>)
    requires Valid(db)
    requires FindUserId(db, email).Some?
    ensures GetUserByEmail(db, email) == GetUserById(db, FindUserId(db, email).value)
  {
  }

  /** A user id that is not in the store owns no resume. */
  lemma FreshUserOwnsNothing(db: Db, id: Guid)
    requires Valid(db)
    requires id !in db.users
    ensures OwnedResumeIds(db, id) == {}
  {
  }

  /** A user who owns no resume is returned with an empty resume list. */
  lemma NoResumesListedEmpty(db: Db, id: Guid)
    requires Valid(db)
    requires OwnedResumeIds(db, id) == {}
    ensures ResumeService.GetResumesByUserId(db, id) == []
  {
  }

  /** A freshly inserted user is found under any email that normalises to its own. */
  lemma AddedUserIsFound(db: Db, id: Guid, n: string, other: string)
    requires Valid(db)
    requires id !in db.users && n !in db.emailIndex && |n| <= MaxEmailLength
    requires Normalize(other) == n && n != []
    ensures GetUserByEmail(AddUser(db, id, n), Some(other)) == Some(D.User(id, n, []))
  {
    var db' := AddUser(db, id, n);
    assert FindUserId(db', Some(other)) == Some(id);
    FreshUserOwnsNothing(db, id);
    assert OwnedResumeIds(db', id) == OwnedResumeIds(db, id);
    NoResumesListedEmpty(db', id);
    LookupByEmailIsById(db', Some(other));
  }

  /** After a user is created, looking up any email with the same normal form
      finds that user. */
  lemma CreatedUserIsFound(db: Db, email: Option<string>, newId: Guid, other: string)
    requires Valid(db)
    requires CreateUser(db, email, newId).result.Success?
    requires Normalize(other) == Normalize(email.value)
    ensures var r := CreateUser(db, email, newId);
      GetUserByEmail(r.db, Some(other)) == Some(r.result.value)
  {
    var n := Normalize(email.value);
    assert CreateUser(db, email, newId) == Reply(Success(D.User(newId, n, [])), AddUser(db, newId, n));
    AddedUserIsFound(db, newId, n, other);
  }

  /** A second call with the same email returns the same user and changes
      nothing; across both calls at most one user is added. */
  lemma GetOrCreateTwice(db: Db, email: Option<string>, id1: Guid, id2: Guid)
    requires Valid(db)
    ensures var r1 := GetOrCreateUser(db, email, id1);
      var r2 := GetOrCreateUser(r1.db, email, id2);
      && (r1.result.Success? ==> r2 == r1)
      && |r2.db.users| <= |db.users| + 1
  {
    var r1 := GetOrCreateUser(db, email, id1);
    if r1.result.Success? && GetUserByEmail(db, email).None? {
      CreatedUserIsFound(db, email, id1, email.value);
    }
  }
}
