/** The relational store behind the services, as an immutable value.
    Users, resumes and quizzes are tables keyed by id; a resume row keeps its
    owner (the `UserId` foreign key) and its content, whose education and
    employment lists stand for the child rows keyed by `ResumeId`. The unique
    index on the user email is kept as a map from email to user id.
    `Valid` collects the constraints the schema declares. */
module Store {
  import opened Wrappers
  import opened Primitives
  import Lists
  import D = Domain

  datatype UserRow = UserRow(email: string)

  datatype ResumeRow = ResumeRow(owner: Guid, resume: D.Resume)

  datatype QuizRow = QuizRow(owner: Guid, quiz: D.Quiz)

  datatype Db = Db(
    users: map<Guid, UserRow>,
    emailIndex: map<string, Guid>,
    resumes: map<Guid, ResumeRow>,
    quizzes: map<Guid, QuizRow>)

  /** The failures a service operation reports. `InvalidArgument` is the
      `ArgumentException` for a blank email; `StoreFailure` is a rejected
      `SaveChanges` (a key already held, a value over its column's length)
      rethrown as "Failed to ...", and stands in as well for the change
      tracker's identity conflict on a key attached twice; the others are the
      `InvalidOperationException`s the services raise themselves. */
  datatype ServiceError = InvalidArgument | AlreadyExists | UserNotFound | ResumeNotFound | StoreFailure

  /** What a service operation returns, together with the store afterwards. */
  datatype Reply<+T> = Reply(result: Result<T, ServiceError>, db: Db)

  const EmptyDb := Db(map[], map[], map[], map[])

  // ---- Column constraints ---------------------------------------------------

  const MaxEmailLength := 255
  const MaxNameLength := 255
  const MaxCityLength := 100
  const MaxDescriptionLength := 2000

  predicate FitsOptional(s: Option<string>, max: nat) {
    s.Some? ==> |s.value| <= max
  }

  predicate EducationFits(e: D.Education) {
    && |e.educationName| <= MaxNameLength
    && |e.school| <= MaxNameLength
    && FitsOptional(e.city, MaxCityLength)
    && FitsOptional(e.description, MaxDescriptionLength)
  }

  predicate EmploymentFits(e: D.Employment) {
    && |e.jobTitle| <= MaxNameLength
    && |e.employer| <= MaxNameLength
    && FitsOptional(e.city, MaxCityLength)
    && FitsOptional(e.description, MaxDescriptionLength)
  }

  /** Every child row of the resume fits its columns. */
  predicate ResumeFits(r: D.Resume) {
    && (forall i :: 0 <= i < |r.educations| ==> EducationFits(r.educations[i]))
    && (forall i :: 0 <= i < |r.employment| ==> EmploymentFits(r.employment[i]))
  }

  // ---- Table constraints ----------------------------------------------------

  /** The email index lists every user under its email and nothing else. */
  predicate EmailIndexed(db: Db) {
    && (forall id :: id in db.users ==>
          db.users[id].email in db.emailIndex && db.emailIndex[db.users[id].email] == id)
    && (forall e :: e in db.emailIndex ==>
          db.emailIndex[e] in db.users && db.users[db.emailIndex[e]].email == e)
  }

  predicate UsersFit(db: Db) {
    forall id :: id in db.users ==> |db.users[id].email| <= MaxEmailLength
  }

  /** Each resume row is stored under its own id, belongs to an existing user
      and fits its columns. */
  predicate ResumesValid(db: Db) {
    forall id :: id in db.resumes ==>
      && db.resumes[id].resume.id == id
      && db.resumes[id].owner in db.users
      && ResumeFits(db.resumes[id].resume)
  }

  // ---- Child keys -----------------------------------------------------------

  /** `Guid.Empty`, the key of a child row that has not been given one. */
  const EmptyKey: Guid := 0

  function EducationIds(es: seq<D.Education>): set<Guid> {
    set e | e in es :: e.id
  }

  function EmploymentIds(es: seq<D.Employment>): set<Guid> {
    set e | e in es :: e.id
  }

  /** No two children of the resume share a key. */
  predicate DistinctChildKeys(r: D.Resume) {
    && (forall i, j :: 0 <= i < j < |r.educations| ==> r.educations[i].id != r.educations[j].id)
    && (forall i, j :: 0 <= i < j < |r.employment| ==> r.employment[i].id != r.employment[j].id)
  }

  /** The education keys held by the resumes other than the one at `except`. */
  function OtherEducationIds(rs: map<Guid, ResumeRow>, except: Guid): set<Guid> {
    set id, e | id in rs && id != except && e in rs[id].resume.educations :: e.id
  }

  /** The employment keys held by the resumes other than the one at `except`. */
  function OtherEmploymentIds(rs: map<Guid, ResumeRow>, except: Guid): set<Guid> {
    set id, e | id in rs && id != except && e in rs[id].resume.employment :: e.id
  }

  /** The children of `r` can be stored with the resume at `at`: their keys
      are distinct and held by no child of any other resume. */
  predicate ChildKeysFree(rs: map<Guid, ResumeRow>, at: Guid, r: D.Resume) {
    && DistinctChildKeys(r)
    && EducationIds(r.educations) !! OtherEducationIds(rs, at)
    && EmploymentIds(r.employment) !! OtherEmploymentIds(rs, at)
  }

  /** The primary keys of the education and of the employment table. */
  predicate ChildKeysUnique(rs: map<Guid, ResumeRow>) {
    forall id :: id in rs ==> ChildKeysFree(rs, id, rs[id].resume)
  }

  predicate QuizzesValid(db: Db) {
    forall id :: id in db.quizzes ==> db.quizzes[id].quiz.quizId == id
  }

  predicate Valid(db: Db) {
    EmailIndexed(db) && UsersFit(db) && ResumesValid(db) && ChildKeysUnique(db.resumes) && QuizzesValid(db)
  }

  lemma EmptyDbValid()
    ensures Valid(EmptyDb)
  {
  }

  /** The unique index: no two users share an email. */
  lemma EmailsUnique(db: Db)
    requires Valid(db)
    ensures forall a, b :: a in db.users && b in db.users && a != b ==> db.users[a].email != db.users[b].email
  {
  }

  /** The column limits every stored child row meets: names, schools, job
      titles and employers within 255 characters, cities within 100 and
      descriptions within 2000. */
  lemma StoredChildRowsFit(db: Db, id: Guid)
    requires Valid(db)
    requires id in db.resumes
    ensures var r := db.resumes[id].resume;
      forall e :: e in r.educations ==>
        && |e.educationName| <= 255 && |e.school| <= 255
        && (e.city.Some? ==> |e.city.value| <= 100)
        && (e.description.Some? ==> |e.description.value| <= 2000)
    ensures var r := db.resumes[id].resume;
      forall e :: e in r.employment ==>
        && |e.jobTitle| <= 255 && |e.employer| <= 255
        && (e.city.Some? ==> |e.city.value| <= 100)
        && (e.description.Some? ==> |e.description.value| <= 2000)
  {
  }

  /** No two education rows share a key, whichever resumes they hang off. */
  lemma EducationKeysUnique(db: Db, a: Guid, i: nat, b: Guid, j: nat)
    requires Valid(db)
    requires a in db.resumes && i < |db.resumes[a].resume.educations|
    requires b in db.resumes && j < |db.resumes[b].resume.educations|
    requires db.resumes[a].resume.educations[i].id == db.resumes[b].resume.educations[j].id
    ensures a == b && i == j
  {
    var ea := db.resumes[a].resume.educations;
    if a != b {
      assert ea[i] in ea;
      EducationKeyHeldOnce(db.resumes, a, b, ea[i].id);
      assert false;
    } else if i != j {
      assert false;
    }
  }

  /** A key held by a child of one resume is held by no child of another. */
  lemma EducationKeyHeldOnce(rs: map<Guid, ResumeRow>, a: Guid, b: Guid, x: Guid)
    requires ChildKeysUnique(rs)
    requires a in rs && b in rs && a != b
    requires x in EducationIds(rs[a].resume.educations)
    ensures forall j :: 0 <= j < |rs[b].resume.educations| ==> rs[b].resume.educations[j].id != x
  {
    assert x in OtherEducationIds(rs, b);
    forall j | 0 <= j < |rs[b].resume.educations|
      ensures rs[b].resume.educations[j].id != x
    {
      assert rs[b].resume.educations[j] in rs[b].resume.educations;
    }
  }

  /** No two employment rows share a key, whichever resumes they hang off. */
  lemma EmploymentKeysUnique(db: Db, a: Guid, i: nat, b: Guid, j: nat)
    requires Valid(db)
    requires a in db.resumes && i < |db.resumes[a].resume.employment|
    requires b in db.resumes && j < |db.resumes[b].resume.employment|
    requires db.resumes[a].resume.employment[i].id == db.resumes[b].resume.employment[j].id
    ensures a == b && i == j
  {
    var ea := db.resumes[a].resume.employment;
    if a != b {
      assert ea[i] in ea;
      EmploymentKeyHeldOnce(db.resumes, a, b, ea[i].id);
      assert false;
    } else if i != j {
      assert false;
    }
  }

  /** A key held by a child of one resume is held by no child of another. */
  lemma EmploymentKeyHeldOnce(rs: map<Guid, ResumeRow>, a: Guid, b: Guid, x: Guid)
    requires ChildKeysUnique(rs)
    requires a in rs && b in rs && a != b
    requires x in EmploymentIds(rs[a].resume.employment)
    ensures forall j :: 0 <= j < |rs[b].resume.employment| ==> rs[b].resume.employment[j].id != x
  {
    assert x in OtherEmploymentIds(rs, b);
    forall j | 0 <= j < |rs[b].resume.employment|
      ensures rs[b].resume.employment[j].id != x
    {
      assert rs[b].resume.employment[j] in rs[b].resume.employment;
    }
  }

  /** Storing a resume whose children's keys are free keeps the child keys unique. */
  lemma PutKeepsChildKeys(rs: map<Guid, ResumeRow>, at: Guid, row: ResumeRow)
    requires ChildKeysUnique(rs)
    requires ChildKeysFree(rs, at, row.resume)
    ensures ChildKeysUnique(rs[at := row])
  {
    var rs' := rs[at := row];
    forall id | id in rs'
      ensures ChildKeysFree(rs', id, rs'[id].resume)
    {
      if id == at {
        OtherIdsBesidePut(rs, at, row);
      } else {
        OtherIdsAfterPut(rs, at, row, id);
      }
    }
  }

  /** Seen from the resume that is put, its neighbours' keys are unchanged. */
  lemma OtherIdsBesidePut(rs: map<Guid, ResumeRow>, at: Guid, row: ResumeRow)
    ensures OtherEducationIds(rs[at := row], at) == OtherEducationIds(rs, at)
    ensures OtherEmploymentIds(rs[at := row], at) == OtherEmploymentIds(rs, at)
  {
    var rs' := rs[at := row];
    forall x | x in OtherEducationIds(rs', at)
      ensures x in OtherEducationIds(rs, at)
    {
      var id, e :| id in rs' && id != at && e in rs'[id].resume.educations && x == e.id;
      assert rs'[id] == rs[id];
    }
    forall x | x in OtherEducationIds(rs, at)
      ensures x in OtherEducationIds(rs', at)
    {
      var id, e :| id in rs && id != at && e in rs[id].resume.educations && x == e.id;
      assert rs'[id] == rs[id];
    }
    forall x | x in OtherEmploymentIds(rs', at)
      ensures x in OtherEmploymentIds(rs, at)
    {
      var id, e :| id in rs' && id != at && e in rs'[id].resume.employment && x == e.id;
      assert rs'[id] == rs[id];
    }
    forall x | x in OtherEmploymentIds(rs, at)
      ensures x in OtherEmploymentIds(rs', at)
    {
      var id, e :| id in rs && id != at && e in rs[id].resume.employment && x == e.id;
      assert rs'[id] == rs[id];
    }
  }

  /** Seen from another resume, the store after the put holds its old
      neighbours' keys and those of the stored resume, which it did not hold. */
  lemma OtherIdsAfterPut(rs: map<Guid, ResumeRow>, at: Guid, row: ResumeRow, id: Guid)
    requires ChildKeysUnique(rs)
    requires ChildKeysFree(rs, at, row.resume)
    requires id in rs && id != at
    ensures ChildKeysFree(rs[at := row], id, rs[id].resume)
  {
    var rs' := rs[at := row];
    var mine := rs[id].resume;
    assert EducationIds(mine.educations) <= OtherEducationIds(rs, at);
    assert EmploymentIds(mine.employment) <= OtherEmploymentIds(rs, at);
    assert OtherEducationIds(rs', id) <= OtherEducationIds(rs, id) + EducationIds(row.resume.educations);
    assert OtherEmploymentIds(rs', id) <= OtherEmploymentIds(rs, id) + EmploymentIds(row.resume.employment);
  }

  /** Dropping resumes keeps the child keys unique. */
  lemma SubsetKeepsChildKeys(rs: map<Guid, ResumeRow>, rs': map<Guid, ResumeRow>)
    requires ChildKeysUnique(rs)
    requires forall id :: id in rs' ==> id in rs && rs'[id] == rs[id]
    ensures ChildKeysUnique(rs')
  {
    forall id | id in rs'
      ensures ChildKeysFree(rs', id, rs'[id].resume)
    {
      assert OtherEducationIds(rs', id) <= OtherEducationIds(rs, id);
      assert OtherEmploymentIds(rs', id) <= OtherEmploymentIds(rs, id);
    }
  }

  function EducationKey(e: D.Education): Guid { e.id }

  function EmploymentKey(e: D.Employment): Guid { e.id }

  /** The education keys held by any resume. */
  function AllEducationIds(rs: map<Guid, ResumeRow>): set<Guid> {
    set id, e | id in rs && e in rs[id].resume.educations :: e.id
  }

  /** The employment keys held by any resume. */
  function AllEmploymentIds(rs: map<Guid, ResumeRow>): set<Guid> {
    set id, e | id in rs && e in rs[id].resume.employment :: e.id
  }

  /** A resume row after the children whose keys `r` holds have been moved
      to `r`: an UPDATE of a child row rewrites its `ResumeId`, so the row
      leaves the resume it hung off. Everything else about the row stays. */
  function GiveUp(row: ResumeRow, r: D.Resume): (s: ResumeRow)
    ensures s == row.(resume := row.resume.(educations := s.resume.educations, employment := s.resume.employment))
    ensures forall e :: e in s.resume.educations <==> e in row.resume.educations && e.id !in EducationIds(r.educations)
    ensures forall e :: e in s.resume.employment <==> e in row.resume.employment && e.id !in EmploymentIds(r.employment)
  {
    row.(resume := row.resume.(
      educations := Lists.Without(row.resume.educations, EducationKey, EducationIds(r.educations)),
      employment := Lists.Without(row.resume.employment, EmploymentKey, EmploymentIds(r.employment))))
  }

  /** A row that gives up children still fits its columns and still holds
      distinct keys. */
  lemma GiveUpKeepsRowValid(row: ResumeRow, r: D.Resume)
    ensures ResumeFits(row.resume) ==> ResumeFits(GiveUp(row, r).resume)
    ensures DistinctChildKeys(row.resume) ==> DistinctChildKeys(GiveUp(row, r).resume)
  {
    var es := GiveUp(row, r).resume.educations;
    var ms := GiveUp(row, r).resume.employment;
    if ResumeFits(row.resume) {
      forall i | 0 <= i < |es|
        ensures EducationFits(es[i])
      {
        assert es[i] in row.resume.educations;
      }
      forall i | 0 <= i < |ms|
        ensures EmploymentFits(ms[i])
      {
        assert ms[i] in row.resume.employment;
      }
    }
    if DistinctChildKeys(row.resume) {
      assert Lists.KeysDistinct(row.resume.educations, EducationKey);
      assert Lists.KeysDistinct(row.resume.employment, EmploymentKey);
      Lists.WithoutKeepsDistinct(row.resume.educations, EducationKey, EducationIds(r.educations));
      Lists.WithoutKeepsDistinct(row.resume.employment, EmploymentKey, EmploymentIds(r.employment));
    }
  }

  /** The resume table after `row` is written at `at` and every other resume
      gives up the children whose keys `row` now holds. */
  function TakeOver(rs: map<Guid, ResumeRow>, at: Guid, row: ResumeRow): (rs': map<Guid, ResumeRow>)
    ensures forall b :: b in rs' <==> b in rs || b == at
    ensures rs'[at] == row
    ensures forall b :: b in rs && b != at ==> rs'[b] == GiveUp(rs[b], row.resume)
  {
    map b | b in rs.Keys + {at} :: if b == at then row else GiveUp(rs[b], row.resume)
  }

  /** Writing a resume whose children's keys are distinct, with every other
      resume giving up the children it takes over, keeps the child keys unique. */
  lemma TakeOverKeepsChildKeys(rs: map<Guid, ResumeRow>, at: Guid, row: ResumeRow)
    requires ChildKeysUnique(rs)
    requires DistinctChildKeys(row.resume)
    ensures ChildKeysUnique(TakeOver(rs, at, row))
  {
    var rs' := TakeOver(rs, at, row);
    forall id | id in rs'
      ensures ChildKeysFree(rs', id, rs'[id].resume)
    {
      if id == at {
        TakenOverFree(rs, at, row);
      } else {
        GivenUpFree(rs, at, row, id);
      }
    }
  }

  /** A row none of whose child keys `r` holds gives up nothing. */
  lemma GiveUpNothing(row: ResumeRow, r: D.Resume)
    requires EducationIds(row.resume.educations) !! EducationIds(r.educations)
    requires EmploymentIds(row.resume.employment) !! EmploymentIds(r.employment)
    ensures GiveUp(row, r) == row
  {
    forall e | e in row.resume.educations
      ensures EducationKey(e) !in EducationIds(r.educations)
    {
      assert e.id in EducationIds(row.resume.educations);
    }
    forall e | e in row.resume.employment
      ensures EmploymentKey(e) !in EmploymentIds(r.employment)
    {
      assert e.id in EmploymentIds(row.resume.employment);
    }
  }

  /** The store after `row` is written at `at`, taking over the child rows
      whose keys it holds from the other resumes. */
  function WriteTakingOver(db: Db, at: Guid, row: ResumeRow): (r: Db)
    requires Valid(db)
    requires at in db.resumes && row.owner == db.resumes[at].owner && row.resume.id == at
    requires ResumeFits(row.resume) && DistinctChildKeys(row.resume)
    ensures Valid(r)
    ensures r.users == db.users && r.emailIndex == db.emailIndex && r.quizzes == db.quizzes
    ensures forall b :: b in r.resumes <==> b in db.resumes
    ensures r.resumes[at] == row
    ensures forall b :: b in db.resumes && b != at ==> r.resumes[b] == GiveUp(db.resumes[b], row.resume)
  {
    TakeOverValid(db, at, row);
    db.(resumes := TakeOver(db.resumes, at, row))
  }

  /** Writing a fitting resume with distinct child keys over an existing one,
      its owner and id kept, with the take-over of its children's keys, keeps
      every constraint. */
  lemma TakeOverValid(db: Db, at: Guid, row: ResumeRow)
    requires Valid(db)
    requires at in db.resumes && row.owner == db.resumes[at].owner && row.resume.id == at
    requires ResumeFits(row.resume) && DistinctChildKeys(row.resume)
    ensures Valid(db.(resumes := TakeOver(db.resumes, at, row)))
  {
    TakeOverKeepsChildKeys(db.resumes, at, row);
    TakeOverRowsValid(db, at, row);
    SameUsersValid(db, db.(resumes := TakeOver(db.resumes, at, row)));
  }

  /** Every row of the table after a take-over keeps its id, its owner and its fit. */
  lemma TakeOverRowsValid(db: Db, at: Guid, row: ResumeRow)
    requires ResumesValid(db)
    requires at in db.resumes && row.owner == db.resumes[at].owner && row.resume.id == at
    requires ResumeFits(row.resume)
    ensures ResumesValid(db.(resumes := TakeOver(db.resumes, at, row)))
  {
    var rs' := TakeOver(db.resumes, at, row);
    forall b | b in rs'
      ensures rs'[b].resume.id == b && rs'[b].owner in db.users && ResumeFits(rs'[b].resume)
    {
      if b != at {
        TakenOverRowValid(db, at, row, b);
      }
    }
  }

  /** A resume that gives up children keeps its id, its owner and its fit. */
  lemma TakenOverRowValid(db: Db, at: Guid, row: ResumeRow, b: Guid)
    requires ResumesValid(db)
    requires b in db.resumes && b != at
    ensures var s := TakeOver(db.resumes, at, row)[b];
      s.resume.id == b && s.owner in db.users && ResumeFits(s.resume)
  {
    GiveUpKeepsRowValid(db.resumes[b], row.resume);
  }

  /** A store that differs from a valid one only in a resume table that
      meets the resume constraints is valid. */
  lemma SameUsersValid(db: Db, db': Db)
    requires Valid(db)
    requires db'.users == db.users && db'.emailIndex == db.emailIndex && db'.quizzes == db.quizzes
    requires ResumesValid(db') && ChildKeysUnique(db'.resumes)
    ensures Valid(db')
  {
  }

  /** The written resume holds no key any other resume still holds. */
  lemma TakenOverFree(rs: map<Guid, ResumeRow>, at: Guid, row: ResumeRow)
    requires DistinctChildKeys(row.resume)
    ensures ChildKeysFree(TakeOver(rs, at, row), at, row.resume)
  {
    var rs' := TakeOver(rs, at, row);
    forall b, e | b in rs' && b != at && e in rs'[b].resume.educations
      ensures e.id !in EducationIds(row.resume.educations)
    {
      assert rs'[b] == GiveUp(rs[b], row.resume);
    }
    forall b, e | b in rs' && b != at && e in rs'[b].resume.employment
      ensures e.id !in EmploymentIds(row.resume.employment)
    {
      assert rs'[b] == GiveUp(rs[b], row.resume);
    }
    OthersAvoidEducationIds(rs', at, EducationIds(row.resume.educations));
    OthersAvoidEmploymentIds(rs', at, EmploymentIds(row.resume.employment));
  }

  /** When no other resume has an education keyed in `held`, none of `held`
      is among the other resumes' education keys. */
  lemma OthersAvoidEducationIds(rs: map<Guid, ResumeRow>, at: Guid, held: set<Guid>)
    requires forall b, e :: b in rs && b != at && e in rs[b].resume.educations ==> e.id !in held
    ensures held !! OtherEducationIds(rs, at)
  {
    forall x | x in OtherEducationIds(rs, at)
      ensures x !in held
    {
      var b, e :| b in rs && b != at && e in rs[b].resume.educations && x == e.id;
    }
  }

  /** When no other resume has an employment keyed in `held`, none of `held`
      is among the other resumes' employment keys. */
  lemma OthersAvoidEmploymentIds(rs: map<Guid, ResumeRow>, at: Guid, held: set<Guid>)
    requires forall b, e :: b in rs && b != at && e in rs[b].resume.employment ==> e.id !in held
    ensures held !! OtherEmploymentIds(rs, at)
  {
    forall x | x in OtherEmploymentIds(rs, at)
      ensures x !in held
    {
      var b, e :| b in rs && b != at && e in rs[b].resume.employment && x == e.id;
    }
  }

  /** A resume that gave up children still holds distinct keys that no other
      resume holds. */
  lemma GivenUpFree(rs: map<Guid, ResumeRow>, at: Guid, row: ResumeRow, id: Guid)
    requires ChildKeysUnique(rs)
    requires id in rs && id != at
    ensures ChildKeysFree(TakeOver(rs, at, row), id, GiveUp(rs[id], row.resume).resume)
  {
    assert ChildKeysFree(rs, id, rs[id].resume);
    GiveUpKeepsRowValid(rs[id], row.resume);
    GivenUpEducationsFree(rs, at, row, id);
    GivenUpEmploymentFree(rs, at, row, id);
  }

  lemma GivenUpEducationsFree(rs: map<Guid, ResumeRow>, at: Guid, row: ResumeRow, id: Guid)
    requires ChildKeysUnique(rs)
    requires id in rs && id != at
    ensures EducationIds(GiveUp(rs[id], row.resume).resume.educations) !! OtherEducationIds(TakeOver(rs, at, row), id)
  {
    assert ChildKeysFree(rs, id, rs[id].resume);
    GivenUpEducationIds(rs[id], row.resume);
    var rs' := TakeOver(rs, at, row);
    forall b, e | b in rs' && b != at && e in rs'[b].resume.educations
      ensures b in rs && e in rs[b].resume.educations
    {
      assert rs'[b] == GiveUp(rs[b], row.resume);
    }
    OtherEducationIdsShrink(rs, rs', at, id);
  }

  lemma GivenUpEmploymentFree(rs: map<Guid, ResumeRow>, at: Guid, row: ResumeRow, id: Guid)
    requires ChildKeysUnique(rs)
    requires id in rs && id != at
    ensures EmploymentIds(GiveUp(rs[id], row.resume).resume.employment) !! OtherEmploymentIds(TakeOver(rs, at, row), id)
  {
    assert ChildKeysFree(rs, id, rs[id].resume);
    GivenUpEmploymentIds(rs[id], row.resume);
    var rs' := TakeOver(rs, at, row);
    forall b, e | b in rs' && b != at && e in rs'[b].resume.employment
      ensures b in rs && e in rs[b].resume.employment
    {
      assert rs'[b] == GiveUp(rs[b], row.resume);
    }
    OtherEmploymentIdsShrink(rs, rs', at, id);
  }

  /** The education keys a row keeps are its old ones minus those taken over. */
  lemma GivenUpEducationIds(row: ResumeRow, r: D.Resume)
    ensures EducationIds(GiveUp(row, r).resume.educations) <= EducationIds(row.resume.educations) - EducationIds(r.educations)
  {
    var kept := GiveUp(row, r).resume.educations;
    forall x | x in EducationIds(kept)
      ensures x in EducationIds(row.resume.educations) && x !in EducationIds(r.educations)
    {
      var e :| e in kept && e.id == x;
    }
  }

  /** The employment keys a row keeps are its old ones minus those taken over. */
  lemma GivenUpEmploymentIds(row: ResumeRow, r: D.Resume)
    ensures EmploymentIds(GiveUp(row, r).resume.employment) <= EmploymentIds(row.resume.employment) - EmploymentIds(r.employment)
  {
    var kept := GiveUp(row, r).resume.employment;
    forall x | x in EmploymentIds(kept)
      ensures x in EmploymentIds(row.resume.employment) && x !in EmploymentIds(r.employment)
    {
      var e :| e in kept && e.id == x;
    }
  }

  /** Seen from a resume other than the one at `at`, a table whose other rows
      keep only education rows they had holds at most the old keys and those of
      the row at `at`. */
  lemma OtherEducationIdsShrink(rs: map<Guid, ResumeRow>, rs': map<Guid, ResumeRow>, at: Guid, id: Guid)
    requires id != at && at in rs'
    requires forall b, e :: b in rs' && b != at && e in rs'[b].resume.educations ==> b in rs && e in rs[b].resume.educations
    ensures OtherEducationIds(rs', id) <= OtherEducationIds(rs, id) + EducationIds(rs'[at].resume.educations)
  {
    forall x | x in OtherEducationIds(rs', id)
      ensures x in OtherEducationIds(rs, id) + EducationIds(rs'[at].resume.educations)
    {
      var b, e :| b in rs' && b != id && e in rs'[b].resume.educations && x == e.id;
    }
  }

  /** Seen from a resume other than the one at `at`, a table whose other rows
      keep only employment rows they had holds at most the old keys and those of
      the row at `at`. */
  lemma OtherEmploymentIdsShrink(rs: map<Guid, ResumeRow>, rs': map<Guid, ResumeRow>, at: Guid, id: Guid)
    requires id != at && at in rs'
    requires forall b, e :: b in rs' && b != at && e in rs'[b].resume.employment ==> b in rs && e in rs[b].resume.employment
    ensures OtherEmploymentIds(rs', id) <= OtherEmploymentIds(rs, id) + EmploymentIds(rs'[at].resume.employment)
  {
    forall x | x in OtherEmploymentIds(rs', id)
      ensures x in OtherEmploymentIds(rs, id) + EmploymentIds(rs'[at].resume.employment)
    {
      var b, e :| b in rs' && b != id && e in rs'[b].resume.employment && x == e.id;
    }
  }

  /** Where Entity Framework takes the keys it generates on insert: the `i`th
      education or employment of the list, when it carries `Guid.Empty`, is
      given `education(i)` or `employment(i)`. */
  datatype KeySource = KeySource(education: nat -> Guid, employment: nat -> Guid)

  function KeyEducations(es: seq<D.Education>, gen: nat -> Guid): (r: seq<D.Education>)
    ensures |r| == |es|
    ensures forall i :: 0 <= i < |es| ==>
      r[i] == es[i].(id := if es[i].id == EmptyKey then gen(i) else es[i].id)
  {
    seq(|es|, i requires 0 <= i < |es| => es[i].(id := if es[i].id == EmptyKey then gen(i) else es[i].id))
  }

  function KeyEmployment(es: seq<D.Employment>, gen: nat -> Guid): (r: seq<D.Employment>)
    ensures |r| == |es|
    ensures forall i :: 0 <= i < |es| ==>
      r[i] == es[i].(id := if es[i].id == EmptyKey then gen(i) else es[i].id)
  {
    seq(|es|, i requires 0 <= i < |es| => es[i].(id := if es[i].id == EmptyKey then gen(i) else es[i].id))
  }

  /** The resume as inserted: keyless children get generated keys and nothing
      else changes, so the column limits hold exactly when they held before. */
  function WithChildKeys(r: D.Resume, keys: KeySource): (k: D.Resume)
    ensures k == r.(educations := KeyEducations(r.educations, keys.education),
                    employment := KeyEmployment(r.employment, keys.employment))
    ensures ResumeFits(k) <==> ResumeFits(r)
  {
    var k := r.(educations := KeyEducations(r.educations, keys.education),
                employment := KeyEmployment(r.employment, keys.employment));
    assert forall i :: 0 <= i < |r.educations| ==> (EducationFits(k.educations[i]) <==> EducationFits(r.educations[i]));
    assert forall i :: 0 <= i < |r.employment| ==> (EmploymentFits(k.employment[i]) <==> EmploymentFits(r.employment[i]));
    k
  }

  /** Inserts a user row and its index entry. */
  function AddUser(db: Db, id: Guid, email: string): (r: Db)
    requires Valid(db)
    requires id !in db.users && email !in db.emailIndex && |email| <= MaxEmailLength
    ensures Valid(r)
    ensures r.users == db.users[id := UserRow(email)]
    ensures r.emailIndex == db.emailIndex[email := id]
    ensures r.resumes == db.resumes && r.quizzes == db.quizzes
  {
    var r := db.(users := db.users[id := UserRow(email)], emailIndex := db.emailIndex[email := id]);
    assert EmailIndexed(r) by {
      forall u | u in r.users
        ensures r.users[u].email in r.emailIndex && r.emailIndex[r.users[u].email] == u
      {
        if u != id {
          assert db.users[u].email in db.emailIndex;
        }
      }
    }
    r
  }

  // ---- Ownership ------------------------------------------------------------

  function OwnedResumeIds(db: Db, owner: Guid): (ids: set<Guid>)
    ensures forall id :: id in ids <==> id in db.resumes && db.resumes[id].owner == owner
  {
    set id | id in db.resumes && db.resumes[id].owner == owner
  }

  function OwnedQuizIds(db: Db, owner: Guid): (ids: set<Guid>)
    ensures forall id :: id in ids <==> id in db.quizzes && db.quizzes[id].owner == owner
  {
    set id | id in db.quizzes && db.quizzes[id].owner == owner
  }

  /** The education rows of the store, each with the id of the resume it hangs off. */
  ghost function EducationRows(db: Db): set<(Guid, D.Education)> {
    set id, e | id in db.resumes && e in db.resumes[id].resume.educations :: (id, e)
  }

  /** The employment rows of the store, each with the id of the resume it hangs off. */
  ghost function EmploymentRows(db: Db): set<(Guid, D.Employment)> {
    set id, e | id in db.resumes && e in db.resumes[id].resume.employment :: (id, e)
  }

  /** The cascade the schema declares from a user to its resumes: removing the
      user removes its index entry and every resume it owns, and with each
      resume its education and employment rows. */
  function CascadeDeleteUser(db: Db, user: Guid): (r: Db)
    requires Valid(db)
    ensures Valid(r)
    ensures user !in r.users && r.users == db.users - {user}
    ensures OwnedResumeIds(r, user) == {}
    ensures forall id :: id in r.resumes <==> id in db.resumes && db.resumes[id].owner != user
    ensures forall id :: id in r.resumes ==> r.resumes[id] == db.resumes[id]
    ensures r.quizzes == db.quizzes
  {
    if user !in db.users then
      db
    else
      var email := db.users[user].email;
      var kept := map id | id in db.resumes && db.resumes[id].owner != user :: db.resumes[id];
      SubsetKeepsChildKeys(db.resumes, kept);
      Db(db.users - {user}, db.emailIndex - {email}, kept, db.quizzes)
  }
}
