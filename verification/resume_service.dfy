/** The resume operations over the store. */
module ResumeService {
  import opened Wrappers
  import opened Primitives
  import opened Lists
  import opened Store
  import D = Domain

  /** The ids of a list of resumes, in list order. */
  function IdsOf(rs: seq<D.Resume>): (ids: seq<Guid>)
    ensures |ids| == |rs|
    ensures forall i :: 0 <= i < |rs| ==> ids[i] == rs[i].id
  {
    seq(|rs|, i requires 0 <= i < |rs| => rs[i].id)
  }

  /** The stored resumes under the given ids, in the same order. */
  function ResumesAt(db: Db, ids: seq<Guid>): (rs: seq<D.Resume>)
    requires Valid(db)
    requires forall i :: 0 <= i < |ids| ==> ids[i] in db.resumes
    ensures IdsOf(rs) == ids
    ensures forall i :: 0 <= i < |ids| ==> db.resumes[ids[i]].resume == rs[i]
  {
    seq(|ids|, i requires 0 <= i < |ids| => db.resumes[ids[i]].resume)
  }

  /** The resumes a user owns, with their education and employment, each once. */
  function GetResumesByUserId(db: Db, user: Guid): (rs: seq<D.Resume>)
    requires Valid(db)
    ensures |rs| == |OwnedResumeIds(db, user)|
    ensures forall id :: id in IdsOf(rs) <==> id in OwnedResumeIds(db, user)
    ensures forall i :: 0 <= i < |rs| ==> db.resumes[rs[i].id] == ResumeRow(user, rs[i])
    ensures forall i, j :: 0 <= i < j < |rs| ==> rs[i].id != rs[j].id
  {
    var ids := SortedKeys(OwnedResumeIds(db, user));
    ResumesAt(db, ids)
  }

  /** The resume with the given id; absence is a `None`, not an error. */
  function GetResumeById(db: Db, id: Guid): (r: Option<D.Resume>)
    requires Valid(db)
    ensures r.Some? <==> id in db.resumes
    ensures r.Some? ==> r.value.id == id && r.value == db.resumes[id].resume
  {
    if id in db.resumes then Some(db.resumes[id].resume) else None
  }

  /** Stores `resume` for an existing user under a freshly generated id
      (`newId` stands for `Guid.NewGuid()`), whatever id it came with; each
      education and employment row without a key receives one from `keys`.
      A key another resume already holds, or one used twice, is refused. */
  function CreateResume(db: Db, user: Guid, resume: D.Resume, newId: Guid, keys: KeySource): (r: Reply<D.Resume>)
    requires Valid(db)
    ensures Valid(r.db)
    ensures user !in db.users ==> r == Reply(Failure(UserNotFound), db)
    ensures r.result.Failure? ==> r.db == db
    ensures r.result.Success? <==>
      && user in db.users && newId !in db.resumes && ResumeFits(resume)
      && ChildKeysFree(db.resumes, newId, WithChildKeys(resume, keys))
    ensures r.result.Success? ==>
      && r.result.value == WithChildKeys(resume, keys).(id := newId)
      && r.db.resumes == db.resumes[newId := ResumeRow(user, r.result.value)]
      && r.db.users == db.users && r.db.emailIndex == db.emailIndex && r.db.quizzes == db.quizzes
  {
    if user !in db.users then
      Reply(Failure(UserNotFound), db)
    else
      var stored := WithChildKeys(resume, keys).(id := newId);
      if newId in db.resumes || !ResumeFits(stored) || !ChildKeysFree(db.resumes, newId, stored) then
        Reply(Failure(StoreFailure), db)
      else
        PutKeepsChildKeys(db.resumes, newId, ResumeRow(user, stored));
        Reply(Success(stored), db.(resumes := db.resumes[newId := ResumeRow(user, stored)]))
  }

  /** The stored resume after an update: personal details, skills, languages
      and hobbies are replaced wholesale, and the education and employment
      lists are cleared and refilled from the incoming resume. */
  function Replace(existing: D.Resume, incoming: D.Resume): (r: D.Resume)
    ensures ResumeFits(r) <==> ResumeFits(incoming)
  {
    existing.(
      personalDetails := incoming.personalDetails,
      skills := incoming.skills,
      languages := incoming.languages,
      hobbies := incoming.hobbies,
      educations := incoming.educations,
      employment := incoming.employment)
  }

  /** Whether `SaveChanges` accepts the children an update attaches. The
      change tracker inserts a child that arrives without a key, under the
      generated one, which no other resume's child may hold; it updates the
      row of a child that arrives with a key, so that row must exist in some
      resume (an UPDATE that matches no row is a concurrency failure); and no
      key may be attached twice. */
  predicate ChildWritesAccepted(rs: map<Guid, ResumeRow>, at: Guid, incoming: D.Resume, keys: KeySource) {
    && DistinctChildKeys(WithChildKeys(incoming, keys))
    && (forall i :: 0 <= i < |incoming.educations| ==>
          if incoming.educations[i].id == EmptyKey then keys.education(i) !in OtherEducationIds(rs, at)
          else incoming.educations[i].id in AllEducationIds(rs))
    && (forall i :: 0 <= i < |incoming.employment| ==>
          if incoming.employment[i].id == EmptyKey then keys.employment(i) !in OtherEmploymentIds(rs, at)
          else incoming.employment[i].id in AllEmploymentIds(rs))
  }

  /** Replaces the content of an existing resume; its id and owner stay.
      Incoming education and employment rows without a key are inserted
      under keys from `keys`; those with a key update the row with that key,
      taking it over from whichever resume it hung off. */
  function UpdateResume(db: Db, id: Guid, resume: D.Resume, keys: KeySource): (r: Reply<D.Resume>)
    requires Valid(db)
    ensures Valid(r.db)
    ensures id !in db.resumes ==> r == Reply(Failure(ResumeNotFound), db)
    ensures r.result.Failure? ==> r.db == db
    ensures r.result.Success? <==>
      id in db.resumes && ResumeFits(resume) && ChildWritesAccepted(db.resumes, id, resume, keys)
    ensures r.result.Success? ==>
      var u := r.result.value;
      && u.id == id
      && u.personalDetails == resume.personalDetails
      && u.skills == resume.skills && u.languages == resume.languages && u.hobbies == resume.hobbies
      && u.educations == KeyEducations(resume.educations, keys.education)
      && u.employment == KeyEmployment(resume.employment, keys.employment)
      && (forall b :: b in r.db.resumes <==> b in db.resumes)
      && r.db.resumes[id] == ResumeRow(db.resumes[id].owner, u)
      && (forall b :: b in db.resumes && b != id ==> r.db.resumes[b] == GiveUp(db.resumes[b], u))
      && r.db.users == db.users && r.db.emailIndex == db.emailIndex && r.db.quizzes == db.quizzes
  {
    if id !in db.resumes then
      Reply(Failure(ResumeNotFound), db)
    else
      var row := db.resumes[id];
      var updated := Replace(row.resume, WithChildKeys(resume, keys));
      if !ResumeFits(updated) || !ChildWritesAccepted(db.resumes, id, resume, keys) then
        Reply(Failure(StoreFailure), db)
      else
        Reply(Success(updated), WriteTakingOver(db, id, row.(resume := updated)))
  }

  /** Removes a resume if it exists and tells whether it did. */
  function DeleteResume(db: Db, id: Guid): (r: Reply<bool>)
    requires Valid(db)
    ensures Valid(r.db)
    ensures r.result == Success(id in db.resumes)
    ensures id !in db.resumes ==> r.db == db
    ensures r.db.resumes == db.resumes - {id}
    ensures r.db.users == db.users && r.db.emailIndex == db.emailIndex && r.db.quizzes == db.quizzes
  {
    if id !in db.resumes then
      Reply(Success(false), db)
    else
      SubsetKeepsChildKeys(db.resumes, db.resumes - {id});
      Reply(Success(true), db.(resumes := db.resumes - {id}))
  }

  // ---- Properties across operations -----------------------------------------

  /** Deleting a resume removes exactly its education and employment rows. */
  lemma DeleteResumeCascades(db: Db, id: Guid)
    requires Valid(db)
    ensures forall p :: p in EducationRows(DeleteResume(db, id).db) <==> p in EducationRows(db) && p.0 != id
    ensures forall p :: p in EmploymentRows(DeleteResume(db, id).db) <==> p in EmploymentRows(db) && p.0 != id
  {
  }

  /** An update leaves exactly the incoming education rows under the resume:
      the old ones are gone, not merged. */
  lemma UpdateReplacesEducations(db: Db, id: Guid, resume: D.Resume, keys: KeySource)
    requires Valid(db)
    requires UpdateResume(db, id, resume, keys).result.Success?
    ensures forall e :: (id, e) in EducationRows(UpdateResume(db, id, resume, keys).db) <==>
      e in KeyEducations(resume.educations, keys.education)
    ensures forall e :: (id, e) in EmploymentRows(UpdateResume(db, id, resume, keys).db) <==>
      e in KeyEmployment(resume.employment, keys.employment)
  {
  }

  /** A created resume is found by id and listed among its owner's resumes. */
  lemma CreatedResumeIsFound(db: Db, user: Guid, resume: D.Resume, newId: Guid, keys: KeySource)
    requires Valid(db)
    requires CreateResume(db, user, resume, newId, keys).result.Success?
    ensures var r := CreateResume(db, user, resume, newId, keys);
      GetResumeById(r.db, newId) == Some(r.result.value)
    ensures var r := CreateResume(db, user, resume, newId, keys);
      newId in IdsOf(GetResumesByUserId(r.db, user))
  {
  }

  /** Inserting a new resume row adds its id to its owner's resume ids. */
  lemma InsertedRowIsOwned(db: Db, id: Guid, row: ResumeRow)
    requires id !in db.resumes
    ensures OwnedResumeIds(db.(resumes := db.resumes[id := row]), row.owner) == OwnedResumeIds(db, row.owner) + {id}
  {
    var db' := db.(resumes := db.resumes[id := row]);
    forall x
      ensures x in OwnedResumeIds(db', row.owner) <==> x in OwnedResumeIds(db, row.owner) + {id}
    {
    }
  }

  /** Creating a resume adds exactly one to its owner's list. */
  lemma CreatedResumeCountGrows(db: Db, user: Guid, resume: D.Resume, newId: Guid, keys: KeySource)
    requires Valid(db)
    requires CreateResume(db, user, resume, newId, keys).result.Success?
    ensures |GetResumesByUserId(CreateResume(db, user, resume, newId, keys).db, user)| == |GetResumesByUserId(db, user)| + 1
  {
    var row := ResumeRow(user, WithChildKeys(resume, keys).(id := newId));
    assert CreateResume(db, user, resume, newId, keys).db == db.(resumes := db.resumes[newId := row]);
    InsertedRowIsOwned(db, newId, row);
  }

  /** An incoming education that carries the key of another resume's
      education is refused, and the store is left as it was. */
  lemma CreateRejectsTakenEducationKey(db: Db, user: Guid, resume: D.Resume, newId: Guid, keys: KeySource,
                                       i: nat, other: Guid)
    requires Valid(db)
    requires other in db.resumes && i < |resume.educations| && resume.educations[i].id != EmptyKey
    requires resume.educations[i].id in EducationIds(db.resumes[other].resume.educations)
    ensures CreateResume(db, user, resume, newId, keys).result.Failure?
    ensures CreateResume(db, user, resume, newId, keys).db == db
  {
    var k := WithChildKeys(resume, keys);
    if newId !in db.resumes {
      assert k.educations[i] in k.educations;
      assert k.educations[i].id in OtherEducationIds(db.resumes, newId);
    }
  }

  /** An incoming employment keyed like another resume's employment row is
      an UPDATE of that row, not an INSERT: the update is accepted.
      `UpdateMovesEmploymentRow` says where the row ends up. */
  lemma UpdateTakesOverEmployment(db: Db, id: Guid, resume: D.Resume, keys: KeySource, other: Guid)
    requires Valid(db)
    requires id in db.resumes && other in db.resumes
    requires resume.educations == [] && |resume.employment| == 1 && EmploymentFits(resume.employment[0])
    requires resume.employment[0].id != EmptyKey
    requires resume.employment[0].id in EmploymentIds(db.resumes[other].resume.employment)
    ensures UpdateResume(db, id, resume, keys).result.Success?
  {
    TakeOverAccepted(db, id, resume, keys, other);
  }

  /** Incoming employment that all carries keys is stored as it came. */
  lemma UpdateKeepsKeyedEmployment(db: Db, id: Guid, resume: D.Resume, keys: KeySource)
    requires Valid(db)
    requires UpdateResume(db, id, resume, keys).result.Success?
    requires forall i :: 0 <= i < |resume.employment| ==> resume.employment[i].id != EmptyKey
    ensures UpdateResume(db, id, resume, keys).db.resumes[id].resume.employment == resume.employment
  {
    var r := UpdateResume(db, id, resume, keys);
    var u := r.result.value;
    assert r.db.resumes[id].resume == u;
    assert u.employment == KeyEmployment(resume.employment, keys.employment);
    KeyedEmploymentKept(resume.employment, keys.employment);
  }

  /** An accepted update bringing one keyed employment row takes that row
      from another resume and leaves that resume's other rows in place. */
  lemma UpdateMovesEmploymentRow(db: Db, id: Guid, resume: D.Resume, keys: KeySource, other: Guid)
    requires Valid(db)
    requires UpdateResume(db, id, resume, keys).result.Success?
    requires other in db.resumes && other != id
    requires |resume.employment| == 1 && resume.employment[0].id != EmptyKey
    ensures var r := UpdateResume(db, id, resume, keys);
      LosesOnlyKey(db.resumes[other].resume.employment, r.db.resumes[other].resume.employment,
                   resume.employment[0].id)
  {
    var r := UpdateResume(db, id, resume, keys);
    var u := r.result.value;
    GiveUpLosesOnlyKey(db.resumes[other], r.db.resumes[other], u, resume.employment[0].id);
  }

  /** The single keyed employment of `UpdateTakesOverEmployment` fits and
      names a stored row, so the update is accepted. */
  lemma TakeOverAccepted(db: Db, id: Guid, resume: D.Resume, keys: KeySource, other: Guid)
    requires other in db.resumes
    requires resume.educations == [] && |resume.employment| == 1 && EmploymentFits(resume.employment[0])
    requires resume.employment[0].id != EmptyKey
    requires resume.employment[0].id in EmploymentIds(db.resumes[other].resume.employment)
    ensures ResumeFits(resume) && ChildWritesAccepted(db.resumes, id, resume, keys)
  {
    var k := WithChildKeys(resume, keys);
    assert |k.employment| == 1 && k.educations == [];
    var e :| e in db.resumes[other].resume.employment && e.id == resume.employment[0].id;
    assert resume.employment[0].id in AllEmploymentIds(db.resumes);
  }

  /** Employment rows that all arrive with a key keep them. */
  lemma KeyedEmploymentKept(es: seq<D.Employment>, gen: nat -> Guid)
    requires forall i :: 0 <= i < |es| ==> es[i].id != EmptyKey
    ensures KeyEmployment(es, gen) == es
  {
  }

  /** An incoming employment whose key no row holds is an UPDATE that
      matches nothing: the update fails and the store is left as it was. */
  lemma UpdateRejectsUnknownEmploymentKey(db: Db, id: Guid, resume: D.Resume, keys: KeySource, i: nat)
    requires Valid(db)
    requires i < |resume.employment| && resume.employment[i].id != EmptyKey
    requires forall b :: b in db.resumes ==> resume.employment[i].id !in EmploymentIds(db.resumes[b].resume.employment)
    ensures UpdateResume(db, id, resume, keys).result.Failure?
    ensures UpdateResume(db, id, resume, keys).db == db
  {
    assert resume.employment[i].id !in AllEmploymentIds(db.resumes);
  }

  /** A resume none of whose child keys an update brings along is left as it was. */
  lemma UpdateLeavesUnrelatedResumes(db: Db, id: Guid, resume: D.Resume, keys: KeySource, b: Guid)
    requires Valid(db)
    requires UpdateResume(db, id, resume, keys).result.Success?
    requires b in db.resumes && b != id
    requires forall i :: 0 <= i < |resume.educations| && resume.educations[i].id != EmptyKey ==>
      resume.educations[i].id !in EducationIds(db.resumes[b].resume.educations)
    requires forall i :: 0 <= i < |resume.employment| && resume.employment[i].id != EmptyKey ==>
      resume.employment[i].id !in EmploymentIds(db.resumes[b].resume.employment)
    ensures UpdateResume(db, id, resume, keys).db.resumes[b] == db.resumes[b]
  {
    var r := UpdateResume(db, id, resume, keys);
    IncomingAvoids(db.resumes, id, resume, keys, b);
    GiveUpNothing(db.resumes[b], r.result.value);
  }

  /** After an accepted update, the incoming children's keys avoid a resume
      none of whose keys came with them: a generated key is held by no other
      resume, and the premise covers the keys that came along. */
  lemma IncomingAvoids(rs: map<Guid, ResumeRow>, id: Guid, resume: D.Resume, keys: KeySource, b: Guid)
    requires ChildWritesAccepted(rs, id, resume, keys)
    requires b in rs && b != id
    requires forall i :: 0 <= i < |resume.educations| && resume.educations[i].id != EmptyKey ==>
      resume.educations[i].id !in EducationIds(rs[b].resume.educations)
    requires forall i :: 0 <= i < |resume.employment| && resume.employment[i].id != EmptyKey ==>
      resume.employment[i].id !in EmploymentIds(rs[b].resume.employment)
    ensures EducationIds(rs[b].resume.educations) !! EducationIds(KeyEducations(resume.educations, keys.education))
    ensures EmploymentIds(rs[b].resume.employment) !! EmploymentIds(KeyEmployment(resume.employment, keys.employment))
  {
    var es := KeyEducations(resume.educations, keys.education);
    var ms := KeyEmployment(resume.employment, keys.employment);
    forall x | x in EducationIds(rs[b].resume.educations)
      ensures x !in EducationIds(es)
    {
      var e :| e in rs[b].resume.educations && e.id == x;
      assert x in OtherEducationIds(rs, id);
      forall j | 0 <= j < |es|
        ensures es[j].id != x
      {
      }
    }
    forall x | x in EmploymentIds(rs[b].resume.employment)
      ensures x !in EmploymentIds(ms)
    {
      var e :| e in rs[b].resume.employment && e.id == x;
      assert x in OtherEmploymentIds(rs, id);
      forall j | 0 <= j < |ms|
        ensures ms[j].id != x
      {
      }
    }
  }

  /** `after` no longer holds the employment key `key` and keeps every row
      of `before` keyed otherwise. */
  predicate LosesOnlyKey(before: seq<D.Employment>, after: seq<D.Employment>, key: Guid) {
    && key !in EmploymentIds(after)
    && (forall m :: m in before && m.id != key ==> m in after)
  }

  /** A resume giving up to one holding a single employment row loses that row's key and nothing else. */
  lemma GiveUpLosesOnlyKey(row: ResumeRow, after: ResumeRow, u: D.Resume, key: Guid)
    requires after == GiveUp(row, u)
    requires |u.employment| == 1 && u.employment[0].id == key
    ensures LosesOnlyKey(row.resume.employment, after.resume.employment, key)
  {
    FilterLosesOnlyKey(row.resume.employment, after.resume.employment, u.employment);
  }

  /** When `after` keeps the rows of `before` whose keys the one-row list `held`
      does not hold, it lacks that row's key and keeps every other row. */
  lemma FilterLosesOnlyKey(before: seq<D.Employment>, after: seq<D.Employment>, held: seq<D.Employment>)
    requires |held| == 1
    requires forall e :: e in after <==> e in before && e.id !in EmploymentIds(held)
    ensures LosesOnlyKey(before, after, held[0].id)
  {
    assert held[0] in held;
    assert EmploymentIds(held) == {held[0].id};
  }
}
