/** The quiz operations over the store: list and create, nothing else. */
module QuizService {
  import opened Wrappers
  import opened Primitives
  import opened Lists
  import opened Store
  import D = Domain

  /** The stored quizzes under the given ids, in the same order. */
  function QuizzesAt(db: Db, ids: seq<Guid>): (qs: seq<D.Quiz>)
    requires Valid(db)
    requires forall i :: 0 <= i < |ids| ==> ids[i] in db.quizzes
    ensures |qs| == |ids|
    ensures forall i :: 0 <= i < |ids| ==> qs[i] == db.quizzes[ids[i]].quiz && qs[i].quizId == ids[i]
  {
    seq(|ids|, i requires 0 <= i < |ids| => db.quizzes[ids[i]].quiz)
  }

  /** The quizzes a user owns, each once. */
  function GetQuizzesByUserId(db: Db, user: Guid): (qs: seq<D.Quiz>)
    requires Valid(db)
    ensures |qs| == |OwnedQuizIds(db, user)|
    ensures forall i :: 0 <= i < |qs| ==> qs[i].quizId in db.quizzes && db.quizzes[qs[i].quizId] == QuizRow(user, qs[i])
    ensures forall id :: id in OwnedQuizIds(db, user) ==> exists i :: 0 <= i < |qs| && qs[i].quizId == id
    ensures forall i, j :: 0 <= i < j < |qs| ==> qs[i].quizId != qs[j].quizId
  {
    var ids := SortedKeys(OwnedQuizIds(db, user));
    var qs := QuizzesAt(db, ids);
    assert forall id :: id in OwnedQuizIds(db, user) ==> id in ids;
    qs
  }

  /** Stores a quiz result for an existing user under a freshly generated id
      (`newId` stands for `Guid.NewGuid()`), keeping the submitted score. */
  function CreateQuiz(db: Db, user: Guid, quiz: D.Quiz, newId: Guid): (r: Reply<D.Quiz>)
    requires Valid(db)
    ensures Valid(r.db)
    ensures user !in db.users ==> r == Reply(Failure(UserNotFound), db)
    ensures r.result.Failure? ==> r.db == db
    ensures r.result.Success? <==> user in db.users && newId !in db.quizzes
    ensures r.result.Success? ==>
      && r.result.value == D.Quiz(newId, quiz.quizScore)
      && r.db.quizzes == db.quizzes[newId := QuizRow(user, r.result.value)]
      && r.db.users == db.users && r.db.emailIndex == db.emailIndex && r.db.resumes == db.resumes
  {
    if user !in db.users then
      Reply(Failure(UserNotFound), db)
    else if newId in db.quizzes then
      Reply(Failure(StoreFailure), db)
    else
      var stored := quiz.(quizId := newId);
      Reply(Success(stored), db.(quizzes := db.quizzes[newId := QuizRow(user, stored)]))
  }

  /** Creating a quiz leaves every other quiz where it was. */
  lemma CreateQuizFrames(db: Db, user: Guid, quiz: D.Quiz, newId: Guid, other: Guid)
    requires Valid(db)
    requires other != newId
    ensures var r := CreateQuiz(db, user, quiz, newId);
      (other in r.db.quizzes <==> other in db.quizzes)
      && (other in db.quizzes ==> r.db.quizzes[other] == db.quizzes[other])
  {
  }

  /** Every quiz a user owns is in the user's list. */
  lemma OwnedQuizIsListed(db: Db, user: Guid, id: Guid)
    requires Valid(db)
    requires id in db.quizzes && db.quizzes[id].owner == user
    ensures var qs := GetQuizzesByUserId(db, user);
      exists i :: 0 <= i < |qs| && qs[i] == db.quizzes[id].quiz
  {
    var qs := GetQuizzesByUserId(db, user);
    assert id in OwnedQuizIds(db, user);
    var i :| 0 <= i < |qs| && qs[i].quizId == id;
    assert db.quizzes[id] == QuizRow(user, qs[i]);
  }

  /** A created quiz is listed among its owner's quizzes, with its score. */
  lemma CreatedQuizIsListed(db: Db, user: Guid, quiz: D.Quiz, newId: Guid)
    requires Valid(db)
    requires CreateQuiz(db, user, quiz, newId).result.Success?
    ensures var r := CreateQuiz(db, user, quiz, newId);
      var qs := GetQuizzesByUserId(r.db, user);
      exists i :: 0 <= i < |qs| && qs[i] == r.result.value && qs[i].quizScore == quiz.quizScore
  {
    var r := CreateQuiz(db, user, quiz, newId);
    OwnedQuizIsListed(r.db, user, newId);
  }
}
