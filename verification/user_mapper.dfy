/** Conversions between the domain user and the API user. The API user has a
    quiz list that the domain user lacks: `ToApiModel` never sets it, so it
    keeps its initial empty value, and `ToDomainModel` drops it. */
module UserMapper {
  import opened Lists
  import opened ResumeMapper
  import D = Domain
  import A = Api

  function UserToApi(u: D.User): (a: A.User)
    ensures a.id == u.id && a.email == u.email
    ensures |a.resumes| == |u.resumes|
    ensures forall i :: 0 <= i < |u.resumes| ==> a.resumes[i] == ResumeToApi(u.resumes[i])
    ensures a.quizzes == []
  {
    A.User(u.id, u.email, MapSeq(ResumeToApi, u.resumes), [])
  }

  function UserToDomain(a: A.User): (u: D.User)
    ensures u.id == a.id && u.email == a.email
    ensures |u.resumes| == |a.resumes|
    ensures forall i :: 0 <= i < |a.resumes| ==> u.resumes[i] == ResumeToDomain(a.resumes[i])
  {
    D.User(a.id, a.email, MapSeq(ResumeToDomain, a.resumes))
  }

  /** Every domain user survives the trip to the API and back. */
  lemma UserToApiAndBack(u: D.User)
    ensures UserToDomain(UserToApi(u)) == u
  {
    forall i | 0 <= i < |u.resumes|
      ensures ResumeToDomain(ResumeToApi(u.resumes[i])) == u.resumes[i]
    {
      ResumeToApiAndBack(u.resumes[i]);
    }
    MapSeqInverse(ResumeToApi, ResumeToDomain, u.resumes);
  }

  /** An API user survives the trip to the domain and back exactly when it has
      no quizzes; otherwise the quizzes are lost. */
  lemma UserToDomainAndBack(a: A.User)
    ensures UserToApi(UserToDomain(a)) == a <==> a.quizzes == []
    ensures UserToApi(UserToDomain(a)).quizzes == []
  {
    forall i | 0 <= i < |a.resumes|
      ensures ResumeToApi(ResumeToDomain(a.resumes[i])) == a.resumes[i]
    {
      ResumeToDomainAndBack(a.resumes[i]);
    }
    MapSeqInverse(ResumeToDomain, ResumeToApi, a.resumes);
  }
}
