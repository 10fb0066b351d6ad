/** Conversions between the domain quiz and the API quiz. */
module QuizMapper {
  import D = Domain
  import A = Api

  function QuizToApi(q: D.Quiz): A.Quiz {
    A.Quiz(q.quizId, q.quizScore)
  }

  function QuizToDomain(q: A.Quiz): D.Quiz {
    D.Quiz(q.quizId, q.quizScore)
  }

  /** Id and score are preserved, and the two conversions are mutually inverse. */
  lemma QuizRoundTrip(d: D.Quiz, a: A.Quiz)
    ensures QuizToApi(d).quizId == d.quizId && QuizToApi(d).quizScore == d.quizScore
    ensures QuizToDomain(a).quizId == a.quizId && QuizToDomain(a).quizScore == a.quizScore
    ensures QuizToDomain(QuizToApi(d)) == d
    ensures QuizToApi(QuizToDomain(a)) == a
  {
  }
}
