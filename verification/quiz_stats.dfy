/** The quiz statistics card of the client: average and best score over a
    user's quizzes, the colour tier of a score and the badge shown beside it. */
module QuizStats {

  /** A quiz as the client receives it. */
  datatype QuizResult = QuizResult(quizId: string, quizScore: int)

  function Scores(quizzes: seq<QuizResult>): (r: seq<int>)
    ensures |r| == |quizzes|
    ensures forall i :: 0 <= i < |r| ==> r[i] == quizzes[i].quizScore
  {
    seq(|quizzes|, i requires 0 <= i < |quizzes| => quizzes[i].quizScore)
  }

  /** The running total `reduce` computes, from the last score back. */
  function Sum(scores: seq<int>): int
  {
    if scores == [] then 0 else Sum(scores[..|scores| - 1]) + scores[|scores| - 1]
  }

  /** `calculateAverage`: 0 for no quizzes, otherwise the mean rounded to the
      nearest integer with halves rounded up, as `Math.round` does. */
  function Average(scores: seq<int>): (r: int)
    ensures scores == [] ==> r == 0
    ensures scores != [] ==>
      2 * |scores| * r - |scores| <= 2 * Sum(scores) < 2 * |scores| * r + |scores|
  {
    if scores == [] then 0
    else
      var n := |scores|;
      (2 * Sum(scores) + n) / (2 * n)
  }

  /** A positive multiple of `d` below the multiplier itself means `d < 1`. */
  lemma MultipleBelow(k: int, d: int)
    requires k > 0 && k * d < k
    ensures d < 1
  {
  }

  /** The nearest-integer property pins the average down: no other integer has it. */
  lemma AverageIsUnique(scores: seq<int>, m: int)
    requires scores != []
    requires 2 * |scores| * m - |scores| <= 2 * Sum(scores) < 2 * |scores| * m + |scores|
    ensures m == Average(scores)
  {
    var n := |scores|;
    var k := 2 * n;
    var a := Average(scores);
    assert k * m - k * a == k * (m - a);
    assert k * a - k * m == k * (a - m);
    MultipleBelow(k, m - a);
    MultipleBelow(k, a - m);
  }

  /** `getHighestScore`: 0 for no quizzes, otherwise the largest score. */
  function Highest(scores: seq<int>): (r: int)
    ensures scores == [] ==> r == 0
    ensures scores != [] ==> r in scores
    ensures forall i :: 0 <= i < |scores| ==> scores[i] <= r
  {
    if scores == [] then 0
    else if |scores| == 1 then scores[0]
    else
      var rest := Highest(scores[1..]);
      assert forall i :: 1 <= i < |scores| ==> scores[i] == scores[1..][i - 1];
      if scores[0] >= rest then scores[0] else rest
  }

  // ---- Score tiers -----------------------------------------------------------

  datatype Tier = Green | Yellow | Red

  function TierOf(score: int): (t: Tier)
    ensures t == Green <==> score >= 8
    ensures t == Yellow <==> 6 <= score < 8
    ensures t == Red <==> score < 6
  {
    if score >= 8 then Green else if score >= 6 then Yellow else Red
  }

  /** The Tailwind colour name of a tier; the three class lists below differ only in it. */
  function Hue(t: Tier): (h: string)
    ensures |h| >= 3
  {
    match t
    case Green => "green"
    case Yellow => "yellow"
    case Red => "red"
  }

  /** The text classes of a tier: `text-<hue>-600 dark:text-<hue>-400`. */
  function TierText(t: Tier): string
  {
    "text-" + Hue(t) + "-600 dark:text-" + Hue(t) + "-400"
  }

  /** The background and border classes of a tier:
      `bg-<hue>-50 dark:bg-<hue>-900/20 border-<hue>-200 dark:border-<hue>-800`. */
  function TierBackground(t: Tier): string
  {
    "bg-" + Hue(t) + "-50 dark:bg-" + Hue(t) + "-900/20 border-" + Hue(t) + "-200 dark:border-" + Hue(t) + "-800"
  }

  lemma TierTextInjective(t: Tier, u: Tier)
    ensures TierText(t) == TierText(u) <==> t == u
  {
    assert TierText(t)[5] == Hue(t)[0];
    assert TierText(u)[5] == Hue(u)[0];
  }

  lemma TierBackgroundInjective(t: Tier, u: Tier)
    ensures TierBackground(t) == TierBackground(u) <==> t == u
  {
    assert TierBackground(t)[3] == Hue(t)[0];
    assert TierBackground(u)[3] == Hue(u)[0];
  }

  /** `getScoreColor`: the text classes of a score. */
  function TextColor(score: int): string
  {
    TierText(TierOf(score))
  }

  /** `getScoreBgColor`: the background and border classes of a score. */
  function BgColor(score: int): string
  {
    TierBackground(TierOf(score))
  }

  /** Both colours tell the tiers apart: two scores get the same text colour
      exactly when they get the same background, exactly when they are in the
      same tier. */
  lemma ColoursFollowTier(a: int, b: int)
    ensures TextColor(a) == TextColor(b) <==> TierOf(a) == TierOf(b)
    ensures BgColor(a) == BgColor(b) <==> TierOf(a) == TierOf(b)
  {
    TierTextInjective(TierOf(a), TierOf(b));
    TierBackgroundInjective(TierOf(a), TierOf(b));
  }

  /** The two badges a row may show beside its score. */
  datatype Badges = Badges(trophy: bool, star: bool)

  function BadgesOf(score: int): (b: Badges)
    ensures b.trophy <==> TierOf(score) == Green
    ensures b.star <==> TierOf(score) == Yellow
    ensures !(b.trophy && b.star)
  {
    Badges(score >= 8, score >= 6 && score < 8)
  }

  /** One row of the list of recent quizzes. */
  datatype Row = Row(position: int, shortId: string, textColor: string, bgColor: string, badges: Badges)

  /** The first eight characters of the id (all of it when shorter), then an ellipsis. */
  function ShortId(id: string): (r: string)
    ensures |r| == (if |id| < 8 then |id| else 8) + 3
    ensures r[..|r| - 3] <= id && r[|r| - 3..] == "..."
  {
    (if |id| < 8 then id else id[..8]) + "..."
  }

  /** The list rows, in the order received: row `i` of `n` is labelled `n - i`. */
  function Rows(quizzes: seq<QuizResult>): (rows: seq<Row>)
    ensures |rows| == |quizzes|
    ensures forall i :: 0 <= i < |rows| ==> rows[i].position == |quizzes| - i
    ensures forall i :: 0 <= i < |rows| ==>
      && rows[i].shortId == ShortId(quizzes[i].quizId)
      && rows[i].textColor == TextColor(quizzes[i].quizScore)
      && rows[i].bgColor == BgColor(quizzes[i].quizScore)
      && rows[i].badges == BadgesOf(quizzes[i].quizScore)
  {
    seq(|quizzes|, i requires 0 <= i < |quizzes| =>
      var q := quizzes[i];
      Row(|quizzes| - i, ShortId(q.quizId), TextColor(q.quizScore), BgColor(q.quizScore), BadgesOf(q.quizScore)))
  }

  /** The labels count down from the number of quizzes to 1, each appearing once. */
  lemma LabelsCountDown(quizzes: seq<QuizResult>)
    ensures forall i :: 0 <= i < |quizzes| ==> 1 <= Rows(quizzes)[i].position <= |quizzes|
    ensures forall i, j :: 0 <= i < j < |quizzes| ==> Rows(quizzes)[i].position > Rows(quizzes)[j].position
    ensures quizzes != [] ==> Rows(quizzes)[0].position == |quizzes| && Rows(quizzes)[|quizzes| - 1].position == 1
  {
  }
}
