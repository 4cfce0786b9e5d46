/**
  The result view of src/pages/Quiz.tsx: the counts of correct, incorrect and
  unanswered questions, the rounded percentage and the grade it earns. All of
  it is computed from the question list of the session and the recorded
  answers, a map from question id to the chosen option.
 */
module QuizResult {
  import opened Wrappers
  import opened Seqs
  import opened Catalogue

  /** The recorded answer for `id` picks the correct option of the question the list holds under that id. */
  predicate IsCorrect(quizzes: seq<QuizItem>, id: string, answer: int)
    ensures IsCorrect(quizzes, id, answer) ==> id in Ids(quizzes)
  {
    var q := FindQuiz(quizzes, id);
    q.Some? && answer == q.value.correctAnswer
  }

  /** The list holds a question under `id` and the recorded answer is not its correct option. */
  predicate IsIncorrect(quizzes: seq<QuizItem>, id: string, answer: int)
    ensures IsIncorrect(quizzes, id, answer) <==> id in Ids(quizzes) && !IsCorrect(quizzes, id, answer)
  {
    var q := FindQuiz(quizzes, id);
    q.Some? && answer != q.value.correctAnswer
  }

  /** In a list with distinct ids, an answer to a listed question is correct or incorrect by its own correct option. */
  lemma VerdictOfListed(quizzes: seq<QuizItem>, i: int, answer: int)
    requires UniqueIds(quizzes) && 0 <= i < |quizzes|
    ensures IsCorrect(quizzes, quizzes[i].id, answer) <==> answer == quizzes[i].correctAnswer
    ensures IsIncorrect(quizzes, quizzes[i].id, answer) <==> answer != quizzes[i].correctAnswer
  {
    FindByUniqueId(quizzes, i);
  }

  /** The answered ids that the "correct" tile counts. */
  function CorrectIds(quizzes: seq<QuizItem>, answers: map<string, int>): set<string> {
    set id | id in answers && IsCorrect(quizzes, id, answers[id])
  }

  /** The answered ids that the "incorrect" tile counts. */
  function IncorrectIds(quizzes: seq<QuizItem>, answers: map<string, int>): set<string> {
    set id | id in answers && IsIncorrect(quizzes, id, answers[id])
  }

  /** The "correct" tile: answered ids of listed questions whose answer is the correct option. */
  function CorrectCount(quizzes: seq<QuizItem>, answers: map<string, int>): (n: nat)
    ensures n <= |answers|
  {
    assert CorrectIds(quizzes, answers) <= answers.Keys;
    SubsetSize(CorrectIds(quizzes, answers), answers.Keys);
    |CorrectIds(quizzes, answers)|
  }

  /** The "incorrect" tile: answered ids of listed questions whose answer is another option. */
  function IncorrectCount(quizzes: seq<QuizItem>, answers: map<string, int>): (n: nat)
    ensures n <= |answers|
  {
    assert IncorrectIds(quizzes, answers) <= answers.Keys;
    SubsetSize(IncorrectIds(quizzes, answers), answers.Keys);
    |IncorrectIds(quizzes, answers)|
  }

  /** The "unanswered" tile: list length minus the number of recorded answers; nothing keeps it from going negative. */
  function UnansweredCount(quizzes: seq<QuizItem>, answers: map<string, int>): (n: int)
    ensures n <= |quizzes| && (n == |quizzes| <==> answers == map[])
    ensures AnswersListed(quizzes, answers) ==> n >= 0
  {
    AnsweredAtMostListed(quizzes, answers);
    |quizzes| - |answers|
  }

  /** When every answered id is in the list, there are no more answers than questions. */
  lemma AnsweredAtMostListed(quizzes: seq<QuizItem>, answers: map<string, int>)
    ensures AnswersListed(quizzes, answers) ==> |answers| <= |quizzes|
  {
    if AnswersListed(quizzes, answers) {
      var listed := set x | x in Ids(quizzes);
      assert answers.Keys <= listed;
      SubsetSize(answers.Keys, listed);
      ElementCountAtMost(Ids(quizzes));
    }
  }

  /** Every recorded answer belongs to a question of the list. */
  predicate AnswersListed(quizzes: seq<QuizItem>, answers: map<string, int>) {
    forall id :: id in answers ==> id in Ids(quizzes)
  }

  /**
    When every answered id belongs to the list, each answer is counted in
    exactly one of the correct and incorrect tiles, the unanswered tile is not
    negative, and the three tiles add up to the number of questions.
   */
  lemma CountsPartition(quizzes: seq<QuizItem>, answers: map<string, int>)
    requires AnswersListed(quizzes, answers)
    ensures CorrectCount(quizzes, answers) + IncorrectCount(quizzes, answers) == |answers|
    ensures UnansweredCount(quizzes, answers) >= 0
    ensures CorrectCount(quizzes, answers) + IncorrectCount(quizzes, answers)
            + UnansweredCount(quizzes, answers) == |quizzes|
  {
    var c := CorrectIds(quizzes, answers);
    var w := IncorrectIds(quizzes, answers);
    assert c + w == answers.Keys;
    assert c * w == {};
    assert |c + w| == |c| + |w| - |c * w|;
  }

  /**
    Recording an answer for a question that had none raises the correct count
    by one exactly when the answer is correct, and leaves it otherwise.
   */
  lemma CorrectCountAfterNewAnswer(quizzes: seq<QuizItem>, answers: map<string, int>, id: string, a: int)
    requires id !in answers
    ensures CorrectCount(quizzes, answers[id := a]) ==
            CorrectCount(quizzes, answers) + (if IsCorrect(quizzes, id, a) then 1 else 0)
  {
    var before := CorrectIds(quizzes, answers);
    CorrectIdsAfterAnswer(quizzes, answers, id, a);
    assert id !in before;
    assert before - {id} == before;
  }

  /** Recording an answer under `id` changes the correct ids at `id` alone. */
  lemma CorrectIdsAfterAnswer(quizzes: seq<QuizItem>, answers: map<string, int>, id: string, a: int)
    ensures CorrectIds(quizzes, answers[id := a]) ==
            CorrectIds(quizzes, answers) - {id} + (if IsCorrect(quizzes, id, a) then {id} else {})
  {
    forall x | x != id
      ensures x in CorrectIds(quizzes, answers[id := a]) <==> x in CorrectIds(quizzes, answers)
    {
      assert x in answers[id := a] <==> x in answers;
    }
  }

  /** In a list whose correct answers are option positions, an answer outside the options never counts as correct. */
  lemma OutOfRangeNeverCorrect(quizzes: seq<QuizItem>, id: string, a: int)
    requires forall i :: 0 <= i < |quizzes| ==> 0 <= quizzes[i].correctAnswer < |quizzes[i].options|
    requires FindQuiz(quizzes, id).Some? ==> a < 0 || a >= |FindQuiz(quizzes, id).value.options|
    ensures !IsCorrect(quizzes, id, a)
  {
    var q := FindQuiz(quizzes, id);
    if q.Some? {
      var k :| 0 <= k < |quizzes| && quizzes[k] == q.value;
    }
  }

  /**
    `Math.round(score / total * 100)`, in integers: the nearest whole
    percentage, halves rounded up. The list of a session is never empty, so
    `total` is positive.
   */
  function Percentage(score: int, total: int): (p: int)
    requires total > 0
    ensures 2 * total * p <= 200 * score + total < 2 * total * (p + 1)
    ensures 0 <= score <= total ==> 0 <= p <= 100
  {
    var x := 200 * score + total;
    var d := 2 * total;
    var p := x / d;
    FloorDivision(x, d);
    MultiplyMonotone(d, p, -1);
    MultiplyMonotone(d, 100, p);
    p
  }

  /** `x / d` is the largest multiple count of `d` that fits in `x`. */
  lemma FloorDivision(x: int, d: int)
    requires d > 0
    ensures d * (x / d) <= x < d * (x / d + 1)
  {
    assert x == d * (x / d) + x % d;
    assert d * (x / d + 1) == d * (x / d) + d;
  }

  lemma MultiplyMonotone(d: int, a: int, b: int)
    requires d > 0
    ensures a <= b ==> d * a <= d * b
    ensures a < b ==> d * (a + 1) <= d * b
  {
    if a <= b {
      var k := b - a;
      assert d * b == d * a + d * k;
      assert d * (a + 1) == d * a + d;
      if k > 0 {
        assert d * k == d + d * (k - 1);
        assert d * (k - 1) >= 0;
      } else {
        assert d * k == 0;
      }
    }
  }

  /** The percentage is at least `k` exactly when the score is at least `k - 1/2` percent of the total. */
  lemma PercentageAtLeast(score: int, total: int, k: int)
    requires total > 0
    ensures Percentage(score, total) >= k <==> 200 * score + total >= 2 * k * total
  {
    var p := Percentage(score, total);
    MultiplyMonotone(2 * total, k, p);
    MultiplyMonotone(2 * total, p, k);
  }

  datatype Grade = Excellent | Good | Pass | KeepTrying

  /** The grade chosen by the first threshold the percentage reaches: 90, then 70, then 60. */
  function GradeOf(percentage: int): (g: Grade)
    ensures g == Excellent <==> percentage >= 90
    ensures g == Good <==> 70 <= percentage < 90
    ensures g == Pass <==> 60 <= percentage < 70
    ensures g == KeepTrying <==> percentage < 60
  {
    if percentage >= 90 then Excellent
    else if percentage >= 70 then Good
    else if percentage >= 60 then Pass
    else KeepTrying
  }

  /** The text the result view shows for a grade. */
  function GradeLabel(g: Grade): (text: string)
    ensures text == "优秀!" <==> g == Excellent
    ensures text == "良好!" <==> g == Good
    ensures text == "及格" <==> g == Pass
    ensures text == "继续努力" <==> g == KeepTrying
  {
    match g
    case Excellent => "优秀!"
    case Good => "良好!"
    case Pass => "及格"
    case KeepTrying => "继续努力"
  }

  /** Grades ranked from lowest to highest. */
  function Rank(g: Grade): nat {
    match g
    case KeepTrying => 0
    case Pass => 1
    case Good => 2
    case Excellent => 3
  }

  /** A higher percentage never earns a lower grade. */
  lemma GradeMonotone(p: int, q: int)
    requires p <= q
    ensures Rank(GradeOf(p)) <= Rank(GradeOf(q))
  {
  }

  /**
    The grade in terms of the score itself: each tier starts half a percent
    below its threshold, because the percentage is rounded first.
   */
  lemma GradeOfScore(score: int, total: int)
    requires total > 0
    ensures GradeOf(Percentage(score, total)) == Excellent <==> 200 * score >= 179 * total
    ensures GradeOf(Percentage(score, total)) == Good <==> 139 * total <= 200 * score < 179 * total
    ensures GradeOf(Percentage(score, total)) == Pass <==> 119 * total <= 200 * score < 139 * total
    ensures GradeOf(Percentage(score, total)) == KeepTrying <==> 200 * score < 119 * total
  {
    PercentageAtLeast(score, total, 90);
    PercentageAtLeast(score, total, 70);
    PercentageAtLeast(score, total, 60);
  }

  /**
    The lowest score for each tier on the three lists a session can hold:
    the 20 basics questions, the 8 advanced ones and all 28.
   */
  lemma MinimumScores(score: int)
    ensures GradeOf(Percentage(score, 20)) == Excellent <==> score >= 18
    ensures Rank(GradeOf(Percentage(score, 20))) >= Rank(Good) <==> score >= 14
    ensures Rank(GradeOf(Percentage(score, 20))) >= Rank(Pass) <==> score >= 12
    ensures GradeOf(Percentage(score, 8)) == Excellent <==> score >= 8
    ensures Rank(GradeOf(Percentage(score, 8))) >= Rank(Good) <==> score >= 6
    ensures Rank(GradeOf(Percentage(score, 8))) >= Rank(Pass) <==> score >= 5
    ensures GradeOf(Percentage(score, 28)) == Excellent <==> score >= 26
    ensures Rank(GradeOf(Percentage(score, 28))) >= Rank(Good) <==> score >= 20
    ensures Rank(GradeOf(Percentage(score, 28))) >= Rank(Pass) <==> score >= 17
  {
    GradeOfScore(score, 20);
    GradeOfScore(score, 8);
    GradeOfScore(score, 28);
  }

  /** Everything the result view shows. */
  datatype Summary = Summary(
    score: int,
    total: int,
    percentage: int,
    grade: Grade,
    correct: nat,
    incorrect: nat,
    unanswered: int)

  /** The result view of a finished session over a non-empty list. */
  function Summarize(quizzes: seq<QuizItem>, answers: map<string, int>, score: int): (r: Summary)
    requires |quizzes| > 0
    ensures r.total == |quizzes| && r.score == score
    ensures 2 * r.total * r.percentage <= 200 * score + r.total < 2 * r.total * (r.percentage + 1)
    ensures AnswersListed(quizzes, answers) ==> r.correct + r.incorrect + r.unanswered == r.total
    ensures r.grade == GradeOf(r.percentage)
    ensures r.grade == Excellent <==> r.percentage >= 90
  {
    var p := Percentage(score, |quizzes|);
    CountsPartitionIfListed(quizzes, answers);
    Summary(score, |quizzes|, p, GradeOf(p),
            CorrectCount(quizzes, answers), IncorrectCount(quizzes, answers),
            UnansweredCount(quizzes, answers))
  }

  lemma CountsPartitionIfListed(quizzes: seq<QuizItem>, answers: map<string, int>)
    ensures AnswersListed(quizzes, answers) ==>
      CorrectCount(quizzes, answers) + IncorrectCount(quizzes, answers)
      + UnansweredCount(quizzes, answers) == |quizzes|
  {
    if AnswersListed(quizzes, answers) {
      CountsPartition(quizzes, answers);
    }
  }
}
