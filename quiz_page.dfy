/**
  The quiz session of src/pages/Quiz.tsx. The page keeps seven pieces of
  state; its handlers `startQuiz`, `handleAnswer`, `nextQuestion` and
  `resetQuiz` update them, and the buttons of its three views (menu, quiz,
  result) decide which handler runs when. Each `setX` call becomes an
  assignment to the field it sets.
 */
module QuizPage {
  import opened Wrappers
  import opened Seqs
  import opened Catalogue
  import opened QuizResult

  /** `'menu' | 'quiz' | 'result'`: the view the page shows. */
  datatype QuizState = Menu | InQuiz | Result

  /** `'all' | 'basics' | 'advanced'`: the choice on the menu cards. */
  datatype Category = All | Basics | Advanced

  /** The string the page hands to `getQuizzesByCategory`. */
  function CategoryKey(cat: Category): string {
    match cat
    case All => "all"
    case Basics => "basics"
    case Advanced => "advanced"
  }

  /** The ids a category's question list consists of, in order. */
  function ListedIds(cat: Category): seq<string> {
    match cat
    case All => QuestionIds
    case Basics => BasicsIds
    case Advanced => AdvancedIds
  }

  /**
    `cat === 'all' ? quizzes : getQuizzesByCategory(cat)`: the whole catalogue,
    or the questions of one category, in catalogue order.
   */
  function QuestionList(cat: Category): (r: seq<QuizItem>)
    ensures Ids(r) == ListedIds(cat)
    ensures |r| == match cat case All => 28 case Basics => 20 case Advanced => 8
  {
    CatalogueIdsListed();
    BasicsSelection();
    AdvancedSelection("advanced");
    if cat == All then Quizzes else GetQuizzesByCategory(CategoryKey(cat))
  }

  /** Every question's correct answer is the position of one of its options. */
  predicate AnswersInRange(items: seq<QuizItem>) {
    forall i :: 0 <= i < |items| ==> 0 <= items[i].correctAnswer < |items[i].options|
  }

  /** The set of ids of `items`. */
  function IdSet(items: seq<QuizItem>): set<string> {
    set x | x in Ids(items)
  }

  /** Two ordered slices of a list with distinct ids, put together, still have distinct ids. */
  lemma UniqueIdsOfSlices(s: seq<QuizItem>, a: nat, b: nat, c: nat, d: nat)
    requires UniqueIds(s) && a <= b <= c <= d <= |s|
    ensures UniqueIds(s[a..b] + s[c..d])
  {
    var r := s[a..b] + s[c..d];
    forall i, j | 0 <= i < j < |r|
      ensures r[i].id != r[j].id
    {
      var si := if i < b - a then a + i else c + i - (b - a);
      var sj := if j < b - a then a + j else c + j - (b - a);
      assert r[i] == s[si] && r[j] == s[sj] && si < sj;
    }
  }

  /**
    Every list a session can hold is non-empty, has distinct ids, and each of
    its questions has its correct answer among its options.
   */
  lemma QuestionListWellFormed(cat: Category)
    ensures |QuestionList(cat)| > 0
    ensures UniqueIds(QuestionList(cat))
    ensures AnswersInRange(QuestionList(cat))
  {
    var r := QuestionList(cat);
    CatalogueIdsUnique();
    CatalogueAnswersValid();
    if cat == Basics {
      BasicsSelection();
      UniqueIdsOfSlices(Quizzes, 0, 8, 11, 23);
    } else if cat == Advanced {
      AdvancedSelection("advanced");
      UniqueIdsOfSlices(Quizzes, 8, 11, 23, 28);
    }
    if cat != All {
      forall i | 0 <= i < |r|
        ensures 0 <= r[i].correctAnswer < |r[i].options|
      {
        assert r[i] in Quizzes;
      }
    }
  }

  lemma IdSetStep(items: seq<QuizItem>, i: int)
    requires 0 <= i < |items|
    ensures IdSet(items[..i + 1]) == IdSet(items[..i]) + {items[i].id}
  {
    IdsOfSlice(items, 0, i + 1);
    IdsOfSlice(items, 0, i);
    assert Ids(items[..i + 1]) == Ids(items[..i]) + [items[i].id];
  }

  lemma IdSetOfPrefix(items: seq<QuizItem>, i: int)
    requires 0 <= i <= |items|
    ensures IdSet(items[..i]) <= IdSet(items)
  {
    IdsOfSlice(items, 0, i);
  }

  /** In a list with distinct ids, no earlier question carries the id of question `i`. */
  lemma UniqueIdNotBefore(items: seq<QuizItem>, i: int)
    requires UniqueIds(items) && 0 <= i < |items|
    ensures items[i].id !in IdSet(items[..i])
  {
    IdsOfSlice(items, 0, i);
    forall k | 0 <= k < i
      ensures Ids(items[..i])[k] != items[i].id
    {
      assert Ids(items[..i])[k] == items[k].id;
    }
  }

  /** Every explanation flag that is present is set. */
  predicate AllShown(shown: map<string, bool>) {
    forall id :: id in shown ==> shown[id]
  }

  /**
    The part of the invariant that does not depend on the view or the index:
    a well-formed list, an explanation shown for exactly the answered ids,
    answers only to listed questions, and a score counting the correct ones.
   */
  predicate AnswersAgree(items: seq<QuizItem>, answers: map<string, int>, shown: map<string, bool>, score: int) {
    && UniqueIds(items)
    && AnswersInRange(items)
    && shown.Keys == answers.Keys
    && AllShown(shown)
    && answers.Keys <= IdSet(items)
    && score == CorrectCount(items, answers)
  }

  /**
    What holds in every state the page's buttons can lead to, stated over the
    seven pieces of state: the list has distinct ids and valid answers, every
    answered question shows its explanation, every answer belongs to the list,
    the score is the number of correct answers, the index stays inside a
    non-empty list, in the quiz view exactly the questions before the current
    one (and perhaps the current one) are answered, and in the result view all
    of them are.
   */
  predicate Invariant(st: QuizState, items: seq<QuizItem>, index: int,
                      answers: map<string, int>, shown: map<string, bool>, score: int)
  {
    && AnswersAgree(items, answers, shown, score)
    && 0 <= index
    && (items != [] ==> index < |items|)
    && (st != Menu ==> items != [])
    && (st == InQuiz ==> IdSet(items[..index]) <= answers.Keys <= IdSet(items[..index + 1]))
    && (st == Result ==> answers.Keys == IdSet(items))
  }

  /**
    The answered ids of the quiz view before and after the next button: with
    the current question answered, they run up to and including question
    `i`, and do not yet include question `i + 1`.
   */
  lemma AdvanceAnswered(items: seq<QuizItem>, i: int, keys: set<string>)
    requires UniqueIds(items) && 0 <= i < |items| - 1
    requires IdSet(items[..i]) <= keys <= IdSet(items[..i + 1]) && items[i].id in keys
    ensures IdSet(items[..i + 1]) <= keys <= IdSet(items[..i + 2])
    ensures items[i + 1].id !in keys
  {
    IdSetStep(items, i);
    IdSetStep(items, i + 1);
    UniqueIdNotBefore(items, i + 1);
  }

  /** After the last question is answered, every question of the list is. */
  lemma FinishAnswered(items: seq<QuizItem>, keys: set<string>)
    requires |items| > 0
    requires IdSet(items[..|items| - 1]) <= keys <= IdSet(items[..|items|]) && items[|items| - 1].id in keys
    ensures keys == IdSet(items)
  {
    IdSetStep(items, |items| - 1);
    assert items[..|items|] == items;
  }

  /** Answering the current question of the quiz view keeps the answered ids within the questions up to it. */
  lemma AnswerCurrent(items: seq<QuizItem>, i: int, keys: set<string>)
    requires 0 <= i < |items|
    requires IdSet(items[..i]) <= keys <= IdSet(items[..i + 1])
    ensures IdSet(items[..i]) <= keys + {items[i].id} <= IdSet(items[..i + 1])
    ensures keys + {items[i].id} <= IdSet(items)
  {
    IdSetStep(items, i);
    IdSetOfPrefix(items, i + 1);
  }

  /** A well-formed list with nothing answered, at its first question, satisfies the invariant in the menu and the quiz view. */
  lemma InvariantFresh(st: QuizState, items: seq<QuizItem>)
    requires UniqueIds(items) && AnswersInRange(items)
    requires st == Menu || (st == InQuiz && items != [])
    ensures Invariant(st, items, 0, map[], map[], 0)
  {
    assert CorrectIds(items, map[]) == {};
    assert items[..0] == [];
    assert IdSet([]) == {};
  }

  /** The state `startQuiz` sets up satisfies the invariant, with its first question unanswered. */
  lemma InvariantAtStart(cat: Category)
    ensures Invariant(InQuiz, QuestionList(cat), 0, map[], map[], 0)
    ensures 0 < |QuestionList(cat)|
  {
    QuestionListWellFormed(cat);
    InvariantFresh(InQuiz, QuestionList(cat));
  }

  /**
    Answering the current, unanswered question keeps the invariant: the
    answer and its explanation flag are recorded and the score goes up by one
    exactly when the answer is the question's correct option.
   */
  lemma InvariantAfterAnswer(items: seq<QuizItem>, index: int, answers: map<string, int>,
                             shown: map<string, bool>, score: int, a: int)
    requires Invariant(InQuiz, items, index, answers, shown, score)
    requires items[index].id !in answers
    ensures IsCorrect(items, items[index].id, a) <==> a == items[index].correctAnswer
    ensures Invariant(InQuiz, items, index, answers[items[index].id := a], shown[items[index].id := true],
                      score + (if a == items[index].correctAnswer then 1 else 0))
  {
    var id := items[index].id;
    FindByUniqueId(items, index);
    CorrectCountAfterNewAnswer(items, answers, id, a);
    RecordAnswer(answers, shown, id, a);
    AnswerCurrent(items, index, answers.Keys);
  }

  /** Recording an answer and its explanation flag keeps the two maps on the same keys, with every flag set. */
  lemma RecordAnswer(answers: map<string, int>, shown: map<string, bool>, id: string, a: int)
    requires shown.Keys == answers.Keys && AllShown(shown)
    ensures answers[id := a].Keys == answers.Keys + {id}
    ensures shown[id := true].Keys == answers[id := a].Keys
    ensures AllShown(shown[id := true])
  {
  }

  /**
    The next button on an answered question before the last keeps the
    invariant: the page moves to the next question, which is still
    unanswered.
   */
  lemma InvariantAfterAdvance(items: seq<QuizItem>, index: int, answers: map<string, int>,
                              shown: map<string, bool>, score: int)
    requires Invariant(InQuiz, items, index, answers, shown, score)
    requires items[index].id in answers && index < |items| - 1
    ensures Invariant(InQuiz, items, index + 1, answers, shown, score)
    ensures items[index + 1].id !in answers
  {
    AdvanceAnswered(items, index, answers.Keys);
  }

  /**
    The next button on the answered last question keeps the invariant: the
    page moves to the result view with every question answered.
   */
  lemma InvariantAfterFinish(items: seq<QuizItem>, index: int, answers: map<string, int>,
                             shown: map<string, bool>, score: int)
    requires Invariant(InQuiz, items, index, answers, shown, score)
    requires items[index].id in answers && index == |items| - 1
    ensures Invariant(Result, items, index, answers, shown, score)
  {
    FinishAnswered(items, answers.Keys);
  }

  /** When every question of a list with distinct ids has an answer, none is counted unanswered and every answer is counted once. */
  lemma FinishedCounts(items: seq<QuizItem>, answers: map<string, int>)
    requires UniqueIds(items) && answers.Keys == IdSet(items)
    ensures UnansweredCount(items, answers) == 0
    ensures CorrectCount(items, answers) + IncorrectCount(items, answers) == |items|
  {
    assert Distinct(Ids(items)) by {
      forall i, j | 0 <= i < j < |items| ensures Ids(items)[i] != Ids(items)[j] {
        assert items[i].id != items[j].id;
      }
    }
    DistinctElementCount(Ids(items));
    assert |answers| == |answers.Keys|;
    CountsPartition(items, answers);
  }

  /** The number of the first `n` positions where the chosen option is the question's correct one. */
  function Matches(items: seq<QuizItem>, choices: seq<int>, n: nat): (m: nat)
    requires n <= |items| == |choices|
    ensures m <= n
  {
    if n == 0 then 0
    else Matches(items, choices, n - 1) + (if choices[n - 1] == items[n - 1].correctAnswer then 1 else 0)
  }

  /**
    The answers after the first `n` questions were answered, in order, with
    the first `n` choices: one entry per question, under its id.
   */
  function Recording(items: seq<QuizItem>, choices: seq<int>, n: nat): (r: map<string, int>)
    requires n <= |items| == |choices|
    ensures r.Keys == IdSet(items[..n])
  {
    if n == 0 then map[]
    else
      IdSetStep(items, n - 1);
      Recording(items, choices, n - 1)[items[n - 1].id := choices[n - 1]]
  }

  /** In a list with distinct ids, each of the first `n` choices is found under its question's id. */
  lemma {:induction false} RecordingLookup(items: seq<QuizItem>, choices: seq<int>, n: nat)
    requires UniqueIds(items) && n <= |items| == |choices|
    ensures forall j :: 0 <= j < n ==> Recording(items, choices, n)[items[j].id] == choices[j]
  {
    if n > 0 {
      RecordingLookup(items, choices, n - 1);
      forall j | 0 <= j < n - 1
        ensures Recording(items, choices, n)[items[j].id] == choices[j]
      {
        assert items[j].id != items[n - 1].id;
      }
    }
  }

  /**
    In a list with distinct ids, the first `n` choices, recorded in order,
    hold exactly `Matches(items, choices, n)` correct answers.
   */
  lemma {:induction false} CorrectCountOfRecording(items: seq<QuizItem>, choices: seq<int>, n: nat)
    requires UniqueIds(items) && n <= |items| == |choices|
    ensures CorrectCount(items, Recording(items, choices, n)) == Matches(items, choices, n)
  {
    if n == 0 {
      assert CorrectIds(items, map[]) == {};
    } else {
      CorrectCountOfRecording(items, choices, n - 1);
      RecordingStep(items, choices, n);
      CorrectCountAfterNewAnswer(items, Recording(items, choices, n - 1), items[n - 1].id, choices[n - 1]);
    }
  }

  /** The `n`-th choice goes in under a new id, and counts as correct exactly when it matches. */
  lemma RecordingStep(items: seq<QuizItem>, choices: seq<int>, n: nat)
    requires UniqueIds(items) && 0 < n <= |items| == |choices|
    ensures items[n - 1].id !in Recording(items, choices, n - 1)
    ensures IsCorrect(items, items[n - 1].id, choices[n - 1]) <==> choices[n - 1] == items[n - 1].correctAnswer
  {
    UniqueIdNotBefore(items, n - 1);
    FindByUniqueId(items, n - 1);
  }

  /**
    The correct answer to an unanswered question, recorded twice under its
    id, is one correct answer: the second recording changes nothing.
   */
  lemma RepeatedCorrectAnswer(items: seq<QuizItem>, answers: map<string, int>, i: int)
    requires UniqueIds(items) && 0 <= i < |items| && items[i].id !in answers
    ensures IsCorrect(items, items[i].id, items[i].correctAnswer)
    ensures var once := answers[items[i].id := items[i].correctAnswer];
            CorrectCount(items, once[items[i].id := items[i].correctAnswer]) == CorrectCount(items, answers) + 1
  {
    var id := items[i].id;
    var c := items[i].correctAnswer;
    FindByUniqueId(items, i);
    CorrectCountAfterNewAnswer(items, answers, id, c);
    assert answers[id := c][id := c] == answers[id := c];
  }

  class QuizSession {
    var state: QuizState
    var category: Category
    var currentQuizzes: seq<QuizItem>
    var currentIndex: int
    var selectedAnswers: map<string, int>
    var showExplanation: map<string, bool>
    var score: int

    /** The invariant of the page, on the current values of its fields. */
    ghost predicate Consistent()
      reads this
    {
      Invariant(state, currentQuizzes, currentIndex, selectedAnswers, showExplanation, score)
    }

    /** The page's initial state: the `useState` defaults. */
    constructor ()
      ensures state == Menu && category == All && currentQuizzes == [] && currentIndex == 0
      ensures selectedAnswers == map[] && showExplanation == map[] && score == 0
      ensures Consistent()
    {
      state := Menu;
      category := All;
      currentQuizzes := [];
      currentIndex := 0;
      selectedAnswers := map[];
      showExplanation := map[];
      score := 0;
      InvariantFresh(Menu, []);
    }

    /** `isAnswered`: there is a current question and it has a recorded answer. */
    predicate IsAnswered()
      reads this
      ensures state == InQuiz && Consistent() ==>
        (IsAnswered() <==> selectedAnswers.Keys == IdSet(currentQuizzes[..currentIndex + 1]))
    {
      if 0 <= currentIndex < |currentQuizzes| then
        IdSetStep(currentQuizzes, currentIndex);
        currentQuizzes[currentIndex].id in selectedAnswers
      else
        false
    }

    /** `startQuiz`: load the category's list and begin at its first question with nothing answered. */
    method StartQuiz(cat: Category)
      modifies this
      ensures category == cat && currentQuizzes == QuestionList(cat)
      ensures currentIndex == 0 && selectedAnswers == map[] && showExplanation == map[]
      ensures score == 0 && state == InQuiz
      ensures Consistent() && !IsAnswered()
    {
      var quizList := QuestionList(cat);
      InvariantAtStart(cat);
      Load(cat, quizList);
    }

    /** The assignments of `startQuiz`, for a list that satisfies the invariant from its first question. */
    method Load(cat: Category, quizList: seq<QuizItem>)
      requires Invariant(InQuiz, quizList, 0, map[], map[], 0)
      modifies this
      ensures category == cat && currentQuizzes == quizList
      ensures currentIndex == 0 && selectedAnswers == map[] && showExplanation == map[]
      ensures score == 0 && state == InQuiz
      ensures Consistent() && !IsAnswered()
    {
      category := cat;
      currentQuizzes := quizList;
      currentIndex := 0;
      selectedAnswers := map[];
      showExplanation := map[];
      score := 0;
      state := InQuiz;
    }

    /**
      `handleAnswer`: record the answer (replacing any earlier one), show the
      explanation, and add one to the score when the first listed question
      with that id has this answer as its correct one. Nothing here stops a
      second answer to the same question from scoring again.
     */
    method HandleAnswer(quizId: string, answerIndex: int)
      modifies this
      ensures selectedAnswers == old(selectedAnswers)[quizId := answerIndex]
      ensures showExplanation == old(showExplanation)[quizId := true]
      ensures score == old(score) + (if IsCorrect(currentQuizzes, quizId, answerIndex) then 1 else 0)
      ensures state == old(state) && category == old(category)
      ensures currentQuizzes == old(currentQuizzes) && currentIndex == old(currentIndex)
    {
      selectedAnswers := selectedAnswers[quizId := answerIndex];
      showExplanation := showExplanation[quizId := true];
      var quiz := FindQuiz(currentQuizzes, quizId);
      if quiz.Some? && answerIndex == quiz.value.correctAnswer {
        score := score + 1;
      }
    }

    /** `nextQuestion`: move to the next question, or to the result view after the last one. */
    method NextQuestion()
      modifies this
      ensures old(currentIndex) < |currentQuizzes| - 1 ==> currentIndex == old(currentIndex) + 1 && state == old(state)
      ensures old(currentIndex) >= |currentQuizzes| - 1 ==> currentIndex == old(currentIndex) && state == Result
      ensures category == old(category) && currentQuizzes == old(currentQuizzes)
      ensures selectedAnswers == old(selectedAnswers) && showExplanation == old(showExplanation)
      ensures score == old(score)
    {
      if currentIndex < |currentQuizzes| - 1 {
        currentIndex := currentIndex + 1;
      } else {
        state := Result;
      }
    }

    /** `resetQuiz`: back to the menu with nothing answered; the question list and category stay. */
    method ResetQuiz()
      modifies this
      ensures state == Menu && currentIndex == 0 && score == 0
      ensures selectedAnswers == map[] && showExplanation == map[]
      ensures currentQuizzes == old(currentQuizzes) && category == old(category)
      ensures old(Consistent()) ==> Consistent()
    {
      if Consistent() {
        InvariantFresh(Menu, currentQuizzes);
      }
      state := Menu;
      currentIndex := 0;
      selectedAnswers := map[];
      showExplanation := map[];
      score := 0;
    }

    /** The result view's "back to home" button: only the view changes. */
    method BackToMenu()
      modifies this
      ensures state == Menu
      ensures category == old(category) && currentQuizzes == old(currentQuizzes)
      ensures currentIndex == old(currentIndex) && score == old(score)
      ensures selectedAnswers == old(selectedAnswers) && showExplanation == old(showExplanation)
      ensures old(Consistent()) ==> Consistent()
    {
      state := Menu;
    }

    /**
      A click on option `idx` of the current question in the quiz view:
      `!isAnswered && handleAnswer(currentQuiz.id, idx)`. Once the question is
      answered the click does nothing, so each question is answered at most
      once and the score stays equal to the number of correct answers.
     */
    method SelectOption(idx: int)
      requires state == InQuiz && Consistent()
      requires 0 <= idx < |currentQuizzes[currentIndex].options|
      modifies this
      ensures state == InQuiz && currentQuizzes == old(currentQuizzes) && currentIndex == old(currentIndex)
      ensures category == old(category)
      ensures Consistent() && IsAnswered()
      ensures old(IsAnswered()) ==> unchanged(this)
      ensures !old(IsAnswered()) ==>
        selectedAnswers == old(selectedAnswers)[currentQuizzes[currentIndex].id := idx] &&
        score == old(score) + (if idx == currentQuizzes[currentIndex].correctAnswer then 1 else 0)
    {
      if !IsAnswered() {
        InvariantAfterAnswer(currentQuizzes, currentIndex, selectedAnswers, showExplanation, score, idx);
        HandleAnswer(currentQuizzes[currentIndex].id, idx);
      }
    }

    /**
      The quiz view's next button, `disabled={!isAnswered}`: it does nothing
      until the current question is answered, then runs `nextQuestion`.
     */
    method ClickNext()
      requires state == InQuiz && Consistent()
      modifies this
      ensures !old(IsAnswered()) ==> unchanged(this)
      ensures old(IsAnswered()) && old(currentIndex) < |currentQuizzes| - 1 ==>
        state == InQuiz && currentIndex == old(currentIndex) + 1 && !IsAnswered()
      ensures old(IsAnswered()) && old(currentIndex) == |currentQuizzes| - 1 ==>
        state == Result && currentIndex == old(currentIndex)
      ensures currentQuizzes == old(currentQuizzes) && selectedAnswers == old(selectedAnswers)
      ensures showExplanation == old(showExplanation)
      ensures score == old(score) && category == old(category)
      ensures Consistent()
    {
      if IsAnswered() {
        if currentIndex < |currentQuizzes| - 1 {
          NextAfterAnswer();
        } else {
          FinishAfterAnswer();
        }
      }
    }

    /** `nextQuestion` on an answered question before the last: the next question is current and unanswered. */
    method NextAfterAnswer()
      requires state == InQuiz && Consistent() && IsAnswered() && currentIndex < |currentQuizzes| - 1
      modifies this
      ensures state == InQuiz && currentIndex == old(currentIndex) + 1 && !IsAnswered()
      ensures currentQuizzes == old(currentQuizzes) && selectedAnswers == old(selectedAnswers)
      ensures showExplanation == old(showExplanation)
      ensures score == old(score) && category == old(category)
      ensures Consistent()
    {
      InvariantAfterAdvance(currentQuizzes, currentIndex, selectedAnswers, showExplanation, score);
      NextQuestion();
    }

    /** `nextQuestion` on the answered last question: the result view, with every question answered. */
    method FinishAfterAnswer()
      requires state == InQuiz && Consistent() && IsAnswered() && currentIndex == |currentQuizzes| - 1
      modifies this
      ensures state == Result && currentIndex == old(currentIndex)
      ensures currentQuizzes == old(currentQuizzes) && selectedAnswers == old(selectedAnswers)
      ensures showExplanation == old(showExplanation)
      ensures score == old(score) && category == old(category)
      ensures Consistent()
    {
      InvariantAfterFinish(currentQuizzes, currentIndex, selectedAnswers, showExplanation, score);
      NextQuestion();
    }

    /** The score and the tiles of the result view. */
    function ResultSummary(): (r: Summary)
      reads this
      requires state == Result && Consistent()
      ensures r.total == |currentQuizzes| && r.score == score
      ensures r.correct == score && r.unanswered == 0
      ensures r.correct + r.incorrect == r.total
      ensures 0 <= r.percentage <= 100
    {
      FinishedCounts(currentQuizzes, selectedAnswers);
      Summarize(currentQuizzes, selectedAnswers, score)
    }

    /**
      A whole run through the page's buttons: pick a category on the menu,
      then for each question click option `choices[i]` and the next button.
      The run ends in the result view with each choice recorded for its
      question and the score equal to the number of correct choices.
     */
    method TakeQuiz(cat: Category, choices: seq<int>)
      requires |choices| == |QuestionList(cat)|
      requires forall i :: 0 <= i < |choices| ==> 0 <= choices[i] < |QuestionList(cat)[i].options|
      modifies this
      ensures state == Result && currentQuizzes == QuestionList(cat) && category == cat
      ensures score == Matches(currentQuizzes, choices, |choices|)
      ensures selectedAnswers.Keys == IdSet(currentQuizzes)
      ensures forall i :: 0 <= i < |choices| ==> selectedAnswers[currentQuizzes[i].id] == choices[i]
      ensures Consistent()
    {
      StartQuiz(cat);
      AnswerAll(choices);
      RecordingLookup(currentQuizzes, choices, |choices|);
    }

    /**
      From the first, unanswered question of the quiz view: for each question
      click option `choices[i]`, then the next button. Exactly one click of the
      next button per question reaches the result view; before the last one
      the page stays in the quiz view.
     */
    method AnswerAll(choices: seq<int>)
      requires state == InQuiz && Consistent()
      requires currentIndex == 0 && selectedAnswers == map[] && score == 0
      requires |choices| == |currentQuizzes|
      requires forall i :: 0 <= i < |choices| ==> 0 <= choices[i] < |currentQuizzes[i].options|
      modifies this
      ensures state == Result && currentQuizzes == old(currentQuizzes) && category == old(category)
      ensures selectedAnswers == Recording(currentQuizzes, choices, |choices|)
      ensures score == Matches(currentQuizzes, choices, |choices|)
      ensures Consistent()
    {
      var n := |choices|;
      var i := 0;
      while i < n
        invariant 0 <= i <= n
        invariant currentQuizzes == old(currentQuizzes) && category == old(category)
        invariant Consistent()
        invariant i < n ==> state == InQuiz && currentIndex == i && !IsAnswered()
        invariant i == n ==> state == Result
        invariant selectedAnswers == Recording(currentQuizzes, choices, i)
      {
        AnswerStep(choices, i);
        i := i + 1;
      }
      CorrectCountOfRecording(currentQuizzes, choices, n);
    }

    /** Step `i` of `AnswerAll`: answer question `i` with `choices[i]` and move on. */
    method AnswerStep(choices: seq<int>, i: nat)
      requires state == InQuiz && Consistent() && currentIndex == i && !IsAnswered()
      requires |choices| == |currentQuizzes| && i < |choices| && 0 <= choices[i] < |currentQuizzes[i].options|
      requires selectedAnswers == Recording(currentQuizzes, choices, i)
      modifies this
      ensures currentQuizzes == old(currentQuizzes) && category == old(category)
      ensures Consistent()
      ensures i + 1 < |choices| ==> state == InQuiz && currentIndex == i + 1 && !IsAnswered()
      ensures i + 1 == |choices| ==> state == Result
      ensures selectedAnswers == Recording(currentQuizzes, choices, i + 1)
    {
      AnswerAndAdvance(choices[i]);
    }

    /** Click option `idx` of the current, unanswered question, then the next button. */
    method AnswerAndAdvance(idx: int)
      requires state == InQuiz && Consistent() && !IsAnswered()
      requires 0 <= idx < |currentQuizzes[currentIndex].options|
      modifies this
      ensures currentQuizzes == old(currentQuizzes) && category == old(category)
      ensures Consistent()
      ensures selectedAnswers == old(selectedAnswers)[currentQuizzes[old(currentIndex)].id := idx]
      ensures score == old(score) + (if idx == currentQuizzes[old(currentIndex)].correctAnswer then 1 else 0)
      ensures old(currentIndex) < |currentQuizzes| - 1 ==>
        state == InQuiz && currentIndex == old(currentIndex) + 1 && !IsAnswered()
      ensures old(currentIndex) == |currentQuizzes| - 1 ==> state == Result && currentIndex == old(currentIndex)
    {
      SelectOption(idx);
      ClickNext();
    }

    /**
      `handleAnswer` alone, called twice with the correct answer to the
      current, unanswered question (the option buttons would refuse the
      second click): the score goes up by two while the correct count goes up
      by one, so the score no longer counts the correct answers.
     */
    method AnswerTwice()
      requires UniqueIds(currentQuizzes) && 0 <= currentIndex < |currentQuizzes|
      requires currentQuizzes[currentIndex].id !in selectedAnswers
      requires score == CorrectCount(currentQuizzes, selectedAnswers)
      modifies this
      ensures score == old(score) + 2
      ensures CorrectCount(currentQuizzes, selectedAnswers) == old(score) + 1
    {
      var q := currentQuizzes[currentIndex];
      RepeatedCorrectAnswer(currentQuizzes, selectedAnswers, currentIndex);
      HandleAnswer(q.id, q.correctAnswer);
      HandleAnswer(q.id, q.correctAnswer);
    }
  }
}
