/**
 The quiz-taking component: a session that walks through the questions one
 answer at a time, keeps the score, and then shows the results screen.
 */
module Quiz {
  import opened Wrappers
  import opened QuizTypes
  import opened QuizResults

  /** The score a session keeps: how many answers, position by position, equal
      the key of the question at that position. */
  function CountCorrect(questions: seq<QuizQuestion>, answers: seq<int>): (n: nat)
    requires |answers| <= |questions|
    ensures n <= |answers|
    decreases |answers|
  {
    if answers == [] then 0
    else
      var k := |answers| - 1;
      CountCorrect(questions, answers[..k]) + (if answers[k] == questions[k].correctAnswer then 1 else 0)
  }

  /** Answering one more question adds exactly one point on a hit and none otherwise. */
  lemma {:induction false} CountCorrectAppend(questions: seq<QuizQuestion>, answers: seq<int>, a: int)
    requires |answers| < |questions|
    ensures CountCorrect(questions, answers + [a])
         == CountCorrect(questions, answers) + (if a == questions[|answers|].correctAnswer then 1 else 0)
  {
  }

  /** Full marks exactly when every answer equals its question's key. */
  lemma {:induction false} CountCorrectFull(questions: seq<QuizQuestion>, answers: seq<int>)
    requires |answers| <= |questions|
    ensures CountCorrect(questions, answers) == |answers|
        <==> forall k :: 0 <= k < |answers| ==> answers[k] == questions[k].correctAnswer
  {
    if answers != [] {
      var k := |answers| - 1;
      CountCorrectFull(questions, answers[..k]);
      assert forall j :: 0 <= j < k ==> answers[..k][j] == answers[j];
    }
  }

  /** The number of questions the results screen marks correct is the score the
      session computed from the same answers. */
  lemma {:induction false} MarksCountScore(questions: seq<QuizQuestion>, answers: seq<int>)
    requires |answers| == |questions|
    ensures Occurrences(Marks(questions, answers), true) == CountCorrect(questions, answers)
  {
    var marks := Marks(questions, answers);
    var j := 0;
    assert marks[..0] == [];
    while j < |questions|
      invariant 0 <= j <= |questions|
      invariant Occurrences(marks[..j], true) == CountCorrect(questions, answers[..j])
    {
      assert marks[..j + 1] == marks[..j] + [marks[j]];
      OccurrencesAppend(marks[..j], marks[j], true);
      assert answers[..j + 1][..j] == answers[..j];
      j := j + 1;
    }
    assert marks[..j] == marks;
    assert answers[..j] == answers;
  }

  /** On the results screen the perfect header appears exactly when every
      question is marked correct. */
  lemma PerfectHeaderIffAllMarked(questions: seq<QuizQuestion>, answers: seq<int>)
    requires |answers| == |questions|
    ensures Header(CountCorrect(questions, answers), |questions|) == Perfect
        <==> forall k :: 0 <= k < |questions| ==> Marks(questions, answers)[k]
  {
    CountCorrectFull(questions, answers);
    var marks := Marks(questions, answers);
    assert forall k :: 0 <= k < |questions| ==> (marks[k] <==> answers[k] == questions[k].correctAnswer);
  }

  /** JavaScript's `a[i] = v` on an array whose length is at least `i`: the
      element at `i` is overwritten, or the array grows by one at the end. */
  function WriteAt(a: seq<int>, i: nat, v: int): (r: seq<int>)
    requires i <= |a|
    ensures |r| == if i < |a| then |a| else |a| + 1
    ensures r[i] == v
    ensures forall k :: 0 <= k < |a| && k != i ==> r[k] == a[k]
  {
    if i < |a| then a[i := v] else a + [v]
  }

  /** What the component renders. */
  datatype Screen =
    | Asking(position: nat, total: nat, current: QuizQuestion)
    | Results(shown: seq<QuizQuestion>, answersGiven: seq<int>, finalScore: nat)
      /** `questions[0]` is undefined, so reading its text throws. */
    | Crash

  class QuizComponent {
    const questions: seq<QuizQuestion>
    var currentQuestion: nat
    var score: nat
    var userAnswers: seq<int>
    var showResults: bool

    /** The states a session reaches: one answer per question already passed
        (plus the last one once results show), and the score counts the hits. */
    ghost predicate Valid()
      reads this
    {
      && |userAnswers| <= |questions|
      && |userAnswers| == currentQuestion + (if showResults then 1 else 0)
      && (showResults ==> |userAnswers| == |questions|)
      && (!showResults && questions != [] ==> currentQuestion < |questions|)
      && score == CountCorrect(questions, userAnswers)
    }

    constructor (questions: seq<QuizQuestion>)
      ensures Valid() && this.questions == questions
      ensures currentQuestion == 0 && score == 0 && userAnswers == [] && !showResults
    {
      this.questions := questions;
      currentQuestion := 0;
      score := 0;
      userAnswers := [];
      showResults := false;
    }

    /** The session seen through the shared `QuizState` shape. */
    function State(): (s: QuizState)
      reads this
      requires Valid()
      ensures Consistent(s)
    {
      QuizState(questions, currentQuestion, score, showResults)
    }

    /** The render: the results screen, or the current question, which is
        missing only when there are no questions at all. */
    function Render(): (screen: Screen)
      reads this
      requires Valid()
      ensures showResults ==> screen == Results(questions, userAnswers, score)
      ensures !showResults && questions != [] ==>
        screen == Asking(currentQuestion + 1, |questions|, questions[currentQuestion])
      ensures screen == Crash <==> !showResults && questions == []
    {
      if showResults then Results(questions, userAnswers, score)
      else if currentQuestion < |questions| then Asking(currentQuestion + 1, |questions|, questions[currentQuestion])
      else Crash
    }

    /** A click on option `selectedIndex` of the question being shown. Returns
        the value handed to `onComplete`, if the click finished the quiz. */
    method HandleAnswer(selectedIndex: int) returns (completed: Option<int>)
      requires Valid()
      requires !showResults && currentQuestion < |questions|
      modifies this
      ensures Valid()
      ensures userAnswers == old(userAnswers) + [selectedIndex]
      ensures score == old(score) + (if selectedIndex == questions[old(currentQuestion)].correctAnswer then 1 else 0)
      ensures old(currentQuestion) + 1 < |questions| ==>
        currentQuestion == old(currentQuestion) + 1 && !showResults && completed == None
      ensures old(currentQuestion) + 1 >= |questions| ==>
        currentQuestion == old(currentQuestion) && showResults && completed == Some(score)
    {
      var newUserAnswers := WriteAt(userAnswers, currentQuestion, selectedIndex);
      assert newUserAnswers == userAnswers + [selectedIndex];
      CountCorrectAppend(questions, userAnswers, selectedIndex);
      userAnswers := newUserAnswers;

      var priorScore := score;
      if selectedIndex == questions[currentQuestion].correctAnswer {
        score := priorScore + 1;
      }

      if currentQuestion + 1 < |questions| {
        currentQuestion := currentQuestion + 1;
        completed := None;
      } else {
        showResults := true;
        completed := Some(priorScore + (if selectedIndex == questions[currentQuestion].correctAnswer then 1 else 0));
      }
    }

    /** The retry button: back to the first question with nothing answered. */
    method HandleRetry()
      modifies this
      ensures Valid()
      ensures currentQuestion == 0 && score == 0 && userAnswers == [] && !showResults
    {
      currentQuestion := 0;
      score := 0;
      userAnswers := [];
      showResults := false;
    }
  }

  /** A fresh session answered with `answers`, one click per question. Returns
      what each click handed to `onComplete` and the screen shown at the end:
      only the last click completes the quiz, with the score of all answers. */
  method TakeQuiz(questions: seq<QuizQuestion>, answers: seq<int>) returns (reports: seq<Option<int>>, screen: Screen)
    requires questions != [] && |answers| == |questions|
    ensures |reports| == |questions|
    ensures forall k :: 0 <= k < |questions| - 1 ==> reports[k] == None
    ensures reports[|questions| - 1] == Some(CountCorrect(questions, answers))
    ensures screen == Results(questions, answers, CountCorrect(questions, answers))
  {
    var quiz := new QuizComponent(questions);
    reports := [];
    var i := 0;
    while i < |answers|
      invariant 0 <= i <= |answers|
      invariant quiz.Valid() && quiz.questions == questions
      invariant quiz.userAnswers == answers[..i]
      invariant i < |answers| ==> !quiz.showResults && quiz.currentQuestion == i
      invariant i == |answers| ==> quiz.showResults
      invariant |reports| == i
      invariant forall k :: 0 <= k < i && k < |questions| - 1 ==> reports[k] == None
      invariant i == |answers| ==> reports[i - 1] == Some(quiz.score)
    {
      assert answers[..i + 1] == answers[..i] + [answers[i]];
      var completed := quiz.HandleAnswer(answers[i]);
      reports := reports + [completed];
      i := i + 1;
    }
    assert answers[..i] == answers;
    screen := quiz.Render();
  }
}
