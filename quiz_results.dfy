/**
 The results screen: which questions are marked correct, how each option of a
 question is highlighted, and which header style the score gets.
 */
module QuizResults {
  import opened Wrappers
  import opened QuizTypes

  /** The number of positions of `s` that hold `x`. */
  function Occurrences<T(==)>(s: seq<T>, x: T): (n: nat)
    ensures n <= |s|
  {
    if s == [] then 0 else (if s[0] == x then 1 else 0) + Occurrences(s[1..], x)
  }

  lemma {:induction false} OccurrencesAppend<T>(s: seq<T>, y: T, x: T)
    ensures Occurrences(s + [y], x) == Occurrences(s, x) + (if y == x then 1 else 0)
  {
    if s == [] {
      assert (s + [y])[1..] == [];
    } else {
      assert (s + [y])[1..] == s[1..] + [y];
      OccurrencesAppend(s[1..], y, x);
    }
  }

  lemma {:induction false} OccurrencesAbsent<T>(s: seq<T>, x: T)
    requires forall k :: 0 <= k < |s| ==> s[k] != x
    ensures Occurrences(s, x) == 0
  {
    if s != [] {
      OccurrencesAbsent(s[1..], x);
    }
  }

  lemma {:induction false} OccurrencesUnique<T>(s: seq<T>, x: T, j: int)
    requires 0 <= j < |s|
    requires forall k :: 0 <= k < |s| ==> (s[k] == x <==> k == j)
    ensures Occurrences(s, x) == 1
  {
    if j == 0 {
      OccurrencesAbsent(s[1..], x);
    } else {
      OccurrencesUnique(s[1..], x, j - 1);
    }
  }

  /** `userAnswers[k]`, which is `undefined` past the end of the answers. */
  function AnswerAt(userAnswers: seq<int>, k: int): Option<int>
  {
    if 0 <= k < |userAnswers| then Some(userAnswers[k]) else None
  }

  /** The per-question `isCorrect` test: strict equality with the key, so a
      missing answer is never correct. */
  predicate IsCorrect(q: QuizQuestion, userAnswer: Option<int>)
  {
    userAnswer == Some(q.correctAnswer)
  }

  /** The check or cross shown beside each question, in question order. */
  function Marks(questions: seq<QuizQuestion>, userAnswers: seq<int>): (marks: seq<bool>)
    ensures |marks| == |questions|
    ensures forall k :: 0 <= k < |questions| ==>
      (marks[k] <==> k < |userAnswers| && userAnswers[k] == questions[k].correctAnswer)
  {
    seq(|questions|, k requires 0 <= k < |questions| => IsCorrect(questions[k], AnswerAt(userAnswers, k)))
  }

  /** The three looks an option can have on the results screen. */
  datatype Highlight = Correct | WrongChoice | Neutral

  /** The prioritised conditional that styles one option: the key first, then
      the user's choice when the question was answered wrongly, else neutral. */
  function OptionHighlight(q: QuizQuestion, userAnswer: Option<int>, optionIndex: int): (h: Highlight)
    ensures h == Correct <==> optionIndex == q.correctAnswer
    ensures h == WrongChoice <==> userAnswer == Some(optionIndex) && !IsCorrect(q, userAnswer)
    ensures h == Neutral <==> optionIndex != q.correctAnswer && userAnswer != Some(optionIndex)
  {
    if optionIndex == q.correctAnswer then Correct
    else if userAnswer == Some(optionIndex) && userAnswer != Some(q.correctAnswer) then WrongChoice
    else Neutral
  }

  /** The highlight of every option of one question, in option order. */
  function Highlights(q: QuizQuestion, userAnswer: Option<int>): seq<Highlight>
  {
    seq(|q.options|, i => OptionHighlight(q, userAnswer, i))
  }

  /** Whether the user's answer names an existing option other than the key. */
  predicate ChoseWrongOption(q: QuizQuestion, userAnswer: Option<int>)
  {
    userAnswer.Some? && 0 <= userAnswer.value < |q.options| && !IsCorrect(q, userAnswer)
  }

  /** Exactly one option carries the "correct" look when the key is in range,
      and none does otherwise. */
  lemma CorrectHighlightCount(q: QuizQuestion, userAnswer: Option<int>)
    ensures Occurrences(Highlights(q, userAnswer), Correct) == if WellFormed(q) then 1 else 0
  {
    var hs := Highlights(q, userAnswer);
    if WellFormed(q) {
      OccurrencesUnique(hs, Correct, q.correctAnswer);
    } else {
      OccurrencesAbsent(hs, Correct);
    }
  }

  /** At most one option carries the "wrong choice" look: the user's own pick,
      and only when the question was answered wrongly. */
  lemma WrongChoiceHighlightCount(q: QuizQuestion, userAnswer: Option<int>)
    ensures Occurrences(Highlights(q, userAnswer), WrongChoice) == if ChoseWrongOption(q, userAnswer) then 1 else 0
    ensures IsCorrect(q, userAnswer) ==> Occurrences(Highlights(q, userAnswer), WrongChoice) == 0
  {
    var hs := Highlights(q, userAnswer);
    if ChoseWrongOption(q, userAnswer) {
      OccurrencesUnique(hs, WrongChoice, userAnswer.value);
    } else {
      OccurrencesAbsent(hs, WrongChoice);
    }
  }

  lemma {:induction false} HighlightsPartition(hs: seq<Highlight>)
    ensures Occurrences(hs, Correct) + Occurrences(hs, WrongChoice) + Occurrences(hs, Neutral) == |hs|
  {
    if hs != [] {
      HighlightsPartition(hs[1..]);
      assert Occurrences(hs, Correct) == (if hs[0] == Correct then 1 else 0) + Occurrences(hs[1..], Correct);
      assert Occurrences(hs, WrongChoice) == (if hs[0] == WrongChoice then 1 else 0) + Occurrences(hs[1..], WrongChoice);
      assert Occurrences(hs, Neutral) == (if hs[0] == Neutral then 1 else 0) + Occurrences(hs[1..], Neutral);
    }
  }

  /** Every option that is neither the key nor the user's wrong pick is neutral. */
  lemma NeutralHighlightCount(q: QuizQuestion, userAnswer: Option<int>)
    ensures Occurrences(Highlights(q, userAnswer), Neutral)
         == |q.options| - (if WellFormed(q) then 1 else 0) - (if ChoseWrongOption(q, userAnswer) then 1 else 0)
  {
    HighlightsPartition(Highlights(q, userAnswer));
    CorrectHighlightCount(q, userAnswer);
    WrongChoiceHighlightCount(q, userAnswer);
  }

  /** The two colours of the score line in the header. */
  datatype HeaderStyle = Perfect | Partial

  /** The score line is green for full marks and blue otherwise. */
  function Header(score: int, total: int): HeaderStyle
  {
    if score == total then Perfect else Partial
  }
}
