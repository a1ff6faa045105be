/** The quiz round state machine of `MovieQuizPresenter`: which of the ten questions is on
    screen, the question being answered, the correct-answer tally, and the view models and
    requests each event produces. Events the presenter sends to its view or to the question
    factory are returned as values. */
module MovieQuizPresenter {
  import opened Options
  import opened Decimal

  /** A question as the question factory delivers it. */
  datatype QuizQuestion = QuizQuestion(image: seq<bv8>, text: string, correctAnswer: bool)

  /** What the view shows for one question; `questionNumber` is the "i/10" counter. */
  datatype QuizStepViewModel = QuizStepViewModel(image: seq<bv8>, question: string, questionNumber: string)

  /** What the view shows when the round is over. */
  datatype QuizResultsViewModel = QuizResultsViewModel(title: string, text: string, buttonText: string)

  /** The presenter's round state. */
  datatype Presenter = Presenter(
    currentQuestion: Option<QuizQuestion>,
    correctAnswers: int,
    currentQuestionIndex: int)

  /** What advancing the round produces: a request to the question factory for the next
      question, or the results to show. */
  datatype Advance = NextQuestionRequested | ShowResults(results: QuizResultsViewModel)

  /** The fixed length of a round. */
  const QuestionsAmount: int := 10

  const RoundOverTitle := "Этот раунд окончен!"
  const PlayAgainText := "Сыграть ещё раз"
  const PerfectScoreText := "Поздравляем, вы ответили на 10 из 10!"
  const ScorePrefix := "Вы ответили на "
  const ScoreSuffix := " из 10, попробуйте ещё раз!"

  /** The index stays on one of the round's questions. */
  predicate InRound(p: Presenter) {
    0 <= p.currentQuestionIndex < QuestionsAmount
  }

  /** `isLastQuestion()`: the tenth question, index 9, is on screen. */
  function IsLastQuestion(p: Presenter): (last: bool)
    ensures last <==> p.currentQuestionIndex == 9
    ensures last ==> InRound(p)
  {
    p.currentQuestionIndex == QuestionsAmount - 1
  }

  /** `resetQuestionIndex()`: back to the first question; the tally and the current
      question are kept. */
  function ResetQuestionIndex(p: Presenter): (r: Presenter)
    ensures r.currentQuestionIndex == 0
    ensures r.correctAnswers == p.correctAnswers && r.currentQuestion == p.currentQuestion
    ensures InRound(r) && !IsLastQuestion(r)
  {
    p.(currentQuestionIndex := 0)
  }

  /** `switchToNextQuestion()`: one question further; nothing else changes. */
  function SwitchToNextQuestion(p: Presenter): (r: Presenter)
    ensures r.currentQuestionIndex == p.currentQuestionIndex + 1
    ensures r.correctAnswers == p.correctAnswers && r.currentQuestion == p.currentQuestion
    ensures InRound(p) && !IsLastQuestion(p) ==> InRound(r)
  {
    p.(currentQuestionIndex := p.currentQuestionIndex + 1)
  }

  /** The position of the first `c` in `s`. */
  function IndexOf(s: string, c: char): (r: Option<nat>)
    ensures r.Some? ==> r.value < |s| && s[r.value] == c
    ensures r.Some? ==> forall i :: 0 <= i < r.value ==> s[i] != c
    ensures r.None? ==> forall i :: 0 <= i < |s| ==> s[i] != c
  {
    if s == [] then None
    else if s[0] == c then Some(0)
    else match IndexOf(s[1..], c)
      case None => None
      case Some(i) => Some(i + 1)
  }

  /** The counter shown above a question: one-based position, a slash, the round length. */
  function CounterLabel(index: int): string {
    IntToString(index + 1) + "/" + IntToString(QuestionsAmount)
  }

  /** Reads "position/length" back out of a counter label. */
  function ParseCounterLabel(counter: string): Option<(int, int)> {
    match IndexOf(counter, '/')
    case None => None
    case Some(i) =>
      match (ParseInt(counter[..i]), ParseInt(counter[i + 1..]))
      case (Some(position), Some(length)) => Some((position, length))
      case _ => None
  }

  /** Both sides of the slash are integers spelled the way Swift prints them. */
  predicate CanonicalCounter(counter: string) {
    match IndexOf(counter, '/')
    case None => false
    case Some(i) => CanonicalDecimal(counter[..i]) && CanonicalDecimal(counter[i + 1..])
  }

  /** The counter label is canonical and reads back as the one-based position and the
      round length. */
  lemma CounterLabelRoundTrip(index: int)
    ensures CanonicalCounter(CounterLabel(index))
    ensures ParseCounterLabel(CounterLabel(index)) == Some((index + 1, QuestionsAmount))
  {
    var a := IntToString(index + 1);
    var b := IntToString(QuestionsAmount);
    var counter := CounterLabel(index);
    IntToStringCanonical(index + 1);
    IntToStringCanonical(QuestionsAmount);
    assert forall i :: 0 <= i < |a| ==> a[i] != '/' by {
      if !CanonicalDigits(a) {
        assert a == [a[0]] + a[1..];
      }
    }
    assert counter == a + "/" + b;
    assert counter[|a|] == '/';
    assert forall i :: 0 <= i < |a| ==> counter[i] == a[i];
    assert IndexOf(counter, '/') == Some(|a|);
    assert counter[..|a|] == a;
    assert counter[|a| + 1..] == b;
    IntToStringRoundTrip(index + 1);
    IntToStringRoundTrip(QuestionsAmount);
  }

  /** A canonical counter that reads as (index + 1, 10) is the label Swift prints for that
      index, character for character. */
  lemma CounterLabelUnique(counter: string, index: int)
    requires CanonicalCounter(counter)
    requires ParseCounterLabel(counter) == Some((index + 1, QuestionsAmount))
    ensures counter == CounterLabel(index)
  {
    var i := IndexOf(counter, '/').value;
    CanonicalDecimalUnique(counter[..i], index + 1);
    CanonicalDecimalUnique(counter[i + 1..], QuestionsAmount);
    assert counter == counter[..i] + "/" + counter[i + 1..];
  }

  /** `convert(model:)`: the question's image and text, and a counter naming the current
      position. */
  function Convert(p: Presenter, model: QuizQuestion): (vm: QuizStepViewModel)
    ensures vm.image == model.image && vm.question == model.text
    ensures CanonicalCounter(vm.questionNumber)
    ensures ParseCounterLabel(vm.questionNumber) == Some((p.currentQuestionIndex + 1, QuestionsAmount))
  {
    CounterLabelRoundTrip(p.currentQuestionIndex);
    QuizStepViewModel(model.image, model.text, CounterLabel(p.currentQuestionIndex))
  }

  /** While the round is in progress the counter reads between 1/10 and 10/10. */
  lemma CounterWithinRound(p: Presenter, model: QuizQuestion)
    requires InRound(p)
    ensures var n := ParseCounterLabel(Convert(p, model).questionNumber).value.0;
      1 <= n <= QuestionsAmount
  {
  }

  /** `answerGiven(answer:)`: without a current question nothing happens; otherwise the
      view is told whether the answer matches the question's. The round state never changes. */
  function AnswerGiven(p: Presenter, answer: bool): (r: (Presenter, Option<bool>))
    ensures r.0 == p
    ensures r.1.Some? <==> p.currentQuestion.Some?
    ensures r.1.Some? ==> (r.1.value <==> answer == p.currentQuestion.value.correctAnswer)
  {
    match p.currentQuestion
    case None => (p, None)
    case Some(question) => (p, Some(answer == question.correctAnswer))
  }

  /** `yesButtonClicked()`: answering "yes" is right exactly for questions whose answer is yes. */
  function YesButtonClicked(p: Presenter): (r: (Presenter, Option<bool>))
    ensures r.0 == p
    ensures p.currentQuestion.None? ==> r.1.None?
    ensures p.currentQuestion.Some? ==> r.1 == Some(p.currentQuestion.value.correctAnswer)
  {
    AnswerGiven(p, true)
  }

  /** `noButtonClicked()`: answering "no" is right exactly for questions whose answer is no. */
  function NoButtonClicked(p: Presenter): (r: (Presenter, Option<bool>))
    ensures r.0 == p
    ensures p.currentQuestion.None? ==> r.1.None?
    ensures p.currentQuestion.Some? ==> r.1 == Some(!p.currentQuestion.value.correctAnswer)
  {
    AnswerGiven(p, false)
  }

  /** Of the two buttons, exactly one is the right answer to a question on screen. */
  lemma ExactlyOneButtonIsRight(p: Presenter)
    requires p.currentQuestion.Some?
    ensures YesButtonClicked(p).1.value != NoButtonClicked(p).1.value
  {
  }

  /** `didRecieveNextQuestion(question:)`: a missing question is ignored; a delivered one
      becomes the current question and is shown at the current position. */
  function DidReceiveNextQuestion(p: Presenter, question: Option<QuizQuestion>): (r: (Presenter, Option<QuizStepViewModel>))
    ensures question.None? ==> r.0 == p && r.1.None?
    ensures r.0.currentQuestionIndex == p.currentQuestionIndex && r.0.correctAnswers == p.correctAnswers
    ensures question.Some? ==> r.0.currentQuestion == question
    ensures question.Some? ==> r.1 == Some(Convert(p, question.value))
  {
    match question
    case None => (p, None)
    case Some(q) => (p.(currentQuestion := question), Some(Convert(p, q)))
  }

  /** The results message for a round with `correct` right answers. */
  function ResultsText(correct: int): string {
    if correct == QuestionsAmount then PerfectScoreText
    else ScorePrefix + IntToString(correct) + ScoreSuffix
  }

  /** The score as spelled inside a "not perfect" message, when `text` has that frame. */
  function ScoreSpelling(text: string): (spelled: Option<string>)
    ensures spelled.Some? ==> text == ScorePrefix + spelled.value + ScoreSuffix
  {
    if |text| >= |ScorePrefix| + |ScoreSuffix|
      && text[..|ScorePrefix|] == ScorePrefix
      && text[|text| - |ScoreSuffix|..] == ScoreSuffix
    then
      var spelled := text[|ScorePrefix|..|text| - |ScoreSuffix|];
      assert text == text[..|ScorePrefix|] + spelled + text[|text| - |ScoreSuffix|..];
      Some(spelled)
    else None
  }

  /** Reads the score back out of a results message. */
  function ReportedScore(text: string): Option<int> {
    if text == PerfectScoreText then Some(QuestionsAmount)
    else match ScoreSpelling(text)
      case Some(spelled) => ParseInt(spelled)
      case None => None
  }

  /** A results message is the congratulation, or the score spelled the way Swift prints
      an `Int`. */
  predicate CanonicalResults(text: string) {
    text == PerfectScoreText
    || (ScoreSpelling(text).Some? && CanonicalDecimal(ScoreSpelling(text).value))
  }

  /** The results message is the congratulation exactly for a perfect round; otherwise the
      score inside it is canonically spelled; in every case the score can be read back. */
  lemma ResultsTextReportsScore(correct: int)
    ensures ResultsText(correct) == PerfectScoreText <==> correct == QuestionsAmount
    ensures correct != QuestionsAmount ==>
      ScoreSpelling(ResultsText(correct)).Some? && CanonicalDecimal(ScoreSpelling(ResultsText(correct)).value)
    ensures CanonicalResults(ResultsText(correct))
    ensures ReportedScore(ResultsText(correct)) == Some(correct)
  {
    if correct != QuestionsAmount {
      var digits := IntToString(correct);
      var text := ResultsText(correct);
      assert text == ScorePrefix + digits + ScoreSuffix;
      assert text[0] != PerfectScoreText[0];
      assert text[..|ScorePrefix|] == ScorePrefix;
      assert text[|text| - |ScoreSuffix|..] == ScoreSuffix;
      assert text[|ScorePrefix|..|text| - |ScoreSuffix|] == digits;
      assert ScoreSpelling(text) == Some(digits);
      IntToStringRoundTrip(correct);
      IntToStringCanonical(correct);
    }
  }

  /** The converse: a canonical message that reads back as `correct`, and is the
      congratulation exactly when `correct` is perfect, is the results message for
      `correct`; so "07" or "-0" is never shown. */
  lemma ResultsTextUnique(text: string, correct: int)
    requires CanonicalResults(text)
    requires ReportedScore(text) == Some(correct)
    requires text == PerfectScoreText <==> correct == QuestionsAmount
    ensures text == ResultsText(correct)
  {
    if text != PerfectScoreText {
      var spelled := ScoreSpelling(text).value;
      CanonicalDecimalUnique(spelled, correct);
    }
  }

  /** `showNextQuestionOrResults()`. On the last question the state is kept and the round's
      results are produced; otherwise the index moves on by one and the next question is
      requested. */
  function ShowNextQuestionOrResults(p: Presenter): (r: (Presenter, Advance))
    ensures r.0.correctAnswers == p.correctAnswers && r.0.currentQuestion == p.currentQuestion
    ensures IsLastQuestion(p) ==> r.0 == p && r.1.ShowResults?
    ensures IsLastQuestion(p) ==>
      && r.1.results.title == RoundOverTitle
      && r.1.results.buttonText == PlayAgainText
      && CanonicalResults(r.1.results.text)
      && ReportedScore(r.1.results.text) == Some(p.correctAnswers)
      && (r.1.results.text == PerfectScoreText <==> p.correctAnswers == QuestionsAmount)
    ensures !IsLastQuestion(p) ==>
      r.1 == NextQuestionRequested && r.0.currentQuestionIndex == p.currentQuestionIndex + 1
  {
    if IsLastQuestion(p) then
      ResultsTextReportsScore(p.correctAnswers);
      (p, ShowResults(QuizResultsViewModel(RoundOverTitle, ResultsText(p.correctAnswers), PlayAgainText)))
    else
      (SwitchToNextQuestion(p), NextQuestionRequested)
  }

  /** Advancing `k` times in a row: the final state and what each call produced. */
  function AdvanceTimes(p: Presenter, k: nat): (Presenter, seq<Advance>)
    decreases k
  {
    if k == 0 then (p, [])
    else
      var (next, step) := ShowNextQuestionOrResults(p);
      var (last, steps) := AdvanceTimes(next, k - 1);
      (last, [step] + steps)
  }

  function Min(a: int, b: int): int {
    if a <= b then a else b
  }

  /** From any position in the round, repeated advancing walks the index up to the last
      question and stops there: the index never leaves [0, 9], each call before the last
      question requests the next one, and from then on every call shows the results. */
  lemma {:induction false} AdvanceWithinRound(p: Presenter, k: nat)
    requires InRound(p)
    ensures var (last, steps) := AdvanceTimes(p, k);
      && InRound(last)
      && last.currentQuestionIndex == Min(p.currentQuestionIndex + k, QuestionsAmount - 1)
      && last.correctAnswers == p.correctAnswers
      && last.currentQuestion == p.currentQuestion
      && |steps| == k
      && forall i :: 0 <= i < k ==>
           (steps[i] == NextQuestionRequested <==> p.currentQuestionIndex + i < QuestionsAmount - 1)
    decreases k
  {
    if k > 0 {
      var (next, step) := ShowNextQuestionOrResults(p);
      assert InRound(next) && next.currentQuestionIndex == Min(p.currentQuestionIndex + 1, QuestionsAmount - 1);
      assert step == NextQuestionRequested <==> p.currentQuestionIndex < QuestionsAmount - 1;
      AdvanceWithinRound(next, k - 1);
      var (last, steps) := AdvanceTimes(next, k - 1);
      assert AdvanceTimes(p, k) == (last, [step] + steps);
      forall i | 0 <= i < k
        ensures ([step] + steps)[i] == NextQuestionRequested <==> p.currentQuestionIndex + i < QuestionsAmount - 1
      {
        if i > 0 {
          assert ([step] + steps)[i] == steps[i - 1];
        }
      }
    }
  }

  /** A round started from the first question requests nine further questions and shows
      its results on the tenth call. */
  lemma FullRound(p: Presenter)
    requires p.currentQuestionIndex == 0
    ensures var (last, steps) := AdvanceTimes(p, QuestionsAmount);
      && IsLastQuestion(last)
      && (forall i :: 0 <= i < QuestionsAmount - 1 ==> steps[i] == NextQuestionRequested)
      && steps[QuestionsAmount - 1].ShowResults?
  {
    AdvanceWithinRound(p, QuestionsAmount);
  }

  /** Plays the rest of a round the way the view does after each answer: advance, and
      when the next question was requested, advance again later, until the results come.
      Returns the final state, how many questions were requested and the results. */
  method PlayOut(p: Presenter) returns (last: Presenter, requests: nat, results: QuizResultsViewModel)
    requires InRound(p)
    ensures IsLastQuestion(last)
    ensures requests == QuestionsAmount - 1 - p.currentQuestionIndex
    ensures last.correctAnswers == p.correctAnswers && last.currentQuestion == p.currentQuestion
    ensures ShowNextQuestionOrResults(last) == (last, ShowResults(results))
    ensures results.title == RoundOverTitle && results.buttonText == PlayAgainText
    ensures results.text == PerfectScoreText <==> p.correctAnswers == QuestionsAmount
    ensures CanonicalResults(results.text)
    ensures ReportedScore(results.text) == Some(p.correctAnswers)
  {
    last := p;
    requests := 0;
    var (next, step) := ShowNextQuestionOrResults(last);
    while step.NextQuestionRequested?
      invariant InRound(last)
      invariant last.currentQuestionIndex == p.currentQuestionIndex + requests
      invariant last.correctAnswers == p.correctAnswers && last.currentQuestion == p.currentQuestion
      invariant (next, step) == ShowNextQuestionOrResults(last)
      decreases QuestionsAmount - last.currentQuestionIndex
    {
      last := next;
      requests := requests + 1;
      var advanced := ShowNextQuestionOrResults(last);
      next, step := advanced.0, advanced.1;
    }
    results := step.results;
  }
}
