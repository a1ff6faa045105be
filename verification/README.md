# MovieQuiz core in Dafny

This project models the two pieces of logic at the centre of the MovieQuiz trivia app.

**The quiz round state machine of `MovieQuizPresenter`.** A round has ten questions. The
presenter holds the index of the question on screen, the question being answered, and the
correct-answer tally. It answers "is this the last question?", resets and advances the index,
takes delivery of the next question (ignoring a missing one), judges a yes/no answer against the
current question, and after each answer either requests the next question or builds the
results view model. The presenter's events are values here: the view models it would show, the
verdict it would reveal, and the request it would send to the question factory.

**The persisted statistics accumulator `StatisticService`.** It comes in two revisions that
diverge. Both keep their counters in a flat preference store (`UserDefaults`), where an absent
key reads as zero. Both implement `store(correct:total:)`: count the game, add the round to the
running totals, and then, behind a guard, recompute the overall accuracy and offer the round to
`GameResult.isBetterThan` as a new best game. The current revision
(`MovieQuiz/Services/StatisticService/StatisticService.swift`) guards on the correct-answers
total. The earlier one (`MovieQuiz/Services/StatisticService.swift`) guards on the answers total.
The model proves what each guard does and exactly where the two disagree.

Modules:

- `Options`: the optional type.
- `Decimal`: Swift's decimal interpolation of an `Int`, and a parser that inverts it.
- `Foundation`: `Date` as an opaque instant, and `Double` as an exact real or one of the IEEE
  special values that an integer division by zero produces.
- `UserDefaults`: the preference store as a `map<string, Value>` with default-zero reads.
- `StatisticStorage`: `GameResult`, the comparator type, and the protocol's snapshot record. It
  also holds the keys and key-backed properties (`gamesCount`, `bestGame`, `totalAccuracy`) that
  are identical in both revisions. They sit at lines 17-39 and 59-66 of the current file and
  lines 17-48 of the earlier one.
- `StatisticService`: the current revision.
- `LegacyStatisticService`: the earlier revision.
- `StatisticVariants`: the two revisions compared.
- `MovieQuizPresenter`: the round state machine.

The model follows the code as written; in particular:

- Answering does not change the tally. `answerGiven` only reports the verdict to the view.
  The tally update (`didAnswer`) and `restartGame` are called by the view controller but
  defined nowhere in the shown code.
- The presenter's own `statisticService?.store` call acts on a field that is never assigned,
  so it does nothing. The round is stored by the view controller instead
  (`MovieQuiz/Presentation/MovieQuizViewController.swift:71`).
- The current revision's guard is "some correct answer was ever recorded", not "some question
  was ever counted". On consistent totals a round that leaves the correct-answers total at 0 is
  skipped entirely: accuracy is not recomputed and the round is not considered for best game.
- Best-game replacement follows whatever `isBetterThan` decides. Its definition is not part of
  this model, so the model neither assumes strict accuracy ordering nor assumes that the first
  round always wins.

## Model

| member | source | states |
|---|---|---|
| `MovieQuizPresenter.IsLastQuestion` | MovieQuiz/Presentation/MovieQuizPresenter.swift:14-16 | true exactly when the index is 9 (questionsAmount - 1); a last question is always inside the round |
| `MovieQuizPresenter.ResetQuestionIndex` | MovieQuiz/Presentation/MovieQuizPresenter.swift:18-20 | the index becomes 0; the tally and current question are unchanged; the result is in the round and not at its last question |
| `MovieQuizPresenter.SwitchToNextQuestion` | MovieQuiz/Presentation/MovieQuizPresenter.swift:22-24 | the index grows by exactly 1 and nothing else changes; from a non-last in-round index it stays in the round |
| `MovieQuizPresenter.Convert` | MovieQuiz/Presentation/MovieQuizPresenter.swift:26-31 | the step carries the question's image and text; its counter is canonical on both sides of the "/" (no leading zero, no "-0") and reads back as (index + 1, 10) |
| `MovieQuizPresenter.CounterLabelRoundTrip` | MovieQuiz/Presentation/MovieQuizPresenter.swift:30 | the "\(index + 1)/\(questionsAmount)" counter is canonical on both sides and parsing it gives back the position and the round length, for every index |
| `MovieQuizPresenter.CounterLabelUnique` | MovieQuiz/Presentation/MovieQuizPresenter.swift:30 | the converse: a canonical counter that reads as (index + 1, 10) is exactly the label of that index, so "01/10" is never produced |
| `MovieQuizPresenter.CounterWithinRound` | MovieQuiz/Presentation/MovieQuizPresenter.swift:26-31 | while the index is in the round the counter reads between 1/10 and 10/10 |
| `Decimal.IntToStringRoundTrip` | MovieQuiz/Presentation/MovieQuizPresenter.swift:30 | the decimal text that interpolation gives an Int parses back to that Int, negatives included |
| `Decimal.NatToStringDigits` | MovieQuiz/Presentation/MovieQuizPresenter.swift:30 | the text of a natural number is a non-empty digit string with no leading zero (a positive number starts with a non-zero digit) whose value is that number |
| `Decimal.IntToStringCanonical` | MovieQuiz/Presentation/MovieQuizPresenter.swift:30 | the decimal text of any Int is canonical: digits with no leading zero, optionally after a "-" that is never followed by 0 |
| `Decimal.CanonicalDigitsUnique` | MovieQuiz/Presentation/MovieQuizPresenter.swift:30 | a canonical digit string is the text of its own value |
| `Decimal.CanonicalDecimalUnique` | MovieQuiz/Presentation/MovieQuizPresenter.swift:30 | a canonical string that parses to n is the decimal text of n: the text of an Int is its only canonical spelling |
| `MovieQuizPresenter.AnswerGiven` | MovieQuiz/Presentation/MovieQuizPresenter.swift:40-46 | with no current question no verdict is produced; otherwise the verdict is given == correctAnswer; the round state never changes |
| `MovieQuizPresenter.YesButtonClicked` | MovieQuiz/Presentation/MovieQuizPresenter.swift:36-38 | "yes" is judged right exactly when the question's answer is true; no-op without a question |
| `MovieQuizPresenter.NoButtonClicked` | MovieQuiz/Presentation/MovieQuizPresenter.swift:33-35 | "no" is judged right exactly when the question's answer is false; no-op without a question |
| `MovieQuizPresenter.ExactlyOneButtonIsRight` | MovieQuiz/Presentation/MovieQuizPresenter.swift:33-46 | for a question on screen, the yes and no verdicts are opposite |
| `MovieQuizPresenter.DidReceiveNextQuestion` | MovieQuiz/Presentation/MovieQuizPresenter.swift:48-58 | a nil question changes nothing and shows nothing; a delivered one becomes the current question and is shown at the current index; index and tally never change |
| `MovieQuizPresenter.ResultsTextReportsScore` | MovieQuiz/Presentation/MovieQuizPresenter.swift:65-67 | the message is the "10 из 10" congratulation if and only if the tally equals questionsAmount; otherwise the score inside the message is spelled canonically (no leading zero, no "-0"); the tally can be read back from either message |
| `MovieQuizPresenter.ResultsTextUnique` | MovieQuiz/Presentation/MovieQuizPresenter.swift:65-67 | the converse: a canonical message that reads back as c, and is the congratulation exactly when c is 10, is the results message for c, so "07" or "-0" is never shown |
| `MovieQuizPresenter.ShowNextQuestionOrResults` | MovieQuiz/Presentation/MovieQuizPresenter.swift:60-81 | on the last question the state is kept and the results (round-over title, play-again button, the canonically spelled score message) are produced; otherwise the index grows by 1 and one next-question request is issued; the tally and current question never change |
| `MovieQuizPresenter.AdvanceWithinRound` | MovieQuiz/Presentation/MovieQuizPresenter.swift:60-81 | any number of advances from an in-round state keep the index in [0, 9] and end at min(start + k, 9); call i requests a question exactly while start + i < 9 and shows results afterwards |
| `MovieQuizPresenter.FullRound` | MovieQuiz/Presentation/MovieQuizPresenter.swift:60-81 | from index 0, ten advances request nine questions and show the results on the tenth |
| `MovieQuizPresenter.PlayOut` | MovieQuiz/Presentation/MovieQuizViewController.swift:56-66 | advancing after each reveal until the results arrive ends on the last question after exactly 9 - index requests; the results are the last question's results view model, with the round-over title and the play-again button, the congratulation exactly for a tally of 10, and a canonically spelled score reporting the unchanged tally |
| `UserDefaults.IntegerOf` | MovieQuiz/Services/StatisticService/StatisticService.swift:19 | a stored value read as an integer: an integer as itself, a finite double truncated toward zero, a date as 0 |
| `UserDefaults.Integer` | MovieQuiz/Services/StatisticService/StatisticService.swift:19 | an absent key reads as 0; a present one reads as its value converted by `IntegerOf` |
| `UserDefaults.DoubleOf` | MovieQuiz/Services/StatisticService/StatisticService.swift:61 | a stored value read as a double: a double as itself, an integer widened exactly, a date as 0.0 |
| `UserDefaults.DoubleFor` | MovieQuiz/Services/StatisticService/StatisticService.swift:61 | an absent key reads as 0.0; a present one reads as its value converted by `DoubleOf` |
| `UserDefaults.DateFor` | MovieQuiz/Services/StatisticService/StatisticService.swift:30 | `object(forKey:) as? Date`: a date is returned exactly when the key holds a date, and it is that date; an absent key or another kind of value gives none |
| `UserDefaults.Set` | MovieQuiz/Services/StatisticService/StatisticService.swift:22 | `set(_:forKey:)` (also lines 35-37, 46, 55, 64): the key reads back the written value, every other key reads as before, and the key set grows by exactly that key |
| `Foundation.Truncate` | MovieQuiz/Services/StatisticService/StatisticService.swift:19 | the integer part of a finite double: at most the value and within 1 of it for non-negatives, at least the value and within 1 of it for negatives |
| `Foundation.Quotient` | MovieQuiz/Services/StatisticService/StatisticService.swift:78 | `Double(a) / Double(b)`: the exact ratio when b != 0; for b == 0, +infinity exactly when a > 0, -infinity exactly when a < 0, NaN exactly when a == 0 |
| `Foundation.QuotientInverts` | MovieQuiz/Services/StatisticService/StatisticService.swift:78 | a finite quotient multiplied back by its non-zero divisor gives the dividend |
| `Foundation.PercentageOfNothing` | MovieQuiz/Services/StatisticService.swift:74 | no correct answers out of a non-zero total is exactly 0% |
| `Foundation.Percentage` | MovieQuiz/Services/StatisticService/StatisticService.swift:78 | `Double(a) / Double(b) * 100.0` (also line 70, and line 74 of the earlier revision): exactly a / b * 100 when b != 0; a division by zero keeps its infinity or NaN through the multiplication |
| `StatisticStorage.GamesCount` | MovieQuiz/Services/StatisticService/StatisticService.swift:17-24 | an absent games count reads as 0 |
| `StatisticStorage.SetGamesCount` | MovieQuiz/Services/StatisticService/StatisticService.swift:17-24 | the written count reads back; every other key keeps its value |
| `StatisticStorage.BestGame` | MovieQuiz/Services/StatisticService/StatisticService.swift:26-33 | absent correct/total keys read as 0 and an absent date reads as the current time |
| `StatisticStorage.SetBestGame` | MovieQuiz/Services/StatisticService/StatisticService.swift:26-39 | the written correct/total/date read back unchanged whatever the clock says; only the three best-game keys change |
| `StatisticStorage.TotalAccuracy` | MovieQuiz/Services/StatisticService/StatisticService.swift:59-66 | an absent accuracy reads as 0.0 |
| `StatisticStorage.SetTotalAccuracy` | MovieQuiz/Services/StatisticService/StatisticService.swift:59-66 | the written accuracy reads back; every other key keeps its value |
| `StatisticStorage.Challenge` | MovieQuiz/Services/StatisticService/StatisticService.swift:81-84 | the best game becomes the candidate if the comparator prefers it and stays the record otherwise |
| `StatisticService.TotalCorrectAnswers` | MovieQuiz/Services/StatisticService/StatisticService.swift:41-48 | an absent total reads as 0 |
| `StatisticService.SetTotalCorrectAnswers` | MovieQuiz/Services/StatisticService/StatisticService.swift:41-48 | the written total reads back; every other key keeps its value |
| `StatisticService.TotalQuestions` | MovieQuiz/Services/StatisticService/StatisticService.swift:50-57 | an absent total reads as 0 |
| `StatisticService.SetTotalQuestions` | MovieQuiz/Services/StatisticService/StatisticService.swift:50-57 | the written total reads back; every other key keeps its value |
| `StatisticService.SetGamesCountIsolated` | MovieQuiz/Services/StatisticService/StatisticService.swift:6-24 | writing the games count leaves both totals, the accuracy and the best game reading as before |
| `StatisticService.SetTotalCorrectAnswersIsolated` | MovieQuiz/Services/StatisticService/StatisticService.swift:41-48 | writing the correct-answers total leaves every other property reading as before |
| `StatisticService.SetTotalQuestionsIsolated` | MovieQuiz/Services/StatisticService/StatisticService.swift:50-57 | writing the questions total leaves every other property reading as before |
| `StatisticService.SetTotalAccuracyIsolated` | MovieQuiz/Services/StatisticService/StatisticService.swift:59-66 | writing the accuracy leaves every other property reading as before |
| `StatisticService.SetBestGameIsolated` | MovieQuiz/Services/StatisticService/StatisticService.swift:26-39 | writing the best game leaves the counters and the accuracy reading as before |
| `StatisticService.GetCurrentAccuracy` | MovieQuiz/Services/StatisticService/StatisticService.swift:68-71 | always finite; 0 unless some question was counted, otherwise exactly totalCorrectAnswers / totalQuestions * 100 |
| `StatisticService.CurrentAccuracyBounds` | MovieQuiz/Services/StatisticService/StatisticService.swift:68-71 | on a store with 0 <= totalCorrectAnswers <= totalQuestions the current accuracy lies in [0, 100] |
| `StatisticStorage.RecordRound` | MovieQuiz/Services/StatisticService/StatisticService.swift:78-84 | past the guard (identical in both revisions): the accuracy key is written with the given value and the best game is challenged by the round; a preferred round reads back as the best game at any later time, a declined one leaves the three best-game keys untouched; only the accuracy and best-game keys change |
| `StatisticStorage.BestGameReadsItsKeys` | MovieQuiz/Services/StatisticService/StatisticService.swift:26-33 | the best game is read from its three keys alone: stores that agree on them report the same best game at every time |
| `StatisticService.AddRound` | MovieQuiz/Services/StatisticService/StatisticService.swift:73-76 | before the guard: games count + 1, totalCorrectAnswers + count, totalQuestions + amount, no other key touched |
| `StatisticService.Store` | MovieQuiz/Services/StatisticService/StatisticService.swift:73-85 | games count + 1, totals + count and + amount; if the correct total is still <= 0 nothing but the three counters is written; otherwise accuracy becomes the new percentage and the best game is challenged by (count, amount, now); keys outside the service's own never change |
| `StatisticService.StoreWritesBestGameOnlyWhenPreferred` | MovieQuiz/Services/StatisticService/StatisticService.swift:77-84 | the best-game keys are written only when the guard passes and the comparator prefers the round, which then reads back at any later time; otherwise the three keys keep what they held and the best game reads as before at every time |
| `StatisticService.StoreSkipsWithoutCorrectAnswers` | MovieQuiz/Services/StatisticService/StatisticService.swift:77 | early return: accuracy and best game read exactly as before when the correct-answers total stays at 0 |
| `StatisticService.StoreKeepsConsistent` | MovieQuiz/Services/StatisticService/StatisticService.swift:75-79 | rounds with 0 <= count <= amount preserve totalCorrectAnswers <= totalQuestions; past the guard the divisor is positive and the stored accuracy equals getCurrentAccuracy and lies in [0, 100] |
| `StatisticService.StoreCanRecordInfiniteAccuracy` | MovieQuiz/Services/StatisticService/StatisticService.swift:77-79 | the guard does not protect the division: a round of 1 correct out of 0 on an empty store stores +infinity |
| `StatisticService.StoreOnEmpty` | MovieQuiz/Services/StatisticService/StatisticService.swift:73-85 | a first round with a correct answer on an empty store: 1 game, the round's totals, accuracy the round's percentage, best game challenged against the empty record (0, 0, now) |
| `StatisticService.FirstRoundOnEmptyStore` | MovieQuiz/Services/StatisticService/StatisticService.swift:73-85 | 7 of 10 on an empty store: 1 game, totals 7 and 10, accuracy 70.0, best game challenged against the empty record (0, 0, now) |
| `LegacyStatisticService.CorrectAnswers` | MovieQuiz/Services/StatisticService.swift:50-57 | an absent total reads as 0 |
| `LegacyStatisticService.SetCorrectAnswers` | MovieQuiz/Services/StatisticService.swift:50-57 | the written total reads back; every other key keeps its value |
| `LegacyStatisticService.TotalAnswers` | MovieQuiz/Services/StatisticService.swift:59-66 | an absent total reads as 0 |
| `LegacyStatisticService.SetTotalAnswers` | MovieQuiz/Services/StatisticService.swift:59-66 | the written total reads back; every other key keeps its value |
| `LegacyStatisticService.SetGamesCountIsolated` | MovieQuiz/Services/StatisticService.swift:6-24 | writing the games count leaves both totals, the accuracy and the best game reading as before |
| `LegacyStatisticService.SetCorrectAnswersIsolated` | MovieQuiz/Services/StatisticService.swift:50-57 | writing correctAnswers leaves every other property reading as before |
| `LegacyStatisticService.SetTotalAnswersIsolated` | MovieQuiz/Services/StatisticService.swift:59-66 | writing totalAnswers leaves every other property reading as before |
| `LegacyStatisticService.SetTotalAccuracyIsolated` | MovieQuiz/Services/StatisticService.swift:41-48 | writing the accuracy leaves every other property reading as before |
| `LegacyStatisticService.SetBestGameIsolated` | MovieQuiz/Services/StatisticService.swift:26-39 | writing the best game leaves the counters and the accuracy reading as before |
| `LegacyStatisticService.AddRound` | MovieQuiz/Services/StatisticService.swift:68-71 | before the guard: games count + 1, correctAnswers + count, totalAnswers + amount, no other key touched |
| `LegacyStatisticService.Store` | MovieQuiz/Services/StatisticService.swift:68-81 | games count + 1, totals + count and + amount; if the answers total is still <= 0 nothing but the three counters is written; otherwise accuracy becomes the new percentage and the best game is challenged by (count, amount, now) |
| `LegacyStatisticService.StoreWritesBestGameOnlyWhenPreferred` | MovieQuiz/Services/StatisticService.swift:73-80 | the best-game keys are written only when the guard passes and the comparator prefers the round, which then reads back at any later time; otherwise the three keys keep what they held and the best game reads as before at every time |
| `LegacyStatisticService.StoreSkipsWithoutAnswers` | MovieQuiz/Services/StatisticService.swift:73 | early return: accuracy and best game read exactly as before when the answers total stays at 0 |
| `LegacyStatisticService.StoreAccuracyAlwaysFinite` | MovieQuiz/Services/StatisticService.swift:73-75 | past this guard the divisor is positive, so for any arguments the stored accuracy is exactly correctAnswers / totalAnswers * 100 |
| `LegacyStatisticService.StoreKeepsConsistent` | MovieQuiz/Services/StatisticService.swift:70-75 | rounds with 0 <= count <= amount preserve correctAnswers <= totalAnswers and keep a recomputed accuracy in [0, 100] |
| `StatisticVariants.GuardsDifferOnlyOnScorelessTotals` | MovieQuiz/Services/StatisticService/StatisticService.swift:77 | against line 73 of the earlier revision: on the same consistent totals and a valid round, passing the correct-total guard implies passing the answers-total guard, and the guards disagree exactly when the correct total stays 0 while the question total is positive |
| `StatisticVariants.VariantsAgreeWhenGuardsAgree` | MovieQuiz/Services/StatisticService.swift:68-81 | from stores with equal snapshots, both revisions' store yield equal snapshots whenever their guards agree |
| `StatisticVariants.ScorelessFirstRoundDiverges` | MovieQuiz/Services/StatisticService.swift:73-80 | a first round of 0 out of a positive amount: the current revision writes no accuracy and keeps the empty best game; the earlier revision writes 0.0 accuracy and offers the round to the comparator |
| `StatisticVariants.CurrentSkipsScorelessFirstRound` | MovieQuiz/Services/StatisticService/StatisticService.swift:77 | a first round with no correct answer writes no accuracy and leaves the best game at (0, 0, now) |
| `StatisticVariants.LegacyWeighsScorelessFirstRound` | MovieQuiz/Services/StatisticService.swift:73-80 | a first round of 0 out of a positive amount writes accuracy 0.0 and challenges the empty best game with (0, amount, now) |

## Left out

- Swift `Int` arithmetic traps on 64-bit overflow. The model's integers are unbounded, so a counter overflow is not modelled.
- `Double` rounding is not modelled. Accuracy is the exact real ratio, or an IEEE infinity/NaN for a division by zero. The two-decimal display is view formatting.
- `Date()` is a `now` parameter. One reading serves both the new game's date and the best-game getter's fallback for a missing date; in the source these are two clock reads.
- `GameResult.isBetterThan` is a comparator parameter, because its definition is not part of this model.
- `UserDefaults.Integer`: a stored infinity or NaN read through `integer(forKey:)` reads as 0 here; Foundation's result for those is not specified, and neither service ever stores one under an integer key.
- `UserDefaults`: strings, booleans, data and other property-list values are not modelled, nor their conversions to numbers (such as a numeric string read as an integer). The store holds only integers, doubles and dates, and reads between those follow Foundation: an integer is widened when read as a double, a finite double is truncated toward zero when read as an integer, and a date reads as 0.
- The unused `bestGame` key is declared in both revisions' `Keys` but never read or written. It is kept as a constant only.
- `StatisticServiceProtocol` becomes the `StatisticsSnapshot` record with one `Snapshot` view per revision. The earlier revision declares the conformance but lacks three members the protocol requires (`totalQuestions`, `totalCorrectAnswers` and `getCurrentAccuracy`). Its snapshot maps its answer totals onto the protocol's question totals.
- `convert` does not decode the image (`UIImage(data:) ?? UIImage()`). The step view model carries the question's bytes.
- UI effects are left out: the border colour resets, the `DispatchQueue` hops, and the one-second reveal delay. `PlayOut` models the repeated advance without timing.
- Weak/optional collaborators are assumed present, so every event is returned as a value. This covers `viewController?` and `questionFactory?`. The presenter's `statisticService?.store` is left out because the field is never assigned, so the call does nothing.
- `didAnswer` and `restartGame` are called by the view controller but are not defined in the shown presenter. The tally is state the presenter only reads.
- The network loader, the question factory, the alert presenter and the results message built in the view controller are not part of this model.
