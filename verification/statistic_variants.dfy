/** The two revisions of `store` side by side. They write the same things in the same order
    and differ only in the guard that decides whether accuracy and the best game are looked
    at: the current revision needs a positive correct-answers total, the earlier one a
    positive answers total. */
module StatisticVariants {
  import opened Foundation
  import opened UserDefaults
  import opened StatisticStorage
  import Current = StatisticService
  import Legacy = LegacyStatisticService

  /** The current revision goes past its guard. */
  predicate CurrentGuard(s: Storage, count: int) {
    Current.TotalCorrectAnswers(s) + count > 0
  }

  /** The earlier revision goes past its guard. */
  predicate LegacyGuard(s: Storage, amount: int) {
    Legacy.TotalAnswers(s) + amount > 0
  }

  /** Stores whose snapshots agree hold the same totals. */
  predicate SameTotals(current: Storage, legacy: Storage) {
    && Current.TotalCorrectAnswers(current) == Legacy.CorrectAnswers(legacy)
    && Current.TotalQuestions(current) == Legacy.TotalAnswers(legacy)
  }

  /** On consistent totals and a valid round the current guard is the stricter one, and the
      two guards disagree exactly on a round that leaves the correct-answers total at 0
      while some question has been counted. */
  lemma GuardsDifferOnlyOnScorelessTotals(current: Storage, legacy: Storage, count: int, amount: int)
    requires SameTotals(current, legacy)
    requires Current.Consistent(current)
    requires Current.ValidRound(count, amount)
    ensures CurrentGuard(current, count) ==> LegacyGuard(legacy, amount)
    ensures CurrentGuard(current, count) != LegacyGuard(legacy, amount) <==>
      (Current.TotalCorrectAnswers(current) + count == 0 && Current.TotalQuestions(current) + amount > 0)
  {
  }

  /** Starting from stores that look the same, the two revisions end in stores that look the
      same whenever their guards agree. */
  lemma VariantsAgreeWhenGuardsAgree(
    current: Storage, legacy: Storage, count: int, amount: int, now: Date, isBetterThan: Comparator)
    requires Current.Snapshot(current, now) == Legacy.Snapshot(legacy, now)
    requires CurrentGuard(current, count) == LegacyGuard(legacy, amount)
    ensures Current.Snapshot(Current.Store(current, count, amount, now, isBetterThan), now)
         == Legacy.Snapshot(Legacy.Store(legacy, count, amount, now, isBetterThan), now)
  {
    var r1 := Current.Store(current, count, amount, now, isBetterThan);
    var r2 := Legacy.Store(legacy, count, amount, now, isBetterThan);
    if !CurrentGuard(current, count) {
      Current.StoreSkipsWithoutCorrectAnswers(current, count, amount, now, isBetterThan);
      Legacy.StoreSkipsWithoutAnswers(legacy, count, amount, now, isBetterThan);
    }
  }

  /** A first round with no correct answer: the current revision leaves accuracy unwritten
      and the best game at the empty record, while the earlier one writes a 0% accuracy and
      offers the round to the comparator as a new best game. */
  lemma ScorelessFirstRoundDiverges(amount: int, now: Date, isBetterThan: Comparator)
    requires amount > 0
    ensures var r := Current.Store(Empty, 0, amount, now, isBetterThan);
      && TotalAccuracyKey !in r
      && BestGame(r, now) == GameResult(0, 0, now)
    ensures var r := Legacy.Store(Empty, 0, amount, now, isBetterThan);
      && TotalAccuracy(r) == Finite(0.0)
      && TotalAccuracyKey in r
      && BestGame(r, now) == Challenge(GameResult(0, 0, now), GameResult(0, amount, now), isBetterThan)
  {
    CurrentSkipsScorelessFirstRound(amount, now, isBetterThan);
    LegacyWeighsScorelessFirstRound(amount, now, isBetterThan);
  }

  lemma CurrentSkipsScorelessFirstRound(amount: int, now: Date, isBetterThan: Comparator)
    ensures var r := Current.Store(Empty, 0, amount, now, isBetterThan);
      && TotalAccuracyKey !in r
      && BestGame(r, now) == GameResult(0, 0, now)
  {
  }

  lemma LegacyWeighsScorelessFirstRound(amount: int, now: Date, isBetterThan: Comparator)
    requires amount > 0
    ensures var r := Legacy.Store(Empty, 0, amount, now, isBetterThan);
      && TotalAccuracy(r) == Finite(0.0)
      && TotalAccuracyKey in r
      && BestGame(r, now) == Challenge(GameResult(0, 0, now), GameResult(0, amount, now), isBetterThan)
  {
    assert Legacy.CorrectAnswers(Empty) == 0 && Legacy.TotalAnswers(Empty) == 0;
    assert BestGame(Empty, now) == GameResult(0, 0, now);
    PercentageOfNothing(amount);
  }
}
