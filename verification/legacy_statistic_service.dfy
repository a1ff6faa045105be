/** The earlier revision of the statistics service: running totals under `correctAnswers`
    and `totalAnswers`, and a `store` whose guard looks at the answers total, so a round is
    weighed even when no answer has ever been right. It has no `getCurrentAccuracy` and does
    not expose the protocol's `totalQuestions` or `totalCorrectAnswers`. */
module LegacyStatisticService {
  import opened Foundation
  import opened UserDefaults
  import opened StatisticStorage

  const CorrectAnswersKey := "correctAnswers"
  const TotalAnswersKey := "totalAnswers"

  /** Every key `Store` may write. */
  const StoredKeys: set<string> := CounterKeys + RoundKeys

  /** The keys `Store` writes before its guard. */
  const CounterKeys: set<string> := {GamesCountKey, CorrectAnswersKey, TotalAnswersKey}

  function CorrectAnswers(s: Storage): (n: int)
    ensures CorrectAnswersKey !in s ==> n == 0
  {
    Integer(s, CorrectAnswersKey)
  }

  function SetCorrectAnswers(s: Storage, n: int): (r: Storage)
    ensures CorrectAnswers(r) == n
    ensures forall k :: k != CorrectAnswersKey ==> Lookup(r, k) == Lookup(s, k)
  {
    Set(s, CorrectAnswersKey, IntValue(n))
  }

  function TotalAnswers(s: Storage): (n: int)
    ensures TotalAnswersKey !in s ==> n == 0
  {
    Integer(s, TotalAnswersKey)
  }

  function SetTotalAnswers(s: Storage, n: int): (r: Storage)
    ensures TotalAnswers(r) == n
    ensures forall k :: k != TotalAnswersKey ==> Lookup(r, k) == Lookup(s, k)
  {
    Set(s, TotalAnswersKey, IntValue(n))
  }

  /** Each property lives under its own key: writing one leaves every other property
      reading as before. */
  lemma SetGamesCountIsolated(s: Storage, n: int, now: Date)
    ensures var r := SetGamesCount(s, n);
      CorrectAnswers(r) == CorrectAnswers(s) && TotalAnswers(r) == TotalAnswers(s)
      && TotalAccuracy(r) == TotalAccuracy(s) && BestGame(r, now) == BestGame(s, now)
  {
  }

  lemma SetCorrectAnswersIsolated(s: Storage, n: int, now: Date)
    ensures var r := SetCorrectAnswers(s, n);
      GamesCount(r) == GamesCount(s) && TotalAnswers(r) == TotalAnswers(s)
      && TotalAccuracy(r) == TotalAccuracy(s) && BestGame(r, now) == BestGame(s, now)
  {
  }

  lemma SetTotalAnswersIsolated(s: Storage, n: int, now: Date)
    ensures var r := SetTotalAnswers(s, n);
      GamesCount(r) == GamesCount(s) && CorrectAnswers(r) == CorrectAnswers(s)
      && TotalAccuracy(r) == TotalAccuracy(s) && BestGame(r, now) == BestGame(s, now)
  {
  }

  lemma SetTotalAccuracyIsolated(s: Storage, a: Double, now: Date)
    ensures var r := SetTotalAccuracy(s, a);
      GamesCount(r) == GamesCount(s) && CorrectAnswers(r) == CorrectAnswers(s)
      && TotalAnswers(r) == TotalAnswers(s) && BestGame(r, now) == BestGame(s, now)
  {
  }

  lemma SetBestGameIsolated(s: Storage, g: GameResult)
    ensures var r := SetBestGame(s, g);
      GamesCount(r) == GamesCount(s) && CorrectAnswers(r) == CorrectAnswers(s)
      && TotalAnswers(r) == TotalAnswers(s) && TotalAccuracy(r) == TotalAccuracy(s)
  {
  }

  /** This revision's store seen through the protocol's snapshot shape, its answer totals
      standing for the protocol's question totals. */
  function Snapshot(s: Storage, now: Date): StatisticsSnapshot {
    StatisticsSnapshot(TotalAccuracy(s), GamesCount(s), BestGame(s, now), TotalAnswers(s), CorrectAnswers(s))
  }

  /** The part of `store` before its guard: one more game, and the round added to the
      running totals. */
  function AddRound(s: Storage, count: int, amount: int): (r: Storage)
    ensures GamesCount(r) == GamesCount(s) + 1
    ensures CorrectAnswers(r) == CorrectAnswers(s) + count
    ensures TotalAnswers(r) == TotalAnswers(s) + amount
    ensures forall k :: k !in CounterKeys ==> Lookup(r, k) == Lookup(s, k)
  {
    var s1 := SetGamesCount(s, GamesCount(s) + 1);
    assert CorrectAnswers(s1) == CorrectAnswers(s) && TotalAnswers(s1) == TotalAnswers(s) by {
      assert Lookup(s1, CorrectAnswersKey) == Lookup(s, CorrectAnswersKey);
      assert Lookup(s1, TotalAnswersKey) == Lookup(s, TotalAnswersKey);
    }
    var s2 := SetCorrectAnswers(s1, CorrectAnswers(s1) + count);
    assert GamesCount(s2) == GamesCount(s1) && TotalAnswers(s2) == TotalAnswers(s1) by {
      assert Lookup(s2, GamesCountKey) == Lookup(s1, GamesCountKey);
      assert Lookup(s2, TotalAnswersKey) == Lookup(s1, TotalAnswersKey);
    }
    var r := SetTotalAnswers(s2, TotalAnswers(s2) + amount);
    assert GamesCount(r) == GamesCount(s2) && CorrectAnswers(r) == CorrectAnswers(s2) by {
      assert Lookup(r, GamesCountKey) == Lookup(s2, GamesCountKey);
      assert Lookup(r, CorrectAnswersKey) == Lookup(s2, CorrectAnswersKey);
    }
    r
  }

  /** `store(correct:total:)` of this revision. The guard is on the answers total, which
      makes the divisor positive whenever accuracy is recomputed. */
  function Store(s: Storage, count: int, amount: int, now: Date, isBetterThan: Comparator): (r: Storage)
    ensures GamesCount(r) == GamesCount(s) + 1
    ensures CorrectAnswers(r) == CorrectAnswers(s) + count
    ensures TotalAnswers(r) == TotalAnswers(s) + amount
    // early return: nothing but the three counters is written
    ensures TotalAnswers(r) <= 0 ==>
      forall k :: k !in CounterKeys ==> Lookup(r, k) == Lookup(s, k)
    ensures TotalAnswers(r) > 0 ==> TotalAccuracyKey in r
    ensures TotalAnswers(r) > 0 ==>
      TotalAccuracy(r) == Percentage(CorrectAnswers(r), TotalAnswers(r))
    ensures TotalAnswers(r) > 0 ==>
      BestGame(r, now) == Challenge(BestGame(s, now), GameResult(count, amount, now), isBetterThan)
    ensures forall k :: k !in StoredKeys ==> Lookup(r, k) == Lookup(s, k)
  {
    var counted := AddRound(s, count, amount);
    if !(TotalAnswers(counted) > 0) then counted
    else
      var r := RecordRound(counted, Percentage(CorrectAnswers(counted), TotalAnswers(counted)), GameResult(count, amount, now), now, isBetterThan);
      assert SameBestGameKeys(counted, s);
      BestGameReadsItsKeys(counted, s);
      assert Lookup(r, GamesCountKey) == Lookup(counted, GamesCountKey);
      assert Lookup(r, CorrectAnswersKey) == Lookup(counted, CorrectAnswersKey);
      assert Lookup(r, TotalAnswersKey) == Lookup(counted, TotalAnswersKey);
      r
  }

  /** The best-game keys are written only when the guard passes and the comparator prefers
      the round; the round then reads back at any later time, and otherwise the three keys
      keep exactly what they held. */
  lemma StoreWritesBestGameOnlyWhenPreferred(s: Storage, count: int, amount: int, now: Date, isBetterThan: Comparator)
    ensures var r := Store(s, count, amount, now, isBetterThan);
      var preferred := TotalAnswers(r) > 0 && isBetterThan(GameResult(count, amount, now), BestGame(s, now));
      && (preferred ==> forall t :: BestGame(r, t) == GameResult(count, amount, now))
      && (!preferred ==> SameBestGameKeys(r, s) && forall t :: BestGame(r, t) == BestGame(s, t))
  {
    var counted := AddRound(s, count, amount);
    assert SameBestGameKeys(counted, s);
    BestGameReadsItsKeys(counted, s);
    var r := Store(s, count, amount, now, isBetterThan);
    if !(TotalAnswers(r) > 0 && isBetterThan(GameResult(count, amount, now), BestGame(s, now))) {
      BestGameReadsItsKeys(r, s);
    }
  }

  /** Early return: when no answer has been counted after the additions, accuracy and the
      best game read exactly as before. */
  lemma StoreSkipsWithoutAnswers(s: Storage, count: int, amount: int, now: Date, isBetterThan: Comparator)
    requires TotalAnswers(s) + amount <= 0
    ensures var r := Store(s, count, amount, now, isBetterThan);
      TotalAccuracy(r) == TotalAccuracy(s) && BestGame(r, now) == BestGame(s, now)
  {
  }

  /** Whenever this revision recomputes accuracy the divisor is positive, so for any
      arguments the stored accuracy is the exact finite percentage of correct answers. */
  lemma StoreAccuracyAlwaysFinite(s: Storage, count: int, amount: int, now: Date, isBetterThan: Comparator)
    requires TotalAnswers(s) + amount > 0
    ensures var r := Store(s, count, amount, now, isBetterThan);
      TotalAccuracy(r) == Finite((CorrectAnswers(s) + count) as real / (TotalAnswers(s) + amount) as real * 100.0)
  {
    var r := Store(s, count, amount, now, isBetterThan);
    RecomputedAccuracyIsFinite(r, CorrectAnswers(s) + count, TotalAnswers(s) + amount);
  }

  lemma RecomputedAccuracyIsFinite(r: Storage, correct: int, total: int)
    requires total > 0
    requires TotalAccuracy(r) == Percentage(correct, total)
    ensures TotalAccuracy(r) == Finite(correct as real / total as real * 100.0)
  {
  }


  /** Valid rounds on a store whose correct answers never exceed its answers keep it so, and
      the recomputed accuracy is then a percentage between 0 and 100. */
  lemma StoreKeepsConsistent(s: Storage, count: int, amount: int, now: Date, isBetterThan: Comparator)
    requires 0 <= CorrectAnswers(s) <= TotalAnswers(s)
    requires 0 <= count <= amount
    ensures var r := Store(s, count, amount, now, isBetterThan);
      && 0 <= CorrectAnswers(r) <= TotalAnswers(r)
      && (TotalAnswers(r) > 0 ==> 0.0 <= TotalAccuracy(r).value <= 100.0)
  {
    var r := Store(s, count, amount, now, isBetterThan);
    if TotalAnswers(r) > 0 {
      PercentageBounds(CorrectAnswers(r), TotalAnswers(r));
    }
  }
}
