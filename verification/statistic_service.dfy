/** The statistics service that conforms to `StatisticServiceProtocol`: running totals under
    `totalCorrectAnswers` and `totalQuestions`, and a `store` that skips the accuracy and
    best-game update while no correct answer has ever been recorded. */
module StatisticService {
  import opened Foundation
  import opened UserDefaults
  import opened StatisticStorage

  const TotalCorrectAnswersKey := "totalCorrectAnswers"
  const TotalQuestionsKey := "totalQuestions"

  /** Every key `Store` may write. */
  const StoredKeys: set<string> := CounterKeys + RoundKeys

  /** The keys `Store` writes before its guard. */
  const CounterKeys: set<string> := {GamesCountKey, TotalCorrectAnswersKey, TotalQuestionsKey}

  function TotalCorrectAnswers(s: Storage): (n: int)
    ensures TotalCorrectAnswersKey !in s ==> n == 0
  {
    Integer(s, TotalCorrectAnswersKey)
  }

  function SetTotalCorrectAnswers(s: Storage, n: int): (r: Storage)
    ensures TotalCorrectAnswers(r) == n
    ensures forall k :: k != TotalCorrectAnswersKey ==> Lookup(r, k) == Lookup(s, k)
  {
    Set(s, TotalCorrectAnswersKey, IntValue(n))
  }

  function TotalQuestions(s: Storage): (n: int)
    ensures TotalQuestionsKey !in s ==> n == 0
  {
    Integer(s, TotalQuestionsKey)
  }

  function SetTotalQuestions(s: Storage, n: int): (r: Storage)
    ensures TotalQuestions(r) == n
    ensures forall k :: k != TotalQuestionsKey ==> Lookup(r, k) == Lookup(s, k)
  {
    Set(s, TotalQuestionsKey, IntValue(n))
  }

  /** Each property lives under its own key: writing one counter leaves every other
      property reading as before. */
  lemma SetGamesCountIsolated(s: Storage, n: int, now: Date)
    ensures var r := SetGamesCount(s, n);
      TotalCorrectAnswers(r) == TotalCorrectAnswers(s) && TotalQuestions(r) == TotalQuestions(s)
      && TotalAccuracy(r) == TotalAccuracy(s) && BestGame(r, now) == BestGame(s, now)
  {
  }

  lemma SetTotalCorrectAnswersIsolated(s: Storage, n: int, now: Date)
    ensures var r := SetTotalCorrectAnswers(s, n);
      GamesCount(r) == GamesCount(s) && TotalQuestions(r) == TotalQuestions(s)
      && TotalAccuracy(r) == TotalAccuracy(s) && BestGame(r, now) == BestGame(s, now)
  {
  }

  lemma SetTotalQuestionsIsolated(s: Storage, n: int, now: Date)
    ensures var r := SetTotalQuestions(s, n);
      GamesCount(r) == GamesCount(s) && TotalCorrectAnswers(r) == TotalCorrectAnswers(s)
      && TotalAccuracy(r) == TotalAccuracy(s) && BestGame(r, now) == BestGame(s, now)
  {
  }

  lemma SetTotalAccuracyIsolated(s: Storage, a: Double, now: Date)
    ensures var r := SetTotalAccuracy(s, a);
      GamesCount(r) == GamesCount(s) && TotalCorrectAnswers(r) == TotalCorrectAnswers(s)
      && TotalQuestions(r) == TotalQuestions(s) && BestGame(r, now) == BestGame(s, now)
  {
  }

  lemma SetBestGameIsolated(s: Storage, g: GameResult)
    ensures var r := SetBestGame(s, g);
      GamesCount(r) == GamesCount(s) && TotalCorrectAnswers(r) == TotalCorrectAnswers(s)
      && TotalQuestions(r) == TotalQuestions(s) && TotalAccuracy(r) == TotalAccuracy(s)
  {
  }

  /** The protocol's read-only view of the store. */
  function Snapshot(s: Storage, now: Date): StatisticsSnapshot {
    StatisticsSnapshot(TotalAccuracy(s), GamesCount(s), BestGame(s, now), TotalQuestions(s), TotalCorrectAnswers(s))
  }

  /** What a well-used store keeps: correct answers are never more than questions asked. */
  predicate Consistent(s: Storage) {
    0 <= TotalCorrectAnswers(s) <= TotalQuestions(s)
  }

  /** A round as the presenter reports it: between none and all of its questions right. */
  predicate ValidRound(count: int, amount: int) {
    0 <= count <= amount
  }

  /** `getCurrentAccuracy()`: 0 until a question has been counted, otherwise the share of
      correct answers as a percentage. */
  function GetCurrentAccuracy(s: Storage): (a: Double)
    ensures a.Finite?
    ensures TotalQuestions(s) <= 0 ==> a.value == 0.0
    ensures TotalQuestions(s) > 0 ==>
      a.value == TotalCorrectAnswers(s) as real / TotalQuestions(s) as real * 100.0
  {
    if TotalQuestions(s) > 0 then Percentage(TotalCorrectAnswers(s), TotalQuestions(s))
    else Finite(0.0)
  }

  /** On a consistent store the current accuracy is a percentage between 0 and 100. */
  lemma CurrentAccuracyBounds(s: Storage)
    requires Consistent(s)
    ensures 0.0 <= GetCurrentAccuracy(s).value <= 100.0
  {
    if TotalQuestions(s) > 0 {
      PercentageBounds(TotalCorrectAnswers(s), TotalQuestions(s));
    }
  }

  /** The part of `store` before its guard: one more game, and the round added to the
      running totals. */
  function AddRound(s: Storage, count: int, amount: int): (r: Storage)
    ensures GamesCount(r) == GamesCount(s) + 1
    ensures TotalCorrectAnswers(r) == TotalCorrectAnswers(s) + count
    ensures TotalQuestions(r) == TotalQuestions(s) + amount
    ensures forall k :: k !in CounterKeys ==> Lookup(r, k) == Lookup(s, k)
  {
    var s1 := SetGamesCount(s, GamesCount(s) + 1);
    assert TotalCorrectAnswers(s1) == TotalCorrectAnswers(s) && TotalQuestions(s1) == TotalQuestions(s) by {
      assert Lookup(s1, TotalCorrectAnswersKey) == Lookup(s, TotalCorrectAnswersKey);
      assert Lookup(s1, TotalQuestionsKey) == Lookup(s, TotalQuestionsKey);
    }
    var s2 := SetTotalCorrectAnswers(s1, TotalCorrectAnswers(s1) + count);
    assert GamesCount(s2) == GamesCount(s1) && TotalQuestions(s2) == TotalQuestions(s1) by {
      assert Lookup(s2, GamesCountKey) == Lookup(s1, GamesCountKey);
      assert Lookup(s2, TotalQuestionsKey) == Lookup(s1, TotalQuestionsKey);
    }
    var r := SetTotalQuestions(s2, TotalQuestions(s2) + amount);
    assert GamesCount(r) == GamesCount(s2) && TotalCorrectAnswers(r) == TotalCorrectAnswers(s2) by {
      assert Lookup(r, GamesCountKey) == Lookup(s2, GamesCountKey);
      assert Lookup(r, TotalCorrectAnswersKey) == Lookup(s2, TotalCorrectAnswersKey);
    }
    r
  }

  /** `store(correct:total:)` for a round with `count` of `amount` answers right, played at
      `now`. The counters always advance; the guard on the correct-answers total then decides
      whether accuracy and the best game are looked at. */
  function Store(s: Storage, count: int, amount: int, now: Date, isBetterThan: Comparator): (r: Storage)
    ensures GamesCount(r) == GamesCount(s) + 1
    ensures TotalCorrectAnswers(r) == TotalCorrectAnswers(s) + count
    ensures TotalQuestions(r) == TotalQuestions(s) + amount
    // early return: nothing but the three counters is written
    ensures TotalCorrectAnswers(r) <= 0 ==>
      forall k :: k !in CounterKeys ==> Lookup(r, k) == Lookup(s, k)
    ensures TotalCorrectAnswers(r) > 0 ==> TotalAccuracyKey in r
    ensures TotalCorrectAnswers(r) > 0 ==> TotalAccuracy(r) == Percentage(TotalCorrectAnswers(r), TotalQuestions(r))
    ensures TotalCorrectAnswers(r) > 0 ==>
      BestGame(r, now) == Challenge(BestGame(s, now), GameResult(count, amount, now), isBetterThan)
    ensures forall k :: k !in StoredKeys ==> Lookup(r, k) == Lookup(s, k)
  {
    var counted := AddRound(s, count, amount);
    if !(TotalCorrectAnswers(counted) > 0) then counted
    else
      var r := RecordRound(counted, Percentage(TotalCorrectAnswers(counted), TotalQuestions(counted)), GameResult(count, amount, now), now, isBetterThan);
      assert SameBestGameKeys(counted, s);
      BestGameReadsItsKeys(counted, s);
      assert Lookup(r, GamesCountKey) == Lookup(counted, GamesCountKey);
      assert Lookup(r, TotalCorrectAnswersKey) == Lookup(counted, TotalCorrectAnswersKey);
      assert Lookup(r, TotalQuestionsKey) == Lookup(counted, TotalQuestionsKey);
      r
  }

  /** The best-game keys are written only when the guard passes and the comparator prefers
      the round; the round then reads back at any later time, and otherwise the three keys
      keep exactly what they held. */
  lemma StoreWritesBestGameOnlyWhenPreferred(s: Storage, count: int, amount: int, now: Date, isBetterThan: Comparator)
    ensures var r := Store(s, count, amount, now, isBetterThan);
      var preferred := TotalCorrectAnswers(r) > 0 && isBetterThan(GameResult(count, amount, now), BestGame(s, now));
      && (preferred ==> forall t :: BestGame(r, t) == GameResult(count, amount, now))
      && (!preferred ==> SameBestGameKeys(r, s) && forall t :: BestGame(r, t) == BestGame(s, t))
  {
    var counted := AddRound(s, count, amount);
    assert SameBestGameKeys(counted, s);
    BestGameReadsItsKeys(counted, s);
    var r := Store(s, count, amount, now, isBetterThan);
    if !(TotalCorrectAnswers(r) > 0 && isBetterThan(GameResult(count, amount, now), BestGame(s, now))) {
      BestGameReadsItsKeys(r, s);
    }
  }

  /** Early return: when the correct-answers total is still 0 after the additions, accuracy
      and the best game read exactly as before. */
  lemma StoreSkipsWithoutCorrectAnswers(s: Storage, count: int, amount: int, now: Date, isBetterThan: Comparator)
    requires TotalCorrectAnswers(s) + count <= 0
    ensures var r := Store(s, count, amount, now, isBetterThan);
      TotalAccuracy(r) == TotalAccuracy(s) && BestGame(r, now) == BestGame(s, now)
  {
  }

  /** A valid round keeps the store consistent, and once the guard passes the stored
      accuracy is the exact percentage of correct answers, between 0 and 100, equal to what
      `getCurrentAccuracy` then reports; the division is never by zero. */
  lemma StoreKeepsConsistent(s: Storage, count: int, amount: int, now: Date, isBetterThan: Comparator)
    requires Consistent(s)
    requires ValidRound(count, amount)
    ensures var r := Store(s, count, amount, now, isBetterThan);
      && Consistent(r)
      && (TotalCorrectAnswers(r) > 0 ==>
            && TotalQuestions(r) > 0
            && TotalAccuracy(r) == GetCurrentAccuracy(r)
            && 0.0 <= TotalAccuracy(r).value <= 100.0)
  {
    var r := Store(s, count, amount, now, isBetterThan);
    if TotalCorrectAnswers(r) > 0 {
      CurrentAccuracyBounds(r);
    }
  }

  /** The guard looks at correct answers, not at questions: once a round outside
      0 <= count <= amount leaves correct answers counted but no question counted, the
      recomputed accuracy is an infinity. */
  lemma StoreCanRecordInfiniteAccuracy(now: Date, isBetterThan: Comparator)
    ensures TotalAccuracy(Store(Empty, 1, 0, now, isBetterThan)) == PositiveInfinity
  {
  }

  /** The first round stored on an empty store, for example 7 of 10: one game, the round's
      totals, 70% accuracy, and the round as best game whenever it beats the empty record. */
  lemma FirstRoundOnEmptyStore(now: Date, isBetterThan: Comparator)
    ensures var r := Store(Empty, 7, 10, now, isBetterThan);
      && GamesCount(r) == 1
      && TotalCorrectAnswers(r) == 7
      && TotalQuestions(r) == 10
      && TotalAccuracy(r) == Finite(70.0)
      && BestGame(r, now) == Challenge(GameResult(0, 0, now), GameResult(7, 10, now), isBetterThan)
  {
    StoreOnEmpty(7, 10, now, isBetterThan);
    SevenOfTen();
  }

  lemma SevenOfTen()
    ensures Percentage(7, 10) == Finite(70.0)
  {
    assert 7 as real / 10 as real * 100.0 == 70.0;
  }

  lemma StoreOnEmpty(count: int, amount: int, now: Date, isBetterThan: Comparator)
    requires count > 0
    ensures var r := Store(Empty, count, amount, now, isBetterThan);
      && GamesCount(r) == 1
      && TotalCorrectAnswers(r) == count
      && TotalQuestions(r) == amount
      && TotalAccuracy(r) == Percentage(count, amount)
      && BestGame(r, now) == Challenge(GameResult(0, 0, now), GameResult(count, amount, now), isBetterThan)
  {
    assert BestGame(Empty, now) == GameResult(0, 0, now);
    assert GamesCount(Empty) == 0 && TotalCorrectAnswers(Empty) == 0 && TotalQuestions(Empty) == 0;
  }
}
