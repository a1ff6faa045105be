/** What both revisions of the statistics service keep identically: the game result record,
    the keys shared by the two revisions, and the key-backed `gamesCount`, `bestGame` and
    `totalAccuracy` properties over the preference store. */
module StatisticStorage {
  import opened Foundation
  import opened UserDefaults

  /** One finished round: how many answers were right, out of how many, and when. */
  datatype GameResult = GameResult(correct: int, total: int, date: Date)

  /** `candidate.isBetterThan(record)`. Its definition is not part of this model, so every
      property about the best game holds for whatever comparison is supplied. */
  type Comparator = (GameResult, GameResult) -> bool

  /** The read-only view `StatisticServiceProtocol` exposes. */
  datatype StatisticsSnapshot = StatisticsSnapshot(
    totalAccuracy: Double,
    gamesCount: int,
    bestGame: GameResult,
    totalQuestions: int,
    totalCorrectAnswers: int)

  // Raw values of the `Keys` cases both revisions declare.
  const CorrectKey := "correct"
  const BestGameKey := "bestGame"
  const GamesCountKey := "gamesCount"
  const TotalKey := "total"
  const DateKey := "date"
  const TotalAccuracyKey := "totalAccuracy"

  /** The three keys the best game is spread over. */
  const BestGameKeys: set<string> := {CorrectKey, TotalKey, DateKey}

  /** The keys `store` writes after its guard. */
  const RoundKeys: set<string> := {TotalAccuracyKey} + BestGameKeys

  function GamesCount(s: Storage): (n: int)
    ensures GamesCountKey !in s ==> n == 0
  {
    Integer(s, GamesCountKey)
  }

  function SetGamesCount(s: Storage, n: int): (r: Storage)
    ensures GamesCount(r) == n
    ensures forall k :: k != GamesCountKey ==> Lookup(r, k) == Lookup(s, k)
  {
    Set(s, GamesCountKey, IntValue(n))
  }

  /** The best game as read back; a missing date reads as the current time `now`. */
  function BestGame(s: Storage, now: Date): (g: GameResult)
    ensures CorrectKey !in s ==> g.correct == 0
    ensures TotalKey !in s ==> g.total == 0
    ensures DateKey !in s ==> g.date == now
  {
    GameResult(Integer(s, CorrectKey), Integer(s, TotalKey), DateFor(s, DateKey).GetOr(now))
  }

  /** Writes the three parts of a game result under their own keys. */
  function SetBestGame(s: Storage, g: GameResult): (r: Storage)
    ensures forall now :: BestGame(r, now) == g
    ensures forall k :: k !in BestGameKeys ==> Lookup(r, k) == Lookup(s, k)
  {
    var s1 := Set(s, CorrectKey, IntValue(g.correct));
    var s2 := Set(s1, TotalKey, IntValue(g.total));
    Set(s2, DateKey, DateValue(g.date))
  }

  function TotalAccuracy(s: Storage): (a: Double)
    ensures TotalAccuracyKey !in s ==> a == Finite(0.0)
  {
    DoubleFor(s, TotalAccuracyKey)
  }

  function SetTotalAccuracy(s: Storage, a: Double): (r: Storage)
    ensures TotalAccuracy(r) == a
    ensures forall k :: k != TotalAccuracyKey ==> Lookup(r, k) == Lookup(s, k)
  {
    Set(s, TotalAccuracyKey, DoubleValue(a))
  }

  /** Two stores hold the same values under the three best-game keys. */
  predicate SameBestGameKeys(s: Storage, s': Storage) {
    && Lookup(s, CorrectKey) == Lookup(s', CorrectKey)
    && Lookup(s, TotalKey) == Lookup(s', TotalKey)
    && Lookup(s, DateKey) == Lookup(s', DateKey)
  }

  /** The best game is read from its three keys alone: stores that agree on them report
      the same best game at every time. */
  lemma BestGameReadsItsKeys(s: Storage, s': Storage)
    requires SameBestGameKeys(s, s')
    ensures forall t :: BestGame(s, t) == BestGame(s', t)
  {
  }

  /** The best game read back after storing a round: replaced by `candidate` exactly when the
      comparator ranks it above the current record. */
  function Challenge(record: GameResult, candidate: GameResult, isBetterThan: Comparator): (g: GameResult)
    ensures g == candidate || g == record
    ensures g == candidate <== isBetterThan(candidate, record)
    ensures g == record <== !isBetterThan(candidate, record)
  {
    if isBetterThan(candidate, record) then candidate else record
  }

  /** What both revisions of `store` do once past their guard: save the new overall
      accuracy, then offer the round to the comparator as the new best game. */
  function RecordRound(s: Storage, accuracy: Double, current: GameResult, now: Date, isBetterThan: Comparator): (r: Storage)
    ensures TotalAccuracy(r) == accuracy && TotalAccuracyKey in r
    ensures BestGame(r, now) == Challenge(BestGame(s, now), current, isBetterThan)
    // a round the comparator prefers is written out, so it reads back at any later time
    ensures isBetterThan(current, BestGame(s, now)) ==> forall t :: BestGame(r, t) == current
    // a declined round writes nothing to the best-game keys
    ensures !isBetterThan(current, BestGame(s, now)) ==> SameBestGameKeys(r, s)
    ensures forall k :: k !in RoundKeys ==> Lookup(r, k) == Lookup(s, k)
  {
    var s1 := SetTotalAccuracy(s, accuracy);
    assert BestGame(s1, now) == BestGame(s, now) by {
      assert Lookup(s1, CorrectKey) == Lookup(s, CorrectKey);
      assert Lookup(s1, TotalKey) == Lookup(s, TotalKey);
      assert Lookup(s1, DateKey) == Lookup(s, DateKey);
    }
    if isBetterThan(current, BestGame(s1, now)) then
      var r := SetBestGame(s1, current);
      assert Lookup(r, TotalAccuracyKey) == Lookup(s1, TotalAccuracyKey);
      r
    else s1
  }
}
