/** `BaseGame` (src/assets/js/framework/BaseGame.js): the shell every game
    wraps. It keeps the attempt/correct counters, derives accuracy, persists
    the counters through the TTL cache under `"<gameType>-stats"`, guards
    `init` against a second run and names the three stat boxes. The games in
    rounding_game.dfy and number_lines_game.dfy hold one as `shell`, in place of
    inheriting from it. */
module BaseGame {

  import opened Wrappers
  import opened JsNumber
  import Storage

  datatype Stats = Stats(attempts: int, correct: int, bestScore: int)

  const ZeroStats := Stats(0, 0, 0)

  /** The counters an honest history of outcomes can produce. */
  predicate Consistent(s: Stats)
  {
    0 <= s.correct <= s.attempts
  }

  /** The counters after recording one outcome (`updateStats`). */
  function Recorded(s: Stats, isCorrect: bool): (r: Stats)
    ensures r.attempts == s.attempts + 1
    ensures r.correct == if isCorrect then s.correct + 1 else s.correct
    ensures r.bestScore == s.bestScore
  {
    Stats(s.attempts + 1, if isCorrect then s.correct + 1 else s.correct, s.bestScore)
  }

  /** Recording an outcome keeps the counters consistent. */
  lemma RecordedKeepsConsistent(s: Stats, isCorrect: bool)
    requires Consistent(s)
    ensures Consistent(Recorded(s, isCorrect))
  {
  }

  /** `attempts > 0 ? Math.round(correct / attempts * 100) : 0`, the formula
      BaseGame, custom-module.js and rounding.js all display. */
  function Accuracy(correct: int, attempts: int): int
  {
    if attempts > 0 then RoundHalfUp(correct as real / attempts as real * 100.0) else 0
  }

  /** Accuracy is a whole percentage: 0 with no attempts, 100 when every
      attempt was correct, 0 when none was, and always within [0, 100]. */
  lemma AccuracyBounds(correct: int, attempts: int)
    requires 0 <= correct <= attempts
    ensures 0 <= Accuracy(correct, attempts) <= 100
    ensures attempts == 0 ==> Accuracy(correct, attempts) == 0
    ensures attempts > 0 && correct == attempts ==> Accuracy(correct, attempts) == 100
    ensures correct == 0 ==> Accuracy(correct, attempts) == 0
  {
    if attempts > 0 {
      var x := correct as real / attempts as real * 100.0;
      assert 0.0 <= correct as real / attempts as real <= 1.0;
      assert 0.0 <= x <= 100.0;
      if correct == attempts {
        assert x == 100.0;
      }
    }
  }

  /** More correct answers out of the same attempts never lower the accuracy. */
  lemma AccuracyMonotone(c1: int, c2: int, attempts: int)
    requires 0 <= c1 <= c2 <= attempts
    ensures Accuracy(c1, attempts) <= Accuracy(c2, attempts)
  {
    if attempts > 0 {
      var a := attempts as real;
      assert c1 as real / a <= c2 as real / a;
      assert c1 as real / a * 100.0 <= c2 as real / a * 100.0;
    }
  }

  /** `titles[index] || 'Stat'`: the title of stat box `index`, or `'Stat'`
      outside the list (or for an empty title). */
  function StatTitle(titles: seq<string>, index: int): (t: string)
    ensures 0 <= index < |titles| && titles[index] != "" ==> t == titles[index]
    ensures !(0 <= index < |titles|) ==> t == "Stat"
    ensures 0 <= index < |titles| && titles[index] == "" ==> t == "Stat"
    ensures t != ""
  {
    if 0 <= index < |titles| && titles[index] != "" then titles[index] else "Stat"
  }

  const BaseTitles: seq<string> := ["Attempts", "Correct", "Accuracy"]

  /** Every index outside 0..2 is titled `'Stat'`. */
  lemma BaseTitleOutside(index: int)
    requires index < 0 || index > 2
    ensures StatTitle(BaseTitles, index) == "Stat"
  {
  }

  /** The cache key a game's counters are saved under. */
  function StatsKey(gameType: string): (k: string)
    ensures |k| == |gameType| + 6 && k[..|gameType|] == gameType && k[|gameType|..] == "-stats"
  {
    gameType + "-stats"
  }

  class Game {
    const gameType: string
    /** `window.storageWithTTL`, which may be absent (`null`). */
    const store: Storage.StorageWithTtl?<Stats>
    var stats: Stats
    var isInitialized: bool

    constructor(gameType: string, store: Storage.StorageWithTtl?<Stats>)
      ensures this.gameType == gameType && this.store == store
      ensures stats == ZeroStats && !isInitialized
    {
      this.gameType := gameType;
      this.store := store;
      stats := ZeroStats;
      isInitialized := false;
    }

    /** `init`: the first call builds the stats boxes and the home button
        (page effects, not modelled) and sets the flag; later calls return at
        once. */
    method Init()
      modifies this
      ensures isInitialized
      ensures stats == old(stats)
    {
      if isInitialized {
        return;
      }
      isInitialized := true;
    }

    /** `saveStats`: the counters go to the cache with no TTL. */
    method SaveStats(now: int)
      modifies store
      ensures store != null ==> store.backend == Storage.Put(old(store.backend), StatsKey(gameType), stats, None, now)
    {
      if store != null {
        store.SetWithTtl(StatsKey(gameType), stats, None, now);
      }
    }

    /** `updateStats`: one more attempt, one more correct answer iff
        `isCorrect`, then save. */
    method UpdateStats(isCorrect: bool, now: int)
      modifies this, store
      ensures stats == Recorded(old(stats), isCorrect)
      ensures isInitialized == old(isInitialized)
      ensures store != null ==> store.backend == Storage.Put(old(store.backend), StatsKey(gameType), stats, None, now)
    {
      stats := stats.(attempts := stats.attempts + 1);
      if isCorrect {
        stats := stats.(correct := stats.correct + 1);
      }
      SaveStats(now);
    }

    /** `loadStats`: saved counters replace the current ones; a `null` from
        the cache (nothing saved, expired or malformed) leaves them as they
        are. */
    method LoadStats(now: int)
      modifies this, store
      ensures store == null ==> stats == old(stats)
      ensures store != null ==>
        var found := Storage.Read(old(store.backend), StatsKey(gameType), now);
        && store.backend == found.backend
        && stats == (if found.result.Some? then found.result.value else old(stats))
      ensures isInitialized == old(isInitialized)
    {
      if store != null {
        var saved := store.GetWithTtl(StatsKey(gameType), now);
        if saved.Some? {
          stats := saved.value;
        }
      }
    }

    /** The percentage shown in the third stat box. */
    function AccuracyPercent(): int
      reads this
    {
      Accuracy(stats.correct, stats.attempts)
    }
  }

  /** What `updateStats` saves, `loadStats` restores: the counters survive
      a save/load round trip through the cache at any later time. */
  lemma SaveThenLoad(b: map<string, Storage.Record<Stats>>, gameType: string, s: Stats, t0: int, now: int)
    ensures Storage.Read(Storage.Put(b, StatsKey(gameType), s, None, t0), StatsKey(gameType), now).result == Some(s)
  {
    Storage.NoTtlNeverExpires(b, StatsKey(gameType), s, None, t0, now);
  }
}
