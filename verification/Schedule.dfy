/**
 The scheduler's wake-up loop (internal/platform/schedule/schedule.go) in a zone
 whose offset from UTC never changes. Instants are nanoseconds; a local minute is
 numbered from the epoch.
 */
module Schedule {
  import opened Clock

  const MINUTE: int := 60 * SECOND

  function LocalMinute(t: int, offset: int): int { (t + offset) / MINUTE }

  /** The start of a local minute. */
  function MinuteStart(m: int, offset: int): int { m * MINUTE - offset }

  /** One iteration: the clock when it goes to sleep, and the clock after the timer fired. */
  datatype Tick = Tick(asleep: int, awake: int)

  /** What the clock and the timer guarantee: time does not run backwards, and a timer never fires early. */
  predicate Plausible(ticks: seq<Tick>, offset: int) {
    && (forall i | 0 <= i < |ticks| :: ticks[i].awake >= MinuteStart(LocalMinute(ticks[i].asleep, offset) + 1, offset))
    && (forall i, j | 0 <= i < j < |ticks| :: ticks[i].awake <= ticks[j].asleep)
  }

  predicate Increasing(s: seq<int>) { forall i, j | 0 <= i < j < |s| :: s[i] < s[j] }

  lemma WakesInLaterMinutes(ticks: seq<Tick>, offset: int, i: nat, j: nat)
    requires Plausible(ticks, offset) && i < j < |ticks|
    ensures LocalMinute(ticks[i].awake, offset) < LocalMinute(ticks[j].awake, offset)
  {
  }

  /**
   The loop for one job; due says which minutes its expression matches. The handler
   runs at most once in any minute, and in every minute woken up in that is due.
   */
  method Loop(ticks: seq<Tick>, offset: int, due: int -> bool) returns (runs: seq<int>)
    requires Plausible(ticks, offset)
    ensures Increasing(runs)
    ensures forall m :: m in runs <==> due(m) && exists i | 0 <= i < |ticks| :: LocalMinute(ticks[i].awake, offset) == m
  {
    runs := [];
    var k := 0;
    while k < |ticks|
      invariant 0 <= k <= |ticks|
      invariant Increasing(runs)
      invariant forall m :: m in runs <==> due(m) && exists i | 0 <= i < k :: LocalMinute(ticks[i].awake, offset) == m
    {
      var now := LocalMinute(ticks[k].awake, offset);
      forall i | 0 <= i < k ensures LocalMinute(ticks[i].awake, offset) < now {
        WakesInLaterMinutes(ticks, offset, i, k);
      }
      assert forall j | 0 <= j < |runs| :: runs[j] in runs;
      if due(now) {
        runs := runs + [now];
      }
      k := k + 1;
    }
  }

  /** The next wake-up is in the very next minute, so no minute is skipped, exactly when the
      handler ended within its own minute and the timer fired within the one it aimed at. */
  lemma NoMinuteSkippedIff(ticks: seq<Tick>, offset: int, i: nat)
    requires Plausible(ticks, offset) && i + 1 < |ticks|
    ensures LocalMinute(ticks[i + 1].awake, offset) == LocalMinute(ticks[i].awake, offset) + 1
       <==> && LocalMinute(ticks[i + 1].asleep, offset) == LocalMinute(ticks[i].awake, offset)
            && ticks[i + 1].awake < MinuteStart(LocalMinute(ticks[i + 1].asleep, offset) + 2, offset)
  {
  }
}
