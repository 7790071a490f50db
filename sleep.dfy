/** The power/sleep scheduler of `shutdown_and_wake` (utils.cpp): from the playback
    state and the RTC time it chooses how long to power down, so that the device
    wakes on the next minute while music plays, on the next ten-minute mark by day
    and on the next full hour by night. */
module Sleep {
  import opened Types

  /** What `shutdown_and_wake` hands to the platform: the bottom-line message, the
      seconds given to the RTC shutdown and the deep-sleep timer in microseconds. */
  datatype SleepDecision = SleepDecision(message: string, seconds: int, timerMicros: int)

  /** C's `%` truncates toward zero (RTC fields are signed 8-bit integers). */
  function CRem(a: int, b: int): (r: int)
    requires b > 0
    ensures a >= 0 ==> r == a % b
    ensures a < 0 ==> r == -((-a) % b)
  {
    if a >= 0 then a % b else -((-a) % b)
  }

  /** Seconds until wake-up, aligned to the next minute, ten minutes or hour. */
  function SleepSeconds(playing: bool, hour: int, minute: int, second: int): int
  {
    if playing then 60 - second
    else if hour > 7 then 600 - CRem(minute, 10) * 60 - second
    else 3600 - minute * 60 - second
  }

  function SleepMessage(playing: bool, hour: int): string
  {
    if playing then "Sleeping for 1 minute"
    else if hour > 7 then "Sleeping for 10 minutes"
    else "Sleeping for 1 hour"
  }

  /** The deep-sleep timer as intended: one second past the RTC wake-up, computed
      without overflow. */
  function TimerMicros(seconds: int): int
  {
    (seconds + 1) * 1_000_000
  }

  /** `shutdown_and_wake` with the timer computed as intended (see the findings). */
  function ShutdownAndWake(playing: bool, hour: int, minute: int, second: int): SleepDecision
  {
    var t := SleepSeconds(playing, hour, minute, second);
    SleepDecision(SleepMessage(playing, hour), t, TimerMicros(t))
  }

  // ---------------------------------------------------------------------------
  // The reference: the next boundary of the period that applies
  // ---------------------------------------------------------------------------

  predicate ValidTime(hour: int, minute: int, second: int)
  {
    0 <= hour < 24 && 0 <= minute < 60 && 0 <= second < 60
  }

  /** The alignment period: a minute while playing, ten minutes by day (after 07:59),
      an hour by night. */
  function Period(playing: bool, hour: int): nat
  {
    if playing then 60 else if hour > 7 then 600 else 3600
  }

  /** The first multiple of `period` strictly after `now`. */
  function NextBoundary(now: nat, period: nat): nat
    requires period > 0
  {
    (now / period + 1) * period
  }

  /** The scheduler sleeps exactly until the next boundary of its period: the sleep
      lies in 1..period and the wake-up second (counted from the start of the hour)
      is a multiple of the period. */
  lemma SleepReachesNextBoundary(playing: bool, hour: int, minute: int, second: int)
    requires ValidTime(hour, minute, second)
    ensures var now := minute * 60 + second;
      var p := Period(playing, hour);
      var t := SleepSeconds(playing, hour, minute, second);
      && 1 <= t <= p
      && now + t == NextBoundary(now, p)
      && (now + t) % p == 0
  {
    var now := minute * 60 + second;
    if playing {
      assert now / 60 == minute;
      assert now + (60 - second) == (minute + 1) * 60;
    } else if hour > 7 {
      var tens := minute / 10;
      assert minute == tens * 10 + minute % 10;
      assert now == tens * 600 + (minute % 10) * 60 + second;
      assert now / 600 == tens;
      assert now + SleepSeconds(playing, hour, minute, second) == (tens + 1) * 600;
    } else {
      assert now / 3600 == 0;
    }
  }

  /** The three branches, with their messages (for instance, playing at 20:xx sleeps
      at most a minute, 14:xx idle at most ten minutes, 03:xx idle at most an hour). */
  lemma SleepBranches(playing: bool, hour: int, minute: int, second: int)
    requires ValidTime(hour, minute, second)
    ensures var d := ShutdownAndWake(playing, hour, minute, second);
      && (playing ==> d.message == "Sleeping for 1 minute" && 1 <= d.seconds <= 60)
      && (!playing && hour > 7 ==> d.message == "Sleeping for 10 minutes" && 1 <= d.seconds <= 600)
      && (!playing && hour <= 7 ==> d.message == "Sleeping for 1 hour" && 1 <= d.seconds <= 3600)
      && d.timerMicros == (d.seconds + 1) * 1_000_000
      && 2_000_000 <= d.timerMicros <= 3_601_000_000
  {
    SleepReachesNextBoundary(playing, hour, minute, second);
  }

  // ---------------------------------------------------------------------------
  // Finding: `(long)(sleep_time + 1) * 1000000L` in 32-bit arithmetic
  // ---------------------------------------------------------------------------

  /** Two's-complement wrap of a product into a 32-bit `long`. */
  function WrapLong32(x: int): (r: int)
    ensures Int32Min <= r <= Int32Max
    ensures (r - x) % 0x1_0000_0000 == 0
  {
    var m := (x - Int32Min) % 0x1_0000_0000;
    m + Int32Min
  }

  /** Conversion of a signed value to the `uint64_t` parameter of esp_deep_sleep. */
  function ToUint64(x: int): (r: nat)
    ensures r < 0x1_0000_0000_0000_0000
  {
    x % 0x1_0000_0000_0000_0000
  }

  /** The timer argument exactly as utils.cpp computes it on a 32-bit-long target. */
  function TimerMicrosAsWritten(seconds: int): nat
  {
    ToUint64(WrapLong32((seconds + 1) * 1_000_000))
  }

  /** Idle at 03:00:00 the scheduler asks for 3600 s, but the 32-bit product wraps and
      the deep-sleep timer becomes a value near 2^64 instead of 3,601,000,000. */
  lemma NightTimerOverflows()
    ensures SleepSeconds(false, 3, 0, 0) == 3600
    ensures TimerMicrosAsWritten(3600) != TimerMicros(3600)
    ensures TimerMicrosAsWritten(3600) == 0x1_0000_0000_0000_0000 - 693_967_296
  {
    assert (3600 + 1) * 1_000_000 == 3_601_000_000;
    assert WrapLong32(3_601_000_000) == -693_967_296;
  }

  /** As written and as intended agree exactly when the product fits a 32-bit long;
      night sleeps of 2147 s or more (the first 24 minutes of a night hour) do not. */
  lemma TimerAsWrittenAgreesWhenItFits(seconds: int)
    requires 0 <= seconds <= 3600
    ensures TimerMicrosAsWritten(seconds) == TimerMicros(seconds) <==> seconds + 1 <= 2147
  {
    var x := (seconds + 1) * 1_000_000;
    if x <= Int32Max {
      assert WrapLong32(x) == x;
    } else {
      assert WrapLong32(x) == x - 0x1_0000_0000;
      assert ToUint64(x - 0x1_0000_0000) == x - 0x1_0000_0000 + 0x1_0000_0000_0000_0000;
    }
  }
}
