/** Duty-cycled GNSS acquisition: the ACTIVE / HOLD / SLEEP machine, its pins and its timers. */
module GnssDuty {

  const U32 := 0x1_0000_0000
  const HOLD_MS := 10000                // GNSS_FIX_HOLD_MS
  const SEARCH_MS := 90000              // GNSS_SEARCH_TIMEOUT_MS
  const BACKOFF_MS := 45000             // GNSS_SEARCH_TIMEOUT_BACKOFF_MS
  const INITIAL_MS := 180000            // GNSS_INITIAL_FIX_TIMEOUT_MS
  const RETRY_MS := 300000              // GNSS_FAILED_SEARCH_RETRY_MS
  const CUTOVER_S := 900                // GNSS_SOFTSLEEP_HARDSLEEP_CUTOVER_S

  type u32 = v: int | 0 <= v < U32
  type u8 = v: int | 0 <= v < 256

  datatype Phase = ACTIVE | HOLD | SLEEP

  /** Which gating pins the board has. */
  datatype Board = Board(hasEn: bool, hasStandby: bool)

  predicate Capable(b: Board) { b.hasEn || b.hasStandby }

  /** The module's variables; en and standby are the levels of the two pins (true is HIGH). */
  datatype Duty = Duty(enabled: bool, en: bool, standby: bool, interval: u32, phase: Phase, entered: u32, wakeAt: u32,
                       predicted: u32, lockCount: u8, failures: u8)

  /** The receiver is powered down or asleep. EN is active low; STANDBY low allows sleep. */
  predicate GatedOff(b: Board, s: Duty) { (b.hasEn && s.en) || (b.hasStandby && !s.standby) }

  /** Difference of two millis() readings. */
  function Since(now: u32, start: u32): u32 { (now - start) % U32 }

  /** The wake test: (long)(now - wakeAt) >= 0. */
  predicate Due(now: u32, wakeAt: u32) { Since(now, wakeAt) < 0x8000_0000 }

  // ---- The transitions, as functions ---------------------------------------------------------------

  function WakePins(b: Board, s: Duty): Duty {
    s.(en := if b.hasEn then false else s.en, standby := if b.hasStandby then true else s.standby)
  }

  predicate HardSleep(b: Board, s: Duty) {
    if b.hasEn && b.hasStandby then s.interval >= CUTOVER_S else b.hasEn
  }

  function SleepPins(b: Board, s: Duty): Duty {
    s.(en := if b.hasEn && HardSleep(b, s) then true else s.en,
       standby := if b.hasStandby && !HardSleep(b, s) then false else s.standby)
  }

  function IntervalMs(s: Duty): u32 { s.interval * 1000 % U32 }

  function SleepMs(s: Duty, failed: bool): u32 {
    if failed then (if IntervalMs(s) < RETRY_MS then IntervalMs(s) else RETRY_MS)
    else if IntervalMs(s) > s.predicted then IntervalMs(s) - s.predicted else 0
  }

  function ScheduleSleep(b: Board, s: Duty, now: u32, failed: bool): Duty {
    SleepPins(b, s).(phase := SLEEP, entered := now, wakeAt := (now + SleepMs(s, failed)) % U32)
  }

  /** The moving average over reals, truncated to an integer. */
  function Smooth(predicted: u32, lock: u32): u32 {
    var v := (0.8 * predicted as real + 0.2 * lock as real).Floor;
    SmoothBounds(predicted, lock);
    v
  }

  lemma SmoothBounds(p: u32, l: u32)
    ensures var v := (0.8 * p as real + 0.2 * l as real).Floor;
            (if p < l then p else l) <= v <= (if p < l then l else p)
  {}

  function Locked(s: Duty, now: u32): Duty {
    var lock := Since(now, s.entered);
    var count := (s.lockCount + 1) % 256;
    s.(lockCount := count, failures := 0, phase := HOLD, entered := now,
       predicted := if count < 2 then s.predicted else if s.predicted == 0 then lock else Smooth(s.predicted, lock))
  }

  function SearchTimeout(s: Duty): u32 {
    if s.lockCount == 0 then INITIAL_MS else if s.failures > 0 then BACKOFF_MS else SEARCH_MS
  }

  function CycleUpdate(b: Board, s: Duty, now: u32, fix: bool): Duty {
    if s.interval == 0 || !Capable(b) then (if s.phase != ACTIVE then WakePins(b, s) else s).(phase := ACTIVE)
    else match s.phase
      case ACTIVE =>
        if fix then Locked(s, now)
        else if Since(now, s.entered) >= SearchTimeout(s)
          then ScheduleSleep(b, s.(failures := (s.failures + 1) % 256), now, true)
        else s
      case HOLD => if Since(now, s.entered) >= HOLD_MS then ScheduleSleep(b, s, now, false) else s
      case SLEEP => if Due(now, s.wakeAt) then WakePins(b, s).(phase := ACTIVE, entered := now) else s
  }

  function SetEnabled(b: Board, s: Duty, on: bool, now: u32): Duty {
    var t := s.(enabled := on, en := if b.hasEn then !on else s.en, standby := if b.hasStandby then on else s.standby);
    if on then t.(phase := ACTIVE, entered := now, predicted := 0, lockCount := 0, failures := 0) else t
  }

  // ---- The program ------------------------------------------------------------------------------------

  class Gnss {
    const board: Board
    var enabled: bool
    var en: bool
    var standby: bool
    var interval: u32
    var phase: Phase
    var entered: u32
    var wakeAt: u32
    var predicted: u32
    var lockCount: u8
    var failures: u8

    function View(): Duty
      reads this
    {
      Duty(enabled, en, standby, interval, phase, entered, wakeAt, predicted, lockCount, failures)
    }

    /** gnss_duty_pins_wake. */
    method PinsWake()
      modifies this`en, this`standby
      ensures !GatedOff(board, View())
      ensures (board.hasEn ==> !en) && (board.hasStandby ==> standby)
      ensures View() == WakePins(board, old(View()))
    {
      if board.hasEn { en := false; }
      if board.hasStandby { standby := true; }
    }

    /** gnss_duty_pins_sleep. */
    method PinsSleep()
      modifies this`en, this`standby
      ensures Capable(board) ==> GatedOff(board, View())
      ensures board.hasEn && (!board.hasStandby || interval >= 900) ==> en && standby == old(standby)
      ensures board.hasStandby && (!board.hasEn || interval < 900) ==> !standby && en == old(en)
      ensures View() == SleepPins(board, old(View()))
    {
      var hard := HardSleep(board, View());
      if board.hasEn && hard { en := true; }
      if board.hasStandby && !hard { standby := false; }
    }

    /** gnss_set_enabled, with gnss_duty_reset. A capable board is gated off exactly while GNSS is off,
        and the first search after switching on gets the long timeout. */
    method Enable(on: bool, now: u32)
      modifies this
      ensures Capable(board) ==> (GatedOff(board, View()) <==> !on)
      ensures on ==> SearchTimeout(View()) == 180000 && phase == ACTIVE && entered == now
      ensures View() == SetEnabled(board, old(View()), on, now)
    {
      enabled := on;
      if board.hasEn { en := !on; }
      if board.hasStandby { standby := on; }
      if on {
        phase := ACTIVE;
        entered := now;
        predicted := 0;
        lockCount := 0;
        failures := 0;
      }
    }

    /** gnss_duty_schedule_sleep. */
    method Schedule(now: u32, failed: bool)
      modifies this
      ensures View() == ScheduleSleep(board, old(View()), now, failed)
    {
      PinsSleep();
      phase := SLEEP;
      entered := now;
      var intervalMs := interval * 1000 % U32;
      var sleepMs := 0;
      if failed {
        sleepMs := if intervalMs < RETRY_MS then intervalMs else RETRY_MS;
      } else if intervalMs > predicted {
        sleepMs := intervalMs - predicted;
      }
      wakeAt := (now + sleepMs) % U32;
    }

    /** gnss_duty_cycle_update; fix is gnss_has_fix(). */
    method Update(now: u32, fix: bool)
      modifies this
      ensures View() == CycleUpdate(board, old(View()), now, fix)
    {
      hide Smooth, WakePins, SleepPins, Since, IntervalMs, SleepMs;
      if interval == 0 || !Capable(board) {
        if phase != ACTIVE { PinsWake(); }
        phase := ACTIVE;
        return;
      }
      if phase == ACTIVE {
        if fix {
          var lockMs := Since(now, entered);
          lockCount := (lockCount + 1) % 256;
          if lockCount >= 2 { predicted := if predicted == 0 then lockMs else Smooth(predicted, lockMs); }
          failures := 0;
          phase := HOLD;
          entered := now;
        } else {
          var timeout := SearchTimeout(View());
          if Since(now, entered) >= timeout {
            failures := (failures + 1) % 256;
            Schedule(now, true);
          }
        }
      } else if phase == HOLD {
        if Since(now, entered) >= HOLD_MS { Schedule(now, false); }
      } else if Due(now, wakeAt) {
        PinsWake();
        phase := ACTIVE;
        entered := now;
      }
    }
  }

  // ---- Runs, against an unbounded clock --------------------------------------------------------------

  datatype Event =
    | Switch(on: bool)         // gnss_set_enabled
    | SetInterval(s: u32)      // the settings menu
    | Poll(fix: bool)          // gnss_update, which runs the cycle only while enabled

  /** The module with its past: lock times since the last reset, searches given up since the last fix or
      reset, and true times of the last phase change and of the next scheduled wake. */
  datatype Track = Track(d: Duty, locks: seq<u32>, fails: nat, enteredT: nat, dueT: nat)

  function Millis(t: nat): u32 { t % U32 }

  predicate Cycling(b: Board, d: Duty) { d.enabled && d.interval != 0 && Capable(b) }

  function Next(b: Board, r: Track, e: Event, t: nat): Track {
    match e
    case Switch(on) =>
      var d := SetEnabled(b, r.d, on, Millis(t));
      if on then Track(d, [], 0, t, r.dueT) else r.(d := d)
    case SetInterval(v) => r.(d := r.d.(interval := v))
    case Poll(fix) =>
      if !r.d.enabled then r
      else
        var d := CycleUpdate(b, r.d, Millis(t), fix);
        var moved := Cycling(b, r.d) && d.phase != r.d.phase;
        Track(d,
              if moved && d.phase == HOLD then r.locks + [Since(Millis(t), r.d.entered)] else r.locks,
              if moved && d.phase == HOLD then 0
              else if moved && d.phase == SLEEP && r.d.phase == ACTIVE then r.fails + 1 else r.fails,
              if moved then t else r.enteredT,
              if moved && d.phase == SLEEP then t + SleepMs(r.d, r.d.phase == ACTIVE) else r.dueT)
  }

  /** The receiver is gated off exactly in SLEEP. */
  predicate GatingRight(b: Board, d: Duty) { d.enabled ==> (GatedOff(b, d) <==> d.phase == SLEEP) }

  /** The predictor is unset or lies between the least and the greatest lock time since reset. */
  predicate PredictorRight(r: Track) {
    r.d.predicted == 0
    || exists i, j :: 0 <= i < |r.locks| && 0 <= j < |r.locks| && r.locks[i] <= r.d.predicted <= r.locks[j]
  }

  predicate Inv(b: Board, r: Track) {
    && GatingRight(b, r.d)
    && PredictorRight(r)
    && r.d.lockCount == |r.locks| % 256
    && (r.d.enabled && r.d.phase != ACTIVE ==> Capable(b))
    && (r.d.enabled ==> r.d.entered == Millis(r.enteredT) && r.d.failures == r.fails % 256)
    && (r.d.enabled && r.d.phase == SLEEP ==> r.d.wakeAt == Millis(r.dueT))
  }

  lemma MorePredictions(r: Track, d: Duty, lock: u32)
    requires PredictorRight(r)
    requires d.predicted == r.d.predicted || d.predicted == lock
      || (r.d.predicted != 0 && d.predicted == Smooth(r.d.predicted, lock))
    ensures PredictorRight(r.(d := d, locks := r.locks + [lock]))
  {
    hide Smooth;
    var locks := r.locks + [lock];
    assert locks[|r.locks|] == lock;
    if r.d.predicted != 0 {
      var i, j :| 0 <= i < |r.locks| && 0 <= j < |r.locks| && r.locks[i] <= r.d.predicted <= r.locks[j];
      assert locks[i] == r.locks[i] && locks[j] == r.locks[j];
      SmoothBetween(r.d.predicted, lock);
      if d.predicted == lock {
        assert locks[|r.locks|] <= d.predicted <= locks[|r.locks|];
      } else if r.d.predicted < lock {
        assert locks[i] <= d.predicted <= locks[|r.locks|];
      } else {
        assert d.predicted == r.d.predicted || locks[|r.locks|] <= d.predicted <= locks[j];
      }
    }
  }

  lemma SmoothBetween(p: u32, l: u32)
    ensures (if p < l then p else l) <= Smooth(p, l) <= (if p < l then l else p)
  {
    SmoothBounds(p, l);
  }

  lemma CountNext(n: nat)
    ensures (n % 256 + 1) % 256 == (n + 1) % 256
  {}

  lemma PollGating(b: Board, r: Track, t: nat, fix: bool)
    requires Inv(b, r)
    ensures var q := Next(b, r, Poll(fix), t).d;
            GatingRight(b, q) && (q.enabled && q.phase != ACTIVE ==> Capable(b))
  {
    hide Since, Smooth, SleepMs, Millis, Due, SearchTimeout, PredictorRight;
  }

  lemma PollPredictor(b: Board, r: Track, t: nat, fix: bool)
    requires Inv(b, r)
    ensures var q := Next(b, r, Poll(fix), t);
            PredictorRight(q) && q.d.lockCount == |q.locks| % 256
  {
    hide Since, Smooth, SleepMs, Millis, Due, SearchTimeout, GatedOff, HardSleep;
    var d := r.d;
    if d.enabled && Cycling(b, d) && d.phase == ACTIVE && fix {
      MorePredictions(r, Locked(d, Millis(t)), Since(Millis(t), d.entered));
      CountNext(|r.locks|);
    }
  }

  lemma DueAt(t: nat, sleep: u32)
    ensures (Millis(t) + sleep) % U32 == Millis(t + sleep)
  {}

  lemma PollTimers(b: Board, r: Track, t: nat, fix: bool)
    requires Inv(b, r)
    ensures var q := Next(b, r, Poll(fix), t);
            && (q.d.enabled ==> q.d.entered == Millis(q.enteredT) && q.d.failures == q.fails % 256)
            && (q.d.enabled && q.d.phase == SLEEP ==> q.d.wakeAt == Millis(q.dueT))
  {
    hide Since, Smooth, SleepMs, Millis, Due, SearchTimeout, GatedOff, PredictorRight;
    var d := r.d;
    var failed := d.phase == ACTIVE;
    DueAt(t, SleepMs(d, failed));
    SleepMsIgnores(d, failed);
    CountNext(r.fails);
  }

  lemma SleepMsIgnores(d: Duty, failed: bool)
    ensures SleepMs(d.(failures := (d.failures + 1) % 256), failed) == SleepMs(d, failed)
  {}

  lemma InvStep(b: Board, r: Track, e: Event, t: nat)
    requires Inv(b, r)
    ensures Inv(b, Next(b, r, e, t))
  {
    match e
    case Poll(fix) =>
      hide Next, PredictorRight, GatedOff;
      PollGating(b, r, t, fix);
      PollPredictor(b, r, t, fix);
      PollTimers(b, r, t, fix);
    case Switch(on) =>
    case SetInterval(v) =>
  }

  /** A history of events at non-decreasing true times, from any state in which GNSS is off. */
  predicate Run(b: Board, tracks: seq<Track>, events: seq<Event>, times: seq<nat>) {
    && |tracks| == |events| + 1 && |times| == |events|
    && !tracks[0].d.enabled && tracks[0].d.predicted == 0 && tracks[0].d.lockCount == 0 && tracks[0].locks == []
    && (forall i, j :: 0 <= i < j < |times| ==> times[i] <= times[j])
    && forall k :: 0 <= k < |events| ==> tracks[k + 1] == Next(b, tracks[k], events[k], times[k])
  }

  /** For any fixes, interval changes and switching on and off: while enabled the receiver is gated
      off exactly in SLEEP, and the predictor stays between the lock times seen. */
  lemma {:induction false} InvAlways(b: Board, tracks: seq<Track>, events: seq<Event>, times: seq<nat>, k: nat)
    requires Run(b, tracks, events, times) && k < |tracks|
    ensures Inv(b, tracks[k])
  {
    hide Next, GatedOff;
    if k > 0 {
      InvAlways(b, tracks, events, times, k - 1);
      InvStep(b, tracks[k - 1], events[k - 1], times[k - 1]);
    }
  }

  // ---- Timers across the wrap-around of millis() ---------------------------------------------------------

  /** No sleep is scheduled for longer than the interval, nor, after a failed search, for longer
      than five minutes; after a lock it is shortened by the predicted lock time. */
  lemma SleepBound(d: Duty, failed: bool)
    ensures SleepMs(d, failed) <= d.interval * 1000
    ensures failed ==> SleepMs(d, failed) <= 300000
    ensures !failed && d.predicted <= d.interval * 1000 < U32 ==> SleepMs(d, failed) + d.predicted == d.interval * 1000
  {}

  lemma SinceIs(t: nat, t0: nat)
    requires t0 <= t
    ensures Since(Millis(t), Millis(t0)) == (t - t0) % U32
  {}

  /** The signed wake test tells before from after for polls within 2^31 ms of the due time. */
  lemma DueIs(t: nat, due: nat)
    requires -0x8000_0000 <= t - due < 0x8000_0000
    ensures Due(Millis(t), Millis(due)) <==> t >= due
  {
    assert (Millis(t) - Millis(due)) % U32 == (t - due) % U32;
  }

  /** A sleeping receiver is woken by a poll exactly when its due time has come. */
  lemma WakesWhenDue(b: Board, r: Track, t: nat, fix: bool)
    requires Inv(b, r) && Cycling(b, r.d) && r.d.phase == SLEEP
    requires -0x8000_0000 <= t - r.dueT < 0x8000_0000
    ensures var q := Next(b, r, Poll(fix), t).d;
            if t >= r.dueT then q.phase == ACTIVE && !GatedOff(b, q) else q == r.d
  {
    hide Millis, Since;
    DueIs(t, r.dueT);
  }

  /** After a fix the receiver stays awake at least ten seconds, and is put to sleep by the first
      poll after that (if one comes before millis() wraps). */
  lemma HoldsTenSeconds(b: Board, r: Track, t: nat, fix: bool)
    requires Inv(b, r) && Cycling(b, r.d) && r.d.phase == HOLD && r.enteredT <= t
    ensures var q := Next(b, r, Poll(fix), t).d;
            && (q.phase != HOLD ==> q.phase == SLEEP && t - r.enteredT >= 10000)
            && (10000 <= t - r.enteredT < U32 ==> q.phase == SLEEP)
  {
    hide Millis, Since, SleepMs, GatedOff, PredictorRight;
    SinceIs(t, r.enteredT);
    ModBelow(t - r.enteredT);
  }

  /** A search without a fix is given up by the first poll after its time and not before: three minutes
      while the number of fixes since reset is a multiple of 256, otherwise 45 seconds after a search
      given up and 90 seconds after a fix. */
  lemma SearchGivenUp(b: Board, r: Track, t: nat)
    requires Inv(b, r) && Cycling(b, r.d) && r.d.phase == ACTIVE && r.enteredT <= t
    ensures var q := Next(b, r, Poll(false), t);
            var limit := if |r.locks| % 256 == 0 then 180000 else if r.fails % 256 == 0 then 90000 else 45000;
            && (q.d.phase == SLEEP <==> (t - r.enteredT) % U32 >= limit)
            && (q.d.phase != SLEEP ==> q.d == r.d)
            && (q.d.phase == SLEEP ==> t - r.enteredT >= limit && GatedOff(b, q.d))
  {
    hide Millis, Since, SleepMs, GatedOff, PredictorRight, HardSleep;
    SinceIs(t, r.enteredT);
    ModBelow(t - r.enteredT);
    InvStep(b, r, Poll(false), t);
  }

  /** The sleep after a search given up ends when the interval has passed, but within five minutes. */
  lemma SleepAfterSearch(b: Board, r: Track, t: nat)
    requires Inv(b, r) && Cycling(b, r.d) && r.d.phase == ACTIVE
    ensures var q := Next(b, r, Poll(false), t); var ms := r.d.interval * 1000 % U32;
            q.d.phase == SLEEP ==> q.dueT == t + (if ms < 300000 then ms else 300000) && q.fails == r.fails + 1
  {
    hide Millis, Since, GatedOff, PredictorRight, SleepPins;
  }

  /** The sleep after a hold ends early by the predicted time to lock. */
  lemma SleepAfterHold(b: Board, r: Track, t: nat, fix: bool)
    requires Inv(b, r) && Cycling(b, r.d) && r.d.phase == HOLD
    ensures var q := Next(b, r, Poll(fix), t); var ms := r.d.interval * 1000 % U32;
            q.d.phase == SLEEP ==> q.dueT == t + (if ms > r.d.predicted then ms - r.d.predicted else 0)
  {
    hide Millis, Since, GatedOff, PredictorRight, SleepPins;
  }

  /** A fix during a search is held, counted, and timed: the first since reset is not used for the
      prediction, the second is the prediction, and each later one moves it a fifth of the way. */
  lemma FixLocks(b: Board, r: Track, t: nat)
    requires Inv(b, r) && Cycling(b, r.d) && r.d.phase == ACTIVE && r.enteredT <= t
    ensures var q := Next(b, r, Poll(true), t); var lock := (t - r.enteredT) % U32;
            && q.d.phase == HOLD && q.enteredT == t && q.locks == r.locks + [lock] && q.fails == 0
            && q.d.predicted == (if (|r.locks| + 1) % 256 < 2 then r.d.predicted
                                 else if r.d.predicted == 0 then lock else (4 * r.d.predicted + lock) / 5)
            && q.d.en == r.d.en && q.d.standby == r.d.standby
  {
    hide Millis, Since, GatedOff, PredictorRight, Smooth;
    SinceIs(t, r.enteredT);
    CountNext(|r.locks|);
    SmoothIs(r.d.predicted, Since(Millis(t), r.d.entered));
  }

  /** Four fifths of the old value and one fifth of the new, rounded down. */
  lemma SmoothIs(p: u32, l: u32)
    ensures Smooth(p, l) == (4 * p + l) / 5
  {
    var v := 0.8 * p as real + 0.2 * l as real;
    var n := 4 * p + l;
    assert v == n as real / 5.0;
    assert n == n / 5 * 5 + n % 5;
    assert (n / 5) as real <= v < (n / 5) as real + 1.0;
  }

  /** Without an interval or a gating pin the receiver is kept on. */
  lemma KeptOn(b: Board, r: Track, t: nat, fix: bool)
    requires Inv(b, r) && r.d.enabled && !Cycling(b, r.d)
    ensures var q := Next(b, r, Poll(fix), t).d;
            q.phase == ACTIVE && !GatedOff(b, q) && q.entered == r.d.entered
  {
    hide PredictorRight, Millis;
  }

  lemma ModBelow(n: nat)
    ensures n % U32 <= n && (n < U32 ==> n % U32 == n)
  {}

  /** The long first-fix timeout applies when the number of fixes since reset is a multiple of 256:
      before the first one, and again each time the 8-bit counter wraps. */
  lemma InitialTimeoutExactly(b: Board, r: Track)
    requires Inv(b, r)
    ensures SearchTimeout(r.d) == 180000 <==> |r.locks| % 256 == 0
  {}

  /** A run of any number of fixes on a capable board: search, lock, hold, sleep, wake, again. */
  lemma {:induction false} ManyFixes(b: Board, n: nat)
    returns (tracks: seq<Track>, events: seq<Event>, times: seq<nat>, now: nat)
    requires Capable(b)
    ensures Run(b, tracks, events, times) && Before(times, now)
    ensures Searching(b, tracks[|events|], n)
  {
    if n == 0 {
      var d := Duty(false, false, true, 60, ACTIVE, 0, 0, 0, 0, 0);
      var r := Track(d, [], 0, 0, 0);
      tracks, events, times, now := [r, Next(b, r, Switch(true), 0)], [Switch(true)], [0], 0;
    } else {
      hide Next, Searching;
      tracks, events, times, now := ManyFixes(b, n - 1);
      InvAlways(b, tracks, events, times, |events|);
      var r0 := tracks[|events|];
      var r1, r2, r3 := Cycle(b, r0, now, n - 1);
      tracks, events, times := Extend(b, tracks, events, times, r1, Poll(true), now);
      tracks, events, times := Extend(b, tracks, events, times, r2, Poll(true), now + HOLD_MS);
      now := r2.dueT;
      tracks, events, times := Extend(b, tracks, events, times, r3, Poll(true), now);
    }
  }

  ghost predicate Before(times: seq<nat>, now: nat) { forall i :: 0 <= i < |times| ==> times[i] <= now }

  /** Searching after n fixes. */
  predicate Searching(b: Board, r: Track, n: nat) { Cycling(b, r.d) && r.d.phase == ACTIVE && |r.locks| == n }

  lemma Extend(b: Board, tracks: seq<Track>, events: seq<Event>, times: seq<nat>, r: Track, e: Event, t: nat)
    returns (tracks': seq<Track>, events': seq<Event>, times': seq<nat>)
    requires Run(b, tracks, events, times) && Before(times, t) && r == Next(b, tracks[|events|], e, t)
    ensures Run(b, tracks', events', times') && Before(times', t)
    ensures |events'| == |events| + 1 && tracks'[|events'|] == r
  {
    hide Next;
    tracks', events', times' := tracks + [r], events + [e], times + [t];
  }

  /** One fix: a lock, a hold of ten seconds, a sleep and a wake at the due time. */
  lemma Cycle(b: Board, r0: Track, now: nat, n: nat) returns (r1: Track, r2: Track, r3: Track)
    requires Inv(b, r0) && Searching(b, r0, n)
    ensures r1 == Next(b, r0, Poll(true), now)
    ensures r2 == Next(b, r1, Poll(true), now + HOLD_MS) && r2.dueT >= now + HOLD_MS
    ensures r3 == Next(b, r2, Poll(true), r2.dueT) && Searching(b, r3, n + 1)
  {
    hide Inv, Smooth, Since, Millis, SleepMs, GatedOff;
    r1 := Next(b, r0, Poll(true), now);
    InvStep(b, r0, Poll(true), now);
    HoldsTenSeconds(b, r1, now + HOLD_MS, true);
    r2 := Next(b, r1, Poll(true), now + HOLD_MS);
    InvStep(b, r1, Poll(true), now + HOLD_MS);
    WakesWhenDue(b, r2, r2.dueT, true);
    r3 := Next(b, r2, Poll(true), r2.dueT);
  }

  /** The long timeout does come back: after 256 fixes, with GNSS on all the while. */
  lemma LongTimeoutReturns(b: Board) returns (tracks: seq<Track>, events: seq<Event>, times: seq<nat>)
    requires Capable(b)
    ensures Run(b, tracks, events, times)
    ensures var r := tracks[|events|];
            Searching(b, r, 256) && SearchTimeout(r.d) == 180000
  {
    var now: nat;
    tracks, events, times, now := ManyFixes(b, 256);
    InvAlways(b, tracks, events, times, |events|);
    InitialTimeoutExactly(b, tracks[|events|]);
  }
}
