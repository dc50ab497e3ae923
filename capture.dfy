/**
 * The capture supervisor's retry and failover loop.
 *
 * A capture starts on the first channel of the record's sorted channel list
 * and is expected to run for the record's duration. Every time the external
 * capture process ends before the target end, the supervisor counts an error
 * for the channel, starts a new segment file and, when the channel lived
 * less than fifteen minutes and no best channel is locked yet, gives the
 * channel a quality ratio (whole minutes lived divided by its failure count)
 * and moves on to the next channel. Once every channel has been tried it
 * locks, for the rest of the session, the last channel holding the highest
 * non-negative ratio.
 *
 * The external process is not modelled: `endTimes[k]` is the instant at
 * which the k-th capture process ended (the clock reading the supervisor
 * makes after it), so `endTimes[0]` ends the first run and `endTimes[k]`
 * ends the k-th retry. Instants are seconds.
 *
 * When every ratio is negative the scan finds no channel and the index
 * stays one past the list; the log line at Recorder.cs:282 then reads the
 * channel array at that index and throws, so GetNextChannel never returns.
 * The model's NextChannel returns that out-of-range index as a stand-in for
 * the exception, and the retry loop turns it into a session that ends
 * `crashed`, with the ratio and the error count already written and the
 * lock untouched, as they are when the source throws. Ratios only turn
 * negative when the clock runs backwards between two readings.
 */
module Capture {
  import opened Wrappers
  import opened Text
  import opened Records

  const FifteenMinutes: int := 15 * SecondsPerMinute

  /** TimeSpan.Minutes of a span of `span` seconds: the whole-minutes
      component, between -59 and 59 and carrying the span's sign. */
  function MinutesComponent(span: int): (m: int)
    ensures -60 < m < 60
    ensures span >= 0 ==> m >= 0
    ensures span <= 0 ==> m <= 0
    ensures 0 <= span < 60 * SecondsPerMinute ==> m * SecondsPerMinute <= span < (m + 1) * SecondsPerMinute
    ensures -60 * SecondsPerMinute < span < 0 ==> (m - 1) * SecondsPerMinute < span <= m * SecondsPerMinute
  {
    TruncRem(TruncDiv(span, SecondsPerMinute), 60)
  }

  /** `(int)timeLeft.TotalMinutes + 1`: the timer, in minutes, given to a
      retry that has `timeLeft` seconds to go. */
  function RetryTimeout(timeLeft: int): int
  {
    TruncDiv(timeLeft, SecondsPerMinute) + 1
  }

  /** The retry timer always outlasts the time left, by less than a minute
      more than needed. */
  lemma RetryTimeoutCoversTimeLeft(timeLeft: int)
    requires timeLeft > 0
    ensures RetryTimeout(timeLeft) * SecondsPerMinute > timeLeft
    ensures (RetryTimeout(timeLeft) - 1) * SecondsPerMinute <= timeLeft
  {
  }

  // ---------------------------------------------------------------- channel history

  /** What the channel history keeps per channel number. The hours recorded
      are a floating-point total and are not modelled. */
  datatype ChannelStats = ChannelStats(
    recordingsAttempted: nat,
    errors: nat,
    lastAttempt: Option<Time>,
    lastSuccess: Option<Time>)

  type History = map<string, ChannelStats>

  /** The entry of a channel; a channel seen for the first time starts empty. */
  function StatsOf(h: History, number: string): ChannelStats
  {
    if number in h then h[number] else ChannelStats(0, 0, None, None)
  }

  /** A process started on the channel at `now`. */
  function NoteAttempt(h: History, number: string, now: Time): History
  {
    var e := StatsOf(h, number);
    h[number := e.(recordingsAttempted := e.recordingsAttempted + 1, lastAttempt := Some(now))]
  }

  /** A process on the channel ended before the target end. */
  function NoteError(h: History, number: string): History
  {
    var e := StatsOf(h, number);
    h[number := e.(errors := e.errors + 1)]
  }

  /** The capture finished on the channel at `now`. */
  function NoteSuccess(h: History, number: string, now: Time): History
  {
    var e := StatsOf(h, number);
    h[number := e.(lastSuccess := Some(now))]
  }

  /** Each history update changes its own channel's entry as the source
      does: one more attempt and the attempt time, one more error, or the
      success time. */
  lemma NotesUpdateTheirChannel(h: History, number: string, now: Time)
    ensures var r := NoteAttempt(h, number, now);
            && StatsOf(r, number).recordingsAttempted == StatsOf(h, number).recordingsAttempted + 1
            && StatsOf(r, number).errors == StatsOf(h, number).errors
            && StatsOf(r, number).lastAttempt == Some(now)
            && StatsOf(r, number).lastSuccess == StatsOf(h, number).lastSuccess
    ensures var r := NoteError(h, number);
            && StatsOf(r, number).errors == StatsOf(h, number).errors + 1
            && StatsOf(r, number).recordingsAttempted == StatsOf(h, number).recordingsAttempted
            && StatsOf(r, number).lastAttempt == StatsOf(h, number).lastAttempt
            && StatsOf(r, number).lastSuccess == StatsOf(h, number).lastSuccess
    ensures StatsOf(NoteSuccess(h, number, now), number) == StatsOf(h, number).(lastSuccess := Some(now))
  {
  }

  /** Each history update touches its own channel's entry only. */
  lemma NotesTouchOnlyTheirChannel(h: History, number: string, other: string, now: Time)
    requires other != number
    ensures StatsOf(NoteAttempt(h, number, now), other) == StatsOf(h, other)
    ensures StatsOf(NoteError(h, number), other) == StatsOf(h, other)
    ensures StatsOf(NoteSuccess(h, number, now), other) == StatsOf(h, other)
  {
  }

  // ---------------------------------------------------------------- choosing the next channel

  /** The best-channel scan after `n` channels: the highest ratio seen so
      far (starting from 0), the index chosen and the lock flag. A channel
      whose ratio is at least the best so far replaces it, so among equal
      ratios the last one wins. */
  datatype ScanState = ScanState(ratio: int, idx: int, flag: bool)

  function Scan(ratios: seq<int>, n: nat, idx: int, flag: bool): ScanState
    requires n <= |ratios|
  {
    if n == 0 then ScanState(0, idx, flag)
    else
      var s := Scan(ratios, n - 1, idx, flag);
      if ratios[n - 1] >= s.ratio then ScanState(ratios[n - 1], n - 1, true) else s
  }

  /** The channel after `channelIdx`: the next one in the list while there
      is one, otherwise the scan's choice, starting from one past the end.
      An index still one past the end stands for the exception the source's
      log line throws on it. */
  function NextChannel(ratios: seq<int>, channelIdx: int, flag: bool): (int, bool)
  {
    var next := channelIdx + 1;
    if next < |ratios| then (next, flag)
    else
      var s := Scan(ratios, |ratios|, next, flag);
      (s.idx, s.flag)
  }

  /** What the scan over a prefix finds: nothing when every ratio in it is
      negative, and otherwise the last position of the largest ratio. */
  lemma {:induction false} ScanFindsLastBest(ratios: seq<int>, n: nat, idx: int, flag: bool)
    requires n <= |ratios|
    ensures var s := Scan(ratios, n, idx, flag);
            && ((forall i :: 0 <= i < n ==> ratios[i] < 0) ==> s == ScanState(0, idx, flag))
            && ((exists i :: 0 <= i < n && ratios[i] >= 0) ==>
                  && s.flag && 0 <= s.idx < n && s.ratio == ratios[s.idx] >= 0
                  && (forall i :: 0 <= i < n ==> ratios[i] <= s.ratio)
                  && (forall i :: s.idx < i < n ==> ratios[i] < s.ratio))
  {
    if n > 0 {
      ScanFindsLastBest(ratios, n - 1, idx, flag);
    }
  }

  /** GetNextChannel's rule: step to the next channel without touching the
      lock while one is left; then lock the last channel of highest
      non-negative ratio; with every ratio negative, the index one past the
      end (where the source throws) and the lock left alone. */
  lemma NextChannelChoice(ratios: seq<int>, channelIdx: int, flag: bool)
    requires 0 <= channelIdx < |ratios|
    ensures var (next, lock) := NextChannel(ratios, channelIdx, flag);
            && (channelIdx + 1 < |ratios| ==> next == channelIdx + 1 && lock == flag)
            && (channelIdx + 1 == |ratios| && (exists i :: 0 <= i < |ratios| && ratios[i] >= 0) ==>
                  && lock && 0 <= next < |ratios| && ratios[next] >= 0
                  && (forall i :: 0 <= i < |ratios| ==> ratios[i] <= ratios[next])
                  && (forall i :: next < i < |ratios| ==> ratios[i] < ratios[next]))
            && (channelIdx + 1 == |ratios| && (forall i :: 0 <= i < |ratios| ==> ratios[i] < 0) ==>
                  next == |ratios| && lock == flag)
  {
    ScanFindsLastBest(ratios, |ratios|, channelIdx + 1, flag);
  }

  /** The source's GetNextChannel over the channels' ratios; the returned
      flag is the record's bestChannelSetFlag afterwards. An index one past
      the array stands for the exception the source throws when it logs the
      chosen channel. */
  method GetNextChannel(ratios: array<int>, channelIdx: int, bestChannelSetFlag: bool)
    returns (nextIdx: int, flag: bool)
    ensures (nextIdx, flag) == NextChannel(ratios[..], channelIdx, bestChannelSetFlag)
  {
    nextIdx := channelIdx + 1;
    flag := bestChannelSetFlag;
    if nextIdx < ratios.Length {
      return;
    }
    var ratio := 0;
    var b := 0;
    while b < ratios.Length
      invariant 0 <= b <= ratios.Length
      invariant ScanState(ratio, nextIdx, flag) == Scan(ratios[..], b, channelIdx + 1, bestChannelSetFlag)
    {
      if ratios[b] >= ratio {
        ratio := ratios[b];
        nextIdx := b;
        flag := true;
      }
      b := b + 1;
    }
  }

  // ---------------------------------------------------------------- the retry loop

  /** One capture process the supervisor started: on which channel, into
      which segment number, and with which kill timer in minutes. */
  datatype Attempt = Attempt(channel: string, fileNum: nat, timeoutMinutes: int)

  /** The supervisor's variables between two clock readings. */
  datatype Session = Session(
    channelIdx: int,
    fileNum: nat,
    failures: nat,
    lastStarted: Time,
    ratios: seq<int>,
    bestSet: bool,
    history: History,
    attempts: seq<Attempt>,
    crashed: bool)

  /** A running session: one ratio per channel and the current index inside
      the channel list. */
  predicate Running(s: Session, numbers: seq<string>)
  {
    !s.crashed && |s.ratios| == |numbers| && 0 <= s.channelIdx < |numbers|
  }

  /** Start the next capture process on the current channel at `now`. */
  function Restart(s: Session, numbers: seq<string>, now: Time, targetEnd: Time): Session
    requires 0 <= s.channelIdx < |numbers|
  {
    var channel := numbers[s.channelIdx];
    s.(lastStarted := now,
       history := NoteAttempt(s.history, channel, now),
       attempts := s.attempts + [Attempt(channel, s.fileNum, RetryTimeout(targetEnd - now))])
  }

  /** The failed process is charged to its channel: an error in the
      history, one more failure, one more segment number. */
  function Fail(s: Session, numbers: seq<string>): Session
    requires Running(s, numbers)
  {
    s.(history := NoteError(s.history, numbers[s.channelIdx]),
       failures := s.failures + 1,
       fileNum := s.fileNum + 1)
  }

  /** The channel lived under fifteen minutes and no best channel is locked. */
  predicate ShortLived(s: Session, now: Time)
  {
    now - s.lastStarted < FifteenMinutes && !s.bestSet
  }

  /** Rate the channel (whole minutes lived divided by its failure count)
      and pick the next one. */
  function Rate(s: Session, now: Time): Session
    requires 0 <= s.channelIdx < |s.ratios| && s.failures > 0
  {
    var ratios := s.ratios[s.channelIdx := TruncDiv(MinutesComponent(now - s.lastStarted), s.failures)];
    var (next, flag) := NextChannel(ratios, s.channelIdx, s.bestSet);
    s.(channelIdx := next, ratios := ratios, bestSet := flag)
  }

  /** One pass of the retry loop, with the capture process having ended at `now`. */
  function RetryStep(s: Session, numbers: seq<string>, now: Time, targetEnd: Time): Session
    requires Running(s, numbers)
  {
    var f := Fail(s, numbers);
    if ShortLived(f, now) then
      var m := Rate(f, now);
      if 0 <= m.channelIdx < |numbers| then Restart(m.(failures := 0), numbers, now, targetEnd)
      else m.(crashed := true)
    else
      Restart(f, numbers, now, targetEnd)
  }

  /** What a pass does to the loop's bookkeeping: one more segment number,
      and, unless the failover finds no channel, a running session that
      started one more process, into that segment, with the retry timer. */
  lemma RetryStepShape(s: Session, numbers: seq<string>, now: Time, targetEnd: Time)
    requires Running(s, numbers)
    ensures var t := RetryStep(s, numbers, now, targetEnd);
            && t.fileNum == s.fileNum + 1
            && (t.crashed ==> t.attempts == s.attempts)
            && (!t.crashed ==>
                  && Running(t, numbers) && t.lastStarted == now
                  && t.attempts == s.attempts + [Attempt(numbers[t.channelIdx], s.fileNum + 1, RetryTimeout(targetEnd - now))])
  {
  }

  /** The loop from retry number `k` on: it runs while the clock is before
      the target end and fewer than `numRetries` retries were made; at the
      end the current channel's last success is stamped. */
  function RetryLoop(s: Session, numbers: seq<string>, endTimes: seq<Time>, k: nat,
                     numRetries: int, targetEnd: Time): Session
    requires Running(s, numbers)
    requires k < |endTimes| && numRetries < |endTimes|
    decreases |endTimes| - k, 1
  {
    if endTimes[k] < targetEnd && k < numRetries then
      NextPass(s, numbers, endTimes, k, numRetries, targetEnd)
    else
      s.(history := NoteSuccess(s.history, numbers[s.channelIdx], endTimes[k]))
  }

  /** Pass `k` of the loop and the loop after it, unless the pass fails on
      the channel index. */
  function NextPass(s: Session, numbers: seq<string>, endTimes: seq<Time>, k: nat,
                    numRetries: int, targetEnd: Time): Session
    requires Running(s, numbers)
    requires k < numRetries < |endTimes|
    decreases |endTimes| - k, 0
  {
    var t := RetryStep(s, numbers, endTimes[k], targetEnd);
    if t.crashed then t else RetryLoop(t, numbers, endTimes, k + 1, numRetries, targetEnd)
  }

  /** The session before the first clock reading after the first run. */
  function FirstRun(numbers: seq<string>, ratios: seq<int>, bestSet: bool, history: History,
                    start: Time, duration: int): Session
    requires |numbers| >= 1
  {
    Session(0, 0, 0, start, ratios, bestSet, NoteAttempt(history, numbers[0], start),
            [Attempt(numbers[0], 0, duration)], false)
  }

  /** A whole capture session. `duration` is the record's length in minutes;
      an empty channel list fails on the first index. */
  function CaptureSession(numbers: seq<string>, ratios: seq<int>, bestSet: bool, history: History,
                          start: Time, duration: int, numRetries: int, endTimes: seq<Time>): Session
    requires |ratios| == |numbers|
    requires |endTimes| >= 1 && numRetries < |endTimes|
  {
    if numbers == [] then Session(0, 0, 0, start, ratios, bestSet, history, [], true)
    else RetryLoop(FirstRun(numbers, ratios, bestSet, history, start, duration),
                   numbers, endTimes, 0, numRetries, start + duration * SecondsPerMinute)
  }

  // ---------------------------------------------------------------- what one pass does

  /** A pass leaves its channel only when the channel lived less than
      fifteen minutes and no best channel is locked; the channel left gets
      its ratio and the failure count starts over. Otherwise the ratios and
      the channel stay, and the failure count grows. Either way one error is
      counted for the channel that failed and one more segment is opened. */
  lemma StepSwitchRule(s: Session, numbers: seq<string>, now: Time, targetEnd: Time)
    requires Running(s, numbers)
    ensures var r := RetryStep(s, numbers, now, targetEnd);
            var elapsed := now - s.lastStarted;
            && r.fileNum == s.fileNum + 1
            && StatsOf(r.history, numbers[s.channelIdx]).errors == StatsOf(s.history, numbers[s.channelIdx]).errors + 1
            && (elapsed < FifteenMinutes && !s.bestSet ==>
                  && r.ratios == s.ratios[s.channelIdx := TruncDiv(MinutesComponent(elapsed), s.failures + 1)]
                  && (!r.crashed ==> r.failures == 0))
            && (!(elapsed < FifteenMinutes && !s.bestSet) ==>
                  && !r.crashed && r.channelIdx == s.channelIdx && r.ratios == s.ratios
                  && r.bestSet == s.bestSet && r.failures == s.failures + 1)
  {
  }

  // ---------------------------------------------------------------- what the loop does

  /** The segment numbers the loop reaches from retry `k` on: it stops
      within the clock readings, a failure on the channel index comes after
      at least one pass, and it runs past `k` only within the retry limit. */
  lemma {:induction false} RetryLoopBounds(s: Session, numbers: seq<string>, endTimes: seq<Time>, k: nat,
                                           numRetries: int, targetEnd: Time)
    requires Running(s, numbers)
    requires k < |endTimes| && numRetries < |endTimes|
    requires s.fileNum == k
    decreases |endTimes| - k
    ensures var r := RetryLoop(s, numbers, endTimes, k, numRetries, targetEnd);
            && k <= r.fileNum < |endTimes|
            && (r.crashed ==> r.fileNum > k)
            && (r.fileNum == k || r.fileNum <= numRetries)
  {
    if endTimes[k] < targetEnd && k < numRetries {
      var t := RetryStep(s, numbers, endTimes[k], targetEnd);
      RetryStepShape(s, numbers, endTimes[k], targetEnd);
      if !t.crashed {
        RetryLoopBounds(t, numbers, endTimes, k + 1, numRetries, targetEnd);
      }
    }
  }

  /** Every pass the loop made was on a clock reading before the target end,
      and, unless it failed on the channel index, it stopped at a reading
      past the target end or at the retry limit. */
  lemma {:induction false} RetryLoopRuns(s: Session, numbers: seq<string>, endTimes: seq<Time>, k: nat,
                                         numRetries: int, targetEnd: Time)
    requires Running(s, numbers)
    requires k < |endTimes| && numRetries < |endTimes|
    requires s.fileNum == k
    decreases |endTimes| - k
    ensures var r := RetryLoop(s, numbers, endTimes, k, numRetries, targetEnd);
            && (forall j :: k <= j < r.fileNum && j < |endTimes| ==> endTimes[j] < targetEnd)
            && (!r.crashed && r.fileNum < |endTimes| ==> endTimes[r.fileNum] >= targetEnd || r.fileNum >= numRetries)
  {
    if endTimes[k] < targetEnd && k < numRetries {
      var t := RetryStep(s, numbers, endTimes[k], targetEnd);
      RetryStepShape(s, numbers, endTimes[k], targetEnd);
      LoopGoesOn(s, t, numbers, endTimes, k, numRetries, targetEnd);
      if !t.crashed {
        RetryLoopRuns(t, numbers, endTimes, k + 1, numRetries, targetEnd);
      }
    } else {
      LoopStops(s, numbers, endTimes, k, numRetries, targetEnd);
    }
  }

  /** The processes the loop starts from retry `k` on: one per pass that
      does not fail on the channel index, into segments numbered in order. */
  lemma {:induction false} RetryLoopAttempts(s: Session, numbers: seq<string>, endTimes: seq<Time>, k: nat,
                                             numRetries: int, targetEnd: Time)
    requires Running(s, numbers)
    requires k < |endTimes| && numRetries < |endTimes|
    requires s.fileNum == k && |s.attempts| == k + 1
    requires forall j :: 0 <= j < |s.attempts| ==> s.attempts[j].fileNum == j
    decreases |endTimes| - k
    ensures var r := RetryLoop(s, numbers, endTimes, k, numRetries, targetEnd);
            && |r.attempts| == r.fileNum + (if r.crashed then 0 else 1)
            && s.attempts <= r.attempts
            && (forall j :: 0 <= j < |r.attempts| ==> r.attempts[j].fileNum == j)
  {
    if endTimes[k] < targetEnd && k < numRetries {
      var t := RetryStep(s, numbers, endTimes[k], targetEnd);
      RetryStepShape(s, numbers, endTimes[k], targetEnd);
      if !t.crashed {
        RetryLoopAttempts(t, numbers, endTimes, k + 1, numRetries, targetEnd);
      }
    }
  }

  /** Each process the loop starts after retry `k` gets the timer for the
      time left at the clock reading that ended the process before it. */
  lemma {:induction false} RetryLoopTimers(s: Session, numbers: seq<string>, endTimes: seq<Time>, k: nat,
                                           numRetries: int, targetEnd: Time)
    requires Running(s, numbers)
    requires k < |endTimes| && numRetries < |endTimes|
    requires s.fileNum == k && |s.attempts| == k + 1
    requires forall j :: 0 <= j < |s.attempts| ==> s.attempts[j].fileNum == j
    decreases |endTimes| - k
    ensures var r := RetryLoop(s, numbers, endTimes, k, numRetries, targetEnd);
            forall j :: k < j < |r.attempts| && j <= |endTimes| ==>
              r.attempts[j].timeoutMinutes == RetryTimeout(targetEnd - endTimes[j - 1])
  {
    if endTimes[k] < targetEnd && k < numRetries {
      var t := RetryStep(s, numbers, endTimes[k], targetEnd);
      RetryStepShape(s, numbers, endTimes[k], targetEnd);
      if !t.crashed {
        RetryLoopTimers(t, numbers, endTimes, k + 1, numRetries, targetEnd);
        RetryLoopAttempts(t, numbers, endTimes, k + 1, numRetries, targetEnd);
        var r := RetryLoop(t, numbers, endTimes, k + 1, numRetries, targetEnd);
        assert r.attempts[k + 1] == t.attempts[k + 1];
      }
    }
  }

  /** Once the best channel is locked, the loop never changes the channel
      or any ratio again, and the lock stays. */
  lemma {:induction false} LockIsPermanent(s: Session, numbers: seq<string>, endTimes: seq<Time>, k: nat,
                                           numRetries: int, targetEnd: Time)
    requires Running(s, numbers) && s.bestSet
    requires k < |endTimes| && numRetries < |endTimes|
    decreases |endTimes| - k
    ensures var r := RetryLoop(s, numbers, endTimes, k, numRetries, targetEnd);
            !r.crashed && r.bestSet && r.channelIdx == s.channelIdx && r.ratios == s.ratios
  {
    if endTimes[k] < targetEnd && k < numRetries {
      LockIsPermanent(RetryStep(s, numbers, endTimes[k], targetEnd), numbers, endTimes, k + 1, numRetries, targetEnd);
    }
  }

  /** Clock readings that never go back in time from `k` on. */
  predicate MonotoneFrom(endTimes: seq<Time>, k: nat)
  {
    forall i, j :: k <= i <= j < |endTimes| ==> endTimes[i] <= endTimes[j]
  }

  /** With a clock that never goes back and no negative ratio to begin
      with, every ratio stays non-negative, so the scan always finds a
      channel and the session never crashes. */
  lemma {:induction false} NoCrashWithMonotoneClock(s: Session, numbers: seq<string>, endTimes: seq<Time>, k: nat,
                                                    numRetries: int, targetEnd: Time)
    requires Running(s, numbers)
    requires k < |endTimes| && numRetries < |endTimes|
    requires forall i :: 0 <= i < |s.ratios| ==> s.ratios[i] >= 0
    requires s.lastStarted <= endTimes[k] && MonotoneFrom(endTimes, k)
    decreases |endTimes| - k
    ensures !RetryLoop(s, numbers, endTimes, k, numRetries, targetEnd).crashed
  {
    if endTimes[k] < targetEnd && k < numRetries {
      var now := endTimes[k];
      var t := RetryStep(s, numbers, now, targetEnd);
      if now - s.lastStarted < FifteenMinutes && !s.bestSet {
        var ratios := s.ratios[s.channelIdx := TruncDiv(MinutesComponent(now - s.lastStarted), s.failures + 1)];
        NextChannelChoice(ratios, s.channelIdx, s.bestSet);
        assert ratios[s.channelIdx] >= 0;
      }
      assert !t.crashed && t.lastStarted == now;
      NoCrashWithMonotoneClock(t, numbers, endTimes, k + 1, numRetries, targetEnd);
    }
  }

  /** The whole session, as the callers see it: at most `numRetries`
      retries, each while the clock was still before the target end; the
      loop ends at the target end or at the retry limit; the segment numbers
      of the processes started run 0, 1, 2, ... in order; the first process
      gets the record's duration as its timer and every retry a timer that
      covers the time left. */
  lemma CaptureSessionFacts(numbers: seq<string>, ratios: seq<int>, bestSet: bool, history: History,
                            start: Time, duration: int, numRetries: int, endTimes: seq<Time>)
    requires |numbers| >= 1 && |ratios| == |numbers|
    requires |endTimes| >= 1 && numRetries < |endTimes|
    ensures var targetEnd := start + duration * SecondsPerMinute;
            var r := CaptureSession(numbers, ratios, bestSet, history, start, duration, numRetries, endTimes);
            && (r.fileNum == 0 || r.fileNum <= numRetries)
            && (forall j :: 0 <= j < r.fileNum ==> endTimes[j] < targetEnd)
            && (!r.crashed ==> endTimes[r.fileNum] >= targetEnd || r.fileNum >= numRetries)
            && |r.attempts| == r.fileNum + (if r.crashed then 0 else 1) >= 1
            && r.attempts[0] == Attempt(numbers[0], 0, duration)
            && (forall j :: 0 <= j < |r.attempts| ==> r.attempts[j].fileNum == j)
            && (forall j :: 1 <= j < |r.attempts| ==>
                  r.attempts[j].timeoutMinutes * SecondsPerMinute > targetEnd - endTimes[j - 1] > 0)
  {
    var targetEnd := start + duration * SecondsPerMinute;
    var s := FirstRun(numbers, ratios, bestSet, history, start, duration);
    RetryLoopBounds(s, numbers, endTimes, 0, numRetries, targetEnd);
    RetryLoopRuns(s, numbers, endTimes, 0, numRetries, targetEnd);
    RetryLoopAttempts(s, numbers, endTimes, 0, numRetries, targetEnd);
    RetryLoopTimers(s, numbers, endTimes, 0, numRetries, targetEnd);
    var r := RetryLoop(s, numbers, endTimes, 0, numRetries, targetEnd);
    assert r.attempts[0] == s.attempts[0];
    forall j | 1 <= j < |r.attempts|
      ensures r.attempts[j].timeoutMinutes * SecondsPerMinute > targetEnd - endTimes[j - 1] > 0
    {
      RetryTimeoutCoversTimeLeft(targetEnd - endTimes[j - 1]);
    }
  }

  /** A capture on a clock that never goes back, starting from non-negative
      ratios, never crashes. */
  lemma CaptureNeverCrashesWithMonotoneClock(numbers: seq<string>, ratios: seq<int>, bestSet: bool, history: History,
                                             start: Time, duration: int, numRetries: int, endTimes: seq<Time>)
    requires |numbers| >= 1 && |ratios| == |numbers|
    requires |endTimes| >= 1 && numRetries < |endTimes|
    requires forall i :: 0 <= i < |ratios| ==> ratios[i] >= 0
    requires start <= endTimes[0] && MonotoneFrom(endTimes, 0)
    ensures !CaptureSession(numbers, ratios, bestSet, history, start, duration, numRetries, endTimes).crashed
  {
    NoCrashWithMonotoneClock(FirstRun(numbers, ratios, bestSet, history, start, duration),
                             numbers, endTimes, 0, numRetries, start + duration * SecondsPerMinute);
  }

  /** A clock that goes back ten minutes during a one-channel capture (as a
      daylight-saving change can make the local clock do) gives the channel
      a negative ratio, the scan then finds no channel, and the source
      throws when it logs that channel: the session ends crashed. */
  lemma ClockGoingBackCrashes()
    ensures CaptureSession(["1"], [0], false, map[], 1000, 60, 1, [400, 500]).crashed
  {
    var s := FirstRun(["1"], [0], false, map[], 1000, 60);
    var f := Fail(s, ["1"]);
    assert ShortLived(f, 400);
    assert MinutesComponent(400 - 1000) == -10;
    assert TruncDiv(-10, 1) == -10;
    assert [0][0 := -10] == [-10];
    assert Scan([-10], 1, 1, false) == ScanState(0, 1, false);
    assert Rate(f, 400).channelIdx == 1;
    assert RetryStep(s, ["1"], 400, 1000 + 60 * SecondsPerMinute).crashed;
  }

  // ---------------------------------------------------------------- the imperative loop

  /** The loop runs one more pass while the clock is before the target end
      and retries are left. */
  lemma LoopGoesOn(s: Session, t: Session, numbers: seq<string>, endTimes: seq<Time>, k: nat,
                   numRetries: int, targetEnd: Time)
    requires Running(s, numbers)
    requires k < |endTimes| && numRetries < |endTimes|
    requires endTimes[k] < targetEnd && k < numRetries
    requires t == RetryStep(s, numbers, endTimes[k], targetEnd)
    ensures t.crashed ==> RetryLoop(s, numbers, endTimes, k, numRetries, targetEnd) == t
    ensures !t.crashed ==> Running(t, numbers)
    ensures !t.crashed ==>
              RetryLoop(s, numbers, endTimes, k, numRetries, targetEnd)
              == RetryLoop(t, numbers, endTimes, k + 1, numRetries, targetEnd)
  {
    RetryStepShape(s, numbers, endTimes[k], targetEnd);
  }

  /** Otherwise it stops, stamping the current channel's last success. */
  lemma LoopStops(s: Session, numbers: seq<string>, endTimes: seq<Time>, k: nat,
                  numRetries: int, targetEnd: Time)
    requires Running(s, numbers)
    requires k < |endTimes| && numRetries < |endTimes|
    requires !(endTimes[k] < targetEnd && k < numRetries)
    ensures RetryLoop(s, numbers, endTimes, k, numRetries, targetEnd)
         == s.(history := NoteSuccess(s.history, numbers[s.channelIdx], endTimes[k]))
  {
  }

  /** The body of the retry loop, for a capture process that ended at
      `now`: charge the failure, rate and leave a short-lived channel unless
      one is locked, then start the next process. */
  method RetryPass(numbers: seq<string>, ratios: array<int>, channelIdx: int, currentFileNum: nat,
                   currentChannelFailureCount: nat, lastStartedTime: Time, bestChannelSetFlag: bool,
                   channelHistory: History, started: seq<Attempt>, now: Time, targetEnd: Time)
    returns (nextIdx: int, fileNum: nat, failures: nat, lastStarted: Time, bestSet: bool,
             history: History, attempts: seq<Attempt>, crashed: bool)
    requires ratios.Length == |numbers| && 0 <= channelIdx < |numbers|
    modifies ratios
    ensures Session(nextIdx, fileNum, failures, lastStarted, ratios[..], bestSet, history, attempts, crashed)
         == RetryStep(Session(channelIdx, currentFileNum, currentChannelFailureCount, lastStartedTime,
                              old(ratios[..]), bestChannelSetFlag, channelHistory, started, false),
                      numbers, now, targetEnd)
  {
    ghost var before := Session(channelIdx, currentFileNum, currentChannelFailureCount, lastStartedTime,
                                ratios[..], bestChannelSetFlag, channelHistory, started, false);
    nextIdx, bestSet, attempts, crashed := channelIdx, bestChannelSetFlag, started, false;
    history := NoteError(channelHistory, numbers[channelIdx]);
    failures := currentChannelFailureCount + 1;
    fileNum := currentFileNum + 1;
    ghost var failed := Fail(before, numbers);
    if now - lastStartedTime < FifteenMinutes && !bestSet {
      var minutes := MinutesComponent(now - lastStartedTime);
      ratios[nextIdx] := TruncDiv(minutes, failures);
      assert ratios[..] == failed.ratios[channelIdx := TruncDiv(minutes, failures)];
      nextIdx, bestSet := GetNextChannel(ratios, nextIdx, bestSet);
      ghost var rated := Session(nextIdx, fileNum, failures, lastStartedTime, ratios[..],
                                 bestSet, history, attempts, false);
      assert rated == Rate(failed, now);
      if !(0 <= nextIdx < ratios.Length) {
        crashed := true;
        lastStarted := lastStartedTime;
        return;
      }
      failures := 0;
    }
    lastStarted := now;
    history := NoteAttempt(history, numbers[nextIdx], now);
    attempts := attempts + [Attempt(numbers[nextIdx], fileNum, RetryTimeout(targetEnd - now))];
  }

  /** What the caller of a session gets back: the last segment number, the
      lock, the channel history, the processes started, whether it failed on
      the channel index, and the channels' ratios. */
  function Observed(r: Session): (nat, bool, History, seq<Attempt>, bool, seq<int>)
  {
    (r.fileNum, r.bestSet, r.history, r.attempts, r.crashed, r.ratios)
  }

  /** Session `i + 1` of `trace` is the pass on the `i`-th clock reading
      from session `i`, which was running. */
  ghost predicate StepAt(trace: seq<Session>, i: nat, numbers: seq<string>, endTimes: seq<Time>, targetEnd: Time)
  {
    i + 1 < |trace| && i < |endTimes| && Running(trace[i], numbers)
    && trace[i + 1] == RetryStep(trace[i], numbers, endTimes[i], targetEnd)
  }

  /** `trace` lists the sessions the loop went through, one pass after
      another, each pass on the next clock reading. */
  ghost predicate IsTrace(trace: seq<Session>, numbers: seq<string>, endTimes: seq<Time>, targetEnd: Time)
  {
    forall i: nat :: i < |trace| - 1 ==> StepAt(trace, i, numbers, endTimes, targetEnd)
  }

  /** A running session's next pass extends the trace. */
  lemma TraceExtends(trace: seq<Session>, next: Session, numbers: seq<string>, endTimes: seq<Time>,
                     targetEnd: Time)
    requires |trace| >= 1 && IsTrace(trace, numbers, endTimes, targetEnd)
    requires |trace| <= |endTimes| && Running(trace[|trace| - 1], numbers)
    requires next == RetryStep(trace[|trace| - 1], numbers, endTimes[|trace| - 1], targetEnd)
    ensures IsTrace(trace + [next], numbers, endTimes, targetEnd)
  {
    var t := trace + [next];
    forall i: nat | i < |t| - 1
      ensures StepAt(t, i, numbers, endTimes, targetEnd)
    {
      assert t[i] == trace[i];
      if i + 1 < |trace| {
        assert StepAt(trace, i, numbers, endTimes, targetEnd);
        assert t[i + 1] == trace[i + 1];
      }
    }
  }

  /** While the loop condition has held at every earlier reading, the loop
      from the start of a trace is the loop from its `k`-th session. */
  lemma {:induction false} TraceReachesLoop(trace: seq<Session>, k: nat, numbers: seq<string>,
                                            endTimes: seq<Time>, numRetries: int, targetEnd: Time)
    requires k < |trace| && IsTrace(trace, numbers, endTimes, targetEnd)
    requires k < |endTimes| && numRetries < |endTimes| && (k == 0 || k <= numRetries)
    requires forall j :: 0 <= j < k ==> endTimes[j] < targetEnd
    requires Running(trace[0], numbers) && Running(trace[k], numbers)
    ensures RetryLoop(trace[0], numbers, endTimes, 0, numRetries, targetEnd)
         == RetryLoop(trace[k], numbers, endTimes, k, numRetries, targetEnd)
  {
    if k > 0 {
      assert StepAt(trace, k - 1, numbers, endTimes, targetEnd);
      TraceReachesLoop(trace, k - 1, numbers, endTimes, numRetries, targetEnd);
    }
  }

  /** A pass that crashes (the failover found no channel, and the source
      throws logging it) ends the loop with that session. */
  lemma LoopCrashes(trace: seq<Session>, numbers: seq<string>, endTimes: seq<Time>, numRetries: int,
                    targetEnd: Time)
    requires |trace| >= 2 && IsTrace(trace, numbers, endTimes, targetEnd)
    requires |trace| <= |endTimes| && numRetries < |endTimes| && |trace| - 2 < numRetries
    requires forall j :: 0 <= j < |trace| - 1 ==> endTimes[j] < targetEnd
    requires Running(trace[0], numbers) && trace[|trace| - 1].crashed
    ensures RetryLoop(trace[0], numbers, endTimes, 0, numRetries, targetEnd) == trace[|trace| - 1]
  {
    var k := |trace| - 2;
    assert StepAt(trace, k, numbers, endTimes, targetEnd);
    TraceReachesLoop(trace, k, numbers, endTimes, numRetries, targetEnd);
    LoopGoesOn(trace[k], trace[k + 1], numbers, endTimes, k, numRetries, targetEnd);
  }

  /** When the loop condition first fails, the loop ends with the last
      session of the trace, the current channel's last success stamped. */
  lemma LoopFinishes(trace: seq<Session>, numbers: seq<string>, endTimes: seq<Time>, numRetries: int,
                     targetEnd: Time)
    requires |trace| >= 1 && IsTrace(trace, numbers, endTimes, targetEnd)
    requires |trace| <= |endTimes| && numRetries < |endTimes| && (|trace| == 1 || |trace| - 1 <= numRetries)
    requires forall j :: 0 <= j < |trace| - 1 ==> endTimes[j] < targetEnd
    requires Running(trace[0], numbers) && Running(trace[|trace| - 1], numbers)
    requires !(endTimes[|trace| - 1] < targetEnd && |trace| - 1 < numRetries)
    ensures var p := trace[|trace| - 1];
            RetryLoop(trace[0], numbers, endTimes, 0, numRetries, targetEnd)
            == p.(history := NoteSuccess(p.history, numbers[p.channelIdx], endTimes[|trace| - 1]))
  {
    TraceReachesLoop(trace, |trace| - 1, numbers, endTimes, numRetries, targetEnd);
    LoopStops(trace[|trace| - 1], numbers, endTimes, |trace| - 1, numRetries, targetEnd);
  }

  /** The retry loop of CaptureStream, from a running session on: passes
      run while the clock is before the target end and retries are left,
      and at the end the current channel's last success is stamped. */
  method RetryUntilDone(numbers: seq<string>, ratios: array<int>, channelIdx0: int, fileNum0: nat, failures0: nat,
                        lastStarted0: Time, bestSet0: bool, history0: History, attempts0: seq<Attempt>,
                        endTimes: seq<Time>, numRetries: int, targetEnd: Time)
    returns (currentFileNum: nat, bestSet: bool, history: History, attempts: seq<Attempt>, crashed: bool)
    requires ratios.Length == |numbers| && 0 <= channelIdx0 < |numbers|
    requires |endTimes| >= 1 && numRetries < |endTimes|
    modifies ratios
    ensures (currentFileNum, bestSet, history, attempts, crashed, ratios[..])
         == Observed(RetryLoop(Session(channelIdx0, fileNum0, failures0, lastStarted0, old(ratios[..]), bestSet0,
                                       history0, attempts0, false),
                               numbers, endTimes, 0, numRetries, targetEnd))
  {
    var channelIdx, failureCount, lastStartedTime := channelIdx0, failures0, lastStarted0;
    currentFileNum, bestSet, history, attempts, crashed := fileNum0, bestSet0, history0, attempts0, false;
    ghost var trace := [Session(channelIdx, currentFileNum, failureCount, lastStartedTime, ratios[..],
                                bestSet, history, attempts, false)];
    var retryNum: nat := 0;
    while endTimes[retryNum] < targetEnd && retryNum < numRetries
      invariant retryNum == 0 || retryNum <= numRetries
      invariant forall j :: 0 <= j < retryNum ==> endTimes[j] < targetEnd
      invariant |trace| == retryNum + 1 && IsTrace(trace, numbers, endTimes, targetEnd)
      invariant trace[0] == Session(channelIdx0, fileNum0, failures0, lastStarted0, old(ratios[..]), bestSet0,
                                    history0, attempts0, false)
      invariant trace[retryNum] == Session(channelIdx, currentFileNum, failureCount, lastStartedTime, ratios[..],
                                           bestSet, history, attempts, false)
      invariant 0 <= channelIdx < |numbers|
      invariant !crashed
      decreases numRetries - retryNum
    {
      var now := endTimes[retryNum];
      channelIdx, currentFileNum, failureCount, lastStartedTime, bestSet, history, attempts, crashed :=
        RetryPass(numbers, ratios, channelIdx, currentFileNum, failureCount, lastStartedTime, bestSet,
                  history, attempts, now, targetEnd);
      ghost var next := Session(channelIdx, currentFileNum, failureCount, lastStartedTime, ratios[..],
                                bestSet, history, attempts, crashed);
      TraceExtends(trace, next, numbers, endTimes, targetEnd);
      trace := trace + [next];
      if crashed {
        LoopCrashes(trace, numbers, endTimes, numRetries, targetEnd);
        return;
      }
      retryNum := retryNum + 1;
    }
    LoopFinishes(trace, numbers, endTimes, numRetries, targetEnd);
    history := NoteSuccess(history, numbers[channelIdx], endTimes[retryNum]);
  }

  /** The source's CaptureStream. `ratios` are the quality ratios of the
      sorted channels, updated in place; the out-parameters are the number
      of the last segment file (the source's return value), the record's
      bestChannelSetFlag, the channel history, the processes started, and
      whether the session failed on the channel index. */
  method CaptureStream(numbers: seq<string>, ratios: array<int>, bestChannelSetFlag: bool, channelHistory: History,
                       start: Time, duration: int, numRetries: int, endTimes: seq<Time>)
    returns (currentFileNum: nat, bestSet: bool, history: History, attempts: seq<Attempt>, crashed: bool)
    requires ratios.Length == |numbers|
    requires |endTimes| >= 1 && numRetries < |endTimes|
    modifies ratios
    ensures (currentFileNum, bestSet, history, attempts, crashed, ratios[..])
         == Observed(CaptureSession(numbers, old(ratios[..]), bestChannelSetFlag, channelHistory,
                                    start, duration, numRetries, endTimes))
  {
    if ratios.Length == 0 {
      return 0, bestChannelSetFlag, channelHistory, [], true;
    }
    var captureStarted := start;
    var captureTargetEnd := captureStarted + duration * SecondsPerMinute;
    var channelIdx := 0;
    history := NoteAttempt(channelHistory, numbers[channelIdx], captureStarted);
    attempts := [Attempt(numbers[channelIdx], 0, duration)];
    currentFileNum, bestSet, history, attempts, crashed :=
      RetryUntilDone(numbers, ratios, channelIdx, 0, 0, captureStarted, bestChannelSetFlag, history, attempts,
                     endTimes, numRetries, captureTargetEnd);
  }
}
