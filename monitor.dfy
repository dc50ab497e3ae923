/**
 * The monitor loop of the recorder: after every schedule refresh it walks
 * the queue and hands each show whose start lies within the look-ahead
 * horizon, and that was not handed over before, to a capture supervisor;
 * then it works out the hour of the next refresh from the configured list
 * of check hours.
 *
 * The queued records are the very objects stored in the candidate map, so
 * setting a record's spawn flag in the queue sets it in the map as well.
 * The model keeps records as values and writes the flagged record back
 * both into the queue and into the map under the record's key; the
 * predicate `QueueBacked` states the sharing that makes this faithful.
 */
module Monitor {
  import opened Wrappers
  import opened Keywords
  import opened Records
  import opened Admission
  import opened Scheduling

  // ================================================================ the spawn gate

  /** The gate of the monitor loop: the show starts strictly after `now`,
      no later than the look-ahead horizon, and has no supervisor yet. */
  predicate DueToSpawn(r: RecordInfo, now: Time, hoursInFuture: int)
  {
    now < r.startDT <= now + hoursInFuture * SecondsPerHour && !r.processSpawnedFlag
  }

  /** The record as the gate leaves it: flagged when it was due. */
  function Mark(r: RecordInfo, now: Time, hoursInFuture: int): RecordInfo
  {
    if DueToSpawn(r, now, hoursInFuture) then r.(processSpawnedFlag := true) else r
  }

  /** The queue after one pass of the gate. */
  function MarkQueue(q: seq<RecordInfo>, now: Time, hoursInFuture: int): (m: seq<RecordInfo>)
    ensures |m| == |q|
  {
    if q == [] then []
    else MarkQueue(q[..|q| - 1], now, hoursInFuture) + [Mark(q[|q| - 1], now, hoursInFuture)]
  }

  /** The records handed to a supervisor by one pass, in queue order, each
      already flagged. */
  function Spawned(q: seq<RecordInfo>, now: Time, hoursInFuture: int): seq<RecordInfo>
  {
    if q == [] then []
    else
      var r := q[|q| - 1];
      Spawned(q[..|q| - 1], now, hoursInFuture)
      + (if DueToSpawn(r, now, hoursInFuture) then [r.(processSpawnedFlag := true)] else [])
  }

  /** The candidate map after one pass: the entry shared with every due
      queued record gets the flag. */
  function MarkDict(d: RecordDict, q: seq<RecordInfo>, now: Time, hoursInFuture: int): RecordDict
  {
    if q == [] then d
    else
      var r := q[|q| - 1];
      var before := MarkDict(d, q[..|q| - 1], now, hoursInFuture);
      if DueToSpawn(r, now, hoursInFuture) then before[RecordKey(r) := r.(processSpawnedFlag := true)] else before
  }

  /** Every queued record is the map's entry under its own key: the queue
      and the map share their record objects. */
  predicate QueueBacked(d: RecordDict, q: seq<RecordInfo>)
  {
    forall i :: 0 <= i < |q| ==> RecordKey(q[i]) in d && d[RecordKey(q[i])] == q[i]
  }

  /** One pass of the gate flags exactly the due records and changes no
      other field. */
  lemma {:induction false} MarkQueueEach(q: seq<RecordInfo>, now: Time, hoursInFuture: int)
    ensures forall i :: 0 <= i < |q| ==> MarkQueue(q, now, hoursInFuture)[i] == Mark(q[i], now, hoursInFuture)
    decreases |q|
  {
    if q != [] {
      MarkQueueEach(q[..|q| - 1], now, hoursInFuture);
    }
  }

  /** The records handed over are exactly the due records of the queue,
      each flagged; every one of them starts after `now` and within the
      horizon. */
  lemma {:induction false} SpawnedAreTheDue(q: seq<RecordInfo>, now: Time, hoursInFuture: int)
    ensures forall r :: r in Spawned(q, now, hoursInFuture) <==>
              exists i :: 0 <= i < |q| && DueToSpawn(q[i], now, hoursInFuture)
                          && r == q[i].(processSpawnedFlag := true)
    ensures forall r :: r in Spawned(q, now, hoursInFuture) ==>
              r.processSpawnedFlag && now < r.startDT <= now + hoursInFuture * SecondsPerHour
    decreases |q|
  {
    if q != [] {
      var init := q[..|q| - 1];
      SpawnedAreTheDue(init, now, hoursInFuture);
      forall r | r in Spawned(q, now, hoursInFuture)
        ensures exists i :: 0 <= i < |q| && DueToSpawn(q[i], now, hoursInFuture)
                            && r == q[i].(processSpawnedFlag := true)
      {
        if r in Spawned(init, now, hoursInFuture) {
          var i :| 0 <= i < |init| && DueToSpawn(init[i], now, hoursInFuture)
                   && r == init[i].(processSpawnedFlag := true);
          assert q[i] == init[i];
        } else {
          assert r == q[|q| - 1].(processSpawnedFlag := true);
        }
      }
      forall r | exists i :: 0 <= i < |q| && DueToSpawn(q[i], now, hoursInFuture)
                             && r == q[i].(processSpawnedFlag := true)
        ensures r in Spawned(q, now, hoursInFuture)
      {
        var i :| 0 <= i < |q| && DueToSpawn(q[i], now, hoursInFuture) && r == q[i].(processSpawnedFlag := true);
        if i < |init| {
          assert init[i] == q[i];
        }
      }
    }
  }

  /** A second pass over the flagged queue at the same instant hands over
      nothing: the flag is set before the supervisor is started. */
  lemma {:induction false} SecondPassSpawnsNothing(q: seq<RecordInfo>, now: Time, hoursInFuture: int)
    ensures Spawned(MarkQueue(q, now, hoursInFuture), now, hoursInFuture) == []
    decreases |q|
  {
    if q != [] {
      var m := MarkQueue(q, now, hoursInFuture);
      MarkQueueEach(q, now, hoursInFuture);
      SecondPassSpawnsNothing(q[..|q| - 1], now, hoursInFuture);
      assert m[..|m| - 1] == MarkQueue(q[..|q| - 1], now, hoursInFuture);
      assert !DueToSpawn(m[|m| - 1], now, hoursInFuture);
    }
  }

  /** What a pass does to a map that backs its queue: the entry of every
      queued record becomes the record as the gate leaves it, no key is
      added or dropped, and entries of keys outside the queue stay as they
      were. */
  lemma {:induction false} MarkDictEntries(d: RecordDict, q: seq<RecordInfo>, now: Time, hoursInFuture: int)
    requires QueueBacked(d, q)
    ensures var r := MarkDict(d, q, now, hoursInFuture);
            && r.Keys == d.Keys
            && (forall i :: 0 <= i < |q| ==> r[RecordKey(q[i])] == Mark(q[i], now, hoursInFuture))
            && (forall k :: k in d && (forall i :: 0 <= i < |q| ==> RecordKey(q[i]) != k) ==> r[k] == d[k])
    decreases |q|
  {
    if q != [] {
      var init := q[..|q| - 1];
      var last := q[|q| - 1];
      assert QueueBacked(d, init) by {
        forall i | 0 <= i < |init| ensures RecordKey(init[i]) in d && d[RecordKey(init[i])] == init[i] {
          assert init[i] == q[i];
        }
      }
      MarkDictEntries(d, init, now, hoursInFuture);
      var before := MarkDict(d, init, now, hoursInFuture);
      var r := MarkDict(d, q, now, hoursInFuture);
      forall i | 0 <= i < |init| ensures r[RecordKey(q[i])] == Mark(q[i], now, hoursInFuture) {
        assert q[i] == init[i];
        assert before[RecordKey(init[i])] == Mark(init[i], now, hoursInFuture);
        if RecordKey(q[i]) == RecordKey(last) {
          assert q[i] == last;
        }
      }
      forall k | k in d && (forall i :: 0 <= i < |q| ==> RecordKey(q[i]) != k) ensures r[k] == d[k] {
        assert forall i :: 0 <= i < |init| ==> RecordKey(init[i]) == RecordKey(q[i]);
        assert RecordKey(last) != k;
      }
    }
  }

  /** After a pass the map stays keyed by record and backs the flagged
      queue: the flag does not change a record's key. */
  lemma MarkDictEffect(d: RecordDict, q: seq<RecordInfo>, now: Time, hoursInFuture: int)
    requires QueueBacked(d, q)
    ensures var r := MarkDict(d, q, now, hoursInFuture);
            && (KeyedByRecord(d) ==> KeyedByRecord(r))
            && QueueBacked(r, MarkQueue(q, now, hoursInFuture))
  {
    var r := MarkDict(d, q, now, hoursInFuture);
    MarkDictEntries(d, q, now, hoursInFuture);
    MarkQueueEach(q, now, hoursInFuture);
    if KeyedByRecord(d) {
      forall k | k in r ensures RecordKey(r[k]) == k {
        if exists i :: 0 <= i < |q| && RecordKey(q[i]) == k {
          var i :| 0 <= i < |q| && RecordKey(q[i]) == k;
          assert r[k] == Mark(q[i], now, hoursInFuture);
        }
      }
    }
  }

  /** The queue of a refresh is backed by the map the refresh leaves and
      holds no record twice. */
  lemma RefreshBacksQueue(d: RecordDict, m: TextMatcher, rules: seq<KeywordInfo>, shows: seq<ScheduleShow>,
                          strip: seq<char>, order: seq<RecordInfo>, now: Time, hoursInFuture: int, maxConcurrent: int)
    requires KeyedByRecord(d)
    requires IsEnumeration(order, ReconcileAll(d, m, rules, shows, strip))
    ensures var q := AdmitAll(SortByPos(order), now, hoursInFuture, maxConcurrent);
            QueueBacked(Prune(ReconcileAll(d, m, rules, shows, strip), now), q) && Distinct(q)
  {
    var reconciled := ReconcileAll(d, m, rules, shows, strip);
    ReconcileAllKeeps(d, m, rules, shows, strip);
    QueueProperties(order, reconciled, now, hoursInFuture, maxConcurrent);
  }

  /** A record whose stored entry is flagged is never due again: the
      reconciliation keeps the flag, and the next queue holds the stored
      entry itself. */
  lemma SpawnedStaysSpawned(d: RecordDict, m: TextMatcher, rules: seq<KeywordInfo>, shows: seq<ScheduleShow>,
                            strip: seq<char>, order: seq<RecordInfo>, k: string,
                            now: Time, later: Time, hoursInFuture: int, maxConcurrent: int)
    requires KeyedByRecord(d) && k in d && d[k].processSpawnedFlag
    requires IsEnumeration(order, ReconcileAll(d, m, rules, shows, strip))
    ensures forall r :: r in AdmitAll(SortByPos(order), now, hoursInFuture, maxConcurrent) && RecordKey(r) == k ==>
              r.processSpawnedFlag && !DueToSpawn(r, later, hoursInFuture)
  {
    var reconciled := ReconcileAll(d, m, rules, shows, strip);
    ReconcileAllKeeps(d, m, rules, shows, strip);
    QueueProperties(order, reconciled, now, hoursInFuture, maxConcurrent);
  }

  /** Once a pass hands over a queued record, the next refresh queues no
      due record under its key. */
  lemma NeverSpawnedTwice(d: RecordDict, q: seq<RecordInfo>, i: nat, now: Time,
                          m: TextMatcher, rules: seq<KeywordInfo>, shows: seq<ScheduleShow>, strip: seq<char>,
                          order: seq<RecordInfo>, later: Time, hoursInFuture: int, maxConcurrent: int)
    requires KeyedByRecord(d) && QueueBacked(d, q)
    requires i < |q| && DueToSpawn(q[i], now, hoursInFuture)
    requires IsEnumeration(order, ReconcileAll(MarkDict(d, q, now, hoursInFuture), m, rules, shows, strip))
    ensures forall r :: r in AdmitAll(SortByPos(order), later, hoursInFuture, maxConcurrent) && RecordKey(r) == RecordKey(q[i]) ==>
              !DueToSpawn(r, later, hoursInFuture)
  {
    MarkDictEntries(d, q, now, hoursInFuture);
    MarkDictEffect(d, q, now, hoursInFuture);
    SpawnedStaysSpawned(MarkDict(d, q, now, hoursInFuture), m, rules, shows, strip, order, RecordKey(q[i]),
                        later, later, hoursInFuture, maxConcurrent);
  }

  /** What one turn of the monitor loop does to the spawn flags, from the
      map `before` the turn to the map `after` it: a key flagged before stays
      flagged while it stays in the map, no record handed over has a key
      that was flagged before, and every record handed over is flagged in
      the map afterwards. */
  predicate SpawnFlagsKept(before: RecordDict, after: RecordDict, spawned: seq<RecordInfo>)
  {
    && (forall k :: k in before && before[k].processSpawnedFlag && k in after ==> after[k].processSpawnedFlag)
    && (forall i :: 0 <= i < |spawned| ==>
          RecordKey(spawned[i]) !in before || !before[RecordKey(spawned[i])].processSpawnedFlag)
    && (forall i :: 0 <= i < |spawned| ==>
          RecordKey(spawned[i]) in after && after[RecordKey(spawned[i])].processSpawnedFlag)
  }

  /** One whole turn of the monitor loop (refresh, prune, queue, gate) keeps
      the spawn flags as `SpawnFlagsKept` says. */
  lemma PassKeepsSpawnFlags(d: RecordDict, m: TextMatcher, rules: seq<KeywordInfo>, shows: seq<ScheduleShow>,
                            strip: seq<char>, order: seq<RecordInfo>, now: Time, hoursInFuture: int,
                            maxConcurrent: int)
    requires KeyedByRecord(d)
    requires IsEnumeration(order, ReconcileAll(d, m, rules, shows, strip))
    ensures var q := AdmitAll(SortByPos(order), now, hoursInFuture, maxConcurrent);
            SpawnFlagsKept(d, MarkDict(Prune(ReconcileAll(d, m, rules, shows, strip), now), q, now, hoursInFuture),
                           Spawned(q, now, hoursInFuture))
  {
    var reconciled := ReconcileAll(d, m, rules, shows, strip);
    var pruned := Prune(reconciled, now);
    var q := AdmitAll(SortByPos(order), now, hoursInFuture, maxConcurrent);
    var after := MarkDict(pruned, q, now, hoursInFuture);
    var spawned := Spawned(q, now, hoursInFuture);
    ReconcileAllKeeps(d, m, rules, shows, strip);
    RefreshBacksQueue(d, m, rules, shows, strip, order, now, hoursInFuture, maxConcurrent);
    MarkDictEntries(pruned, q, now, hoursInFuture);
    SpawnedAreTheDue(q, now, hoursInFuture);
    forall k | k in d && d[k].processSpawnedFlag && k in after
      ensures after[k].processSpawnedFlag
    {
      if exists i :: 0 <= i < |q| && RecordKey(q[i]) == k {
        var i :| 0 <= i < |q| && RecordKey(q[i]) == k;
        assert q[i] == pruned[k];
      }
    }
    forall x | 0 <= x < |spawned|
      ensures RecordKey(spawned[x]) !in d || !d[RecordKey(spawned[x])].processSpawnedFlag
      ensures RecordKey(spawned[x]) in after && after[RecordKey(spawned[x])].processSpawnedFlag
    {
      assert spawned[x] in spawned;
      var i :| 0 <= i < |q| && DueToSpawn(q[i], now, hoursInFuture)
               && spawned[x] == q[i].(processSpawnedFlag := true);
      assert RecordKey(spawned[x]) == RecordKey(q[i]);
      assert pruned[RecordKey(q[i])] == q[i];
    }
  }

  /** A key handed over in a turn keeps its flag through every later turn
      as long as it stays in the map. */
  lemma {:induction false} FlagPersists(dicts: seq<RecordDict>, handed: seq<seq<RecordInfo>>, k: string,
                                        i: nat, x: nat, p: nat)
    requires |dicts| == |handed| + 1
    requires forall t :: 0 <= t < |handed| ==> SpawnFlagsKept(dicts[t], dicts[t + 1], handed[t])
    requires i < p <= |handed| && x < |handed[i]| && RecordKey(handed[i][x]) == k
    requires forall t :: i < t <= p ==> k in dicts[t]
    ensures dicts[p][k].processSpawnedFlag
    decreases p
  {
    if p > i + 1 {
      FlagPersists(dicts, handed, k, i, x, p - 1);
      assert SpawnFlagsKept(dicts[p - 1], dicts[p], handed[p - 1]);
    } else {
      assert SpawnFlagsKept(dicts[i], dicts[i + 1], handed[i]);
    }
  }

  /** Across any run of monitor turns, where `dicts[t]` is the map before
      turn `t` and `handed[t]` what turn `t` hands over: a show handed over
      in turn `i` is not handed over again in a later turn `j`, as long as
      its key stays in the map in between. */
  lemma NeverHandedOverAgain(dicts: seq<RecordDict>, handed: seq<seq<RecordInfo>>, k: string,
                             i: nat, x: nat, j: nat)
    requires |dicts| == |handed| + 1
    requires forall t :: 0 <= t < |handed| ==> SpawnFlagsKept(dicts[t], dicts[t + 1], handed[t])
    requires i < j < |handed| && x < |handed[i]| && RecordKey(handed[i][x]) == k
    requires forall t :: i < t <= j ==> k in dicts[t]
    ensures forall y :: 0 <= y < |handed[j]| ==> RecordKey(handed[j][y]) != k
  {
    FlagPersists(dicts, handed, k, i, x, j);
    assert SpawnFlagsKept(dicts[j], dicts[j + 1], handed[j]);
  }

  /** One more record through the gate: each of the three results grows
      by that record's share. */
  lemma MarkStep(d: RecordDict, q: seq<RecordInfo>, i: nat, now: Time, hoursInFuture: int)
    requires i < |q|
    ensures var r := q[i];
            var due := DueToSpawn(r, now, hoursInFuture);
            && MarkQueue(q[..i + 1], now, hoursInFuture) + q[i + 1..]
               == (MarkQueue(q[..i], now, hoursInFuture) + q[i..])[i := Mark(r, now, hoursInFuture)]
            && Spawned(q[..i + 1], now, hoursInFuture)
               == Spawned(q[..i], now, hoursInFuture) + (if due then [Mark(r, now, hoursInFuture)] else [])
            && MarkDict(d, q[..i + 1], now, hoursInFuture)
               == (if due then MarkDict(d, q[..i], now, hoursInFuture)[RecordKey(r) := Mark(r, now, hoursInFuture)]
                   else MarkDict(d, q[..i], now, hoursInFuture))
  {
    assert q[..i + 1][..i] == q[..i];
    MarkQueueEach(q[..i], now, hoursInFuture);
    assert q[i..] == [q[i]] + q[i + 1..];
  }

  /** The loop of the monitor over the refreshed queue: every due show is
      flagged, in the queue and in the map, and handed over. */
  method HandOverDue(recordings: Recordings, recordInfoList: seq<RecordInfo>, now: Time)
    returns (spawned: seq<RecordInfo>)
    requires recordings.queuedRecordings == recordInfoList
    modifies recordings
    ensures recordings.queuedRecordings == MarkQueue(recordInfoList, now, recordings.hoursInFuture)
    ensures recordings.recordDict == MarkDict(old(recordings.recordDict), recordInfoList, now, recordings.hoursInFuture)
    ensures spawned == Spawned(recordInfoList, now, recordings.hoursInFuture)
  {
    var hoursInFuture := recordings.hoursInFuture;
    spawned := [];
    var i := 0;
    while i < |recordInfoList|
      invariant 0 <= i <= |recordInfoList|
      invariant recordings.queuedRecordings == MarkQueue(recordInfoList[..i], now, hoursInFuture) + recordInfoList[i..]
      invariant recordings.recordDict == MarkDict(old(recordings.recordDict), recordInfoList[..i], now, hoursInFuture)
      invariant spawned == Spawned(recordInfoList[..i], now, hoursInFuture)
    {
      var recordInfo := recordInfoList[i];
      MarkStep(old(recordings.recordDict), recordInfoList, i, now, hoursInFuture);
      if now < recordInfo.startDT && recordInfo.startDT <= now + hoursInFuture * SecondsPerHour
         && !recordInfo.processSpawnedFlag {
        var flagged := recordInfo.(processSpawnedFlag := true);
        recordings.queuedRecordings := recordings.queuedRecordings[i := flagged];
        recordings.recordDict := recordings.recordDict[RecordKey(recordInfo) := flagged];
        spawned := spawned + [flagged];
      }
      i := i + 1;
    }
    assert recordInfoList[..i] == recordInfoList;
    assert recordInfoList[i..] == [];
  }

  /** One turn of the monitor loop: refresh the schedule, then walk the
      queue and hand every due show to a supervisor, flagging it first. The
      supervisors themselves are not started here; `spawned` lists the
      records they receive. */
  method MonitorPass(recordings: Recordings, m: TextMatcher, rules: seq<KeywordInfo>,
                     scheduleShowList: seq<ScheduleShow>, platformInvalid: seq<char>, now: Time)
    returns (spawned: seq<RecordInfo>, ghost order: seq<RecordInfo>)
    requires recordings.Valid()
    modifies recordings
    ensures recordings.Valid()
    ensures var reconciled := ReconcileAll(old(recordings.recordDict), m, rules, scheduleShowList,
                                           UnsafeChars + platformInvalid);
            var queue := AdmitAll(SortByPos(order), now, recordings.hoursInFuture, recordings.concurrentCaptures);
            && IsEnumeration(order, reconciled)
            && recordings.queuedRecordings == MarkQueue(queue, now, recordings.hoursInFuture)
            && recordings.recordDict == MarkDict(Prune(reconciled, now), queue, now, recordings.hoursInFuture)
            && spawned == Spawned(queue, now, recordings.hoursInFuture)
    ensures QueueBacked(recordings.recordDict, recordings.queuedRecordings)
    ensures SpawnFlagsKept(old(recordings.recordDict), recordings.recordDict, spawned)
  {
    var recordInfoList;
    recordInfoList, order := recordings.BuildRecordSchedule(m, rules, scheduleShowList, platformInvalid, now);
    ghost var refreshed := recordings.recordDict;
    RefreshBacksQueue(old(recordings.recordDict), m, rules, scheduleShowList, UnsafeChars + platformInvalid,
                      order, now, recordings.hoursInFuture, recordings.concurrentCaptures);
    MarkDictEffect(refreshed, recordInfoList, now, recordings.hoursInFuture);
    PassKeepsSpawnFlags(old(recordings.recordDict), m, rules, scheduleShowList, UnsafeChars + platformInvalid,
                        order, now, recordings.hoursInFuture, recordings.concurrentCaptures);
    spawned := HandOverDue(recordings, recordInfoList, now);
  }

  // ================================================================ the next check

  /** The instant of the next schedule refresh: today or tomorrow, at the
      full hour `hour`. */
  datatype CheckTime = CheckTime(daysAhead: nat, hour: int)

  /** The first position from `from` on whose hour is later than `nowHour`,
      or the length when there is none. */
  function FirstLater(times: seq<int>, nowHour: int, from: nat): (i: nat)
    requires from <= |times|
    ensures from <= i <= |times|
    ensures i < |times| ==> nowHour < times[i]
    ensures forall j :: from <= j < i ==> times[j] <= nowHour
    decreases |times| - from
  {
    if from == |times| then from
    else if nowHour < times[from] then from
    else FirstLater(times, nowHour, from + 1)
  }

  /** The next check, from the configured check hours (the pieces of the
      comma-separated setting, which are never fewer than one) and the
      current hour. When the current hour is before the LAST listed hour,
      the first listed hour later than now, today; otherwise the first
      listed hour, tomorrow. None when that hour is not a valid hour of the
      day, where the source's DateTime constructor throws. */
  function NextCheckTime(times: seq<int>, nowHour: int): Option<CheckTime>
    requires |times| >= 1
  {
    if nowHour < times[|times| - 1] then
      var i := FirstLater(times, nowHour, 0);
      if 0 <= times[i] < 24 then Some(CheckTime(0, times[i])) else None
    else if 0 <= times[0] < 24 then Some(CheckTime(1, times[0])) else None
  }

  /** The next-check computation of the monitor loop. */
  method NextCheck(times: seq<int>, nowHour: int) returns (next: Option<CheckTime>)
    requires |times| >= 1 && 0 <= nowHour < 24
    ensures next == NextCheckTime(times, nowHour)
  {
    if nowHour < times[|times| - 1] {
      var i := 0;
      while times[i] <= nowHour
        invariant 0 <= i < |times|
        invariant forall j :: 0 <= j < i ==> times[j] <= nowHour
        invariant FirstLater(times, nowHour, 0) == FirstLater(times, nowHour, i)
        decreases |times| - i
      {
        i := i + 1;
      }
      var recHour := times[i];
      next := if 0 <= recHour < 24 then Some(CheckTime(0, recHour)) else None;
    } else {
      var recHour := times[0];
      next := if 0 <= recHour < 24 then Some(CheckTime(1, recHour)) else None;
    }
  }

  /** The next check is one of the listed hours, a valid hour of the day,
      at most a day ahead and strictly later than the current hour; with
      every listed hour valid it always exists. */
  lemma NextCheckIsLater(times: seq<int>, nowHour: int)
    requires |times| >= 1 && 0 <= nowHour < 24
    ensures var next := NextCheckTime(times, nowHour);
            && (next.Some? ==>
                  && next.value.hour in times
                  && 0 <= next.value.hour < 24
                  && next.value.daysAhead <= 1
                  && next.value.daysAhead * 24 + next.value.hour > nowHour)
            && ((forall j :: 0 <= j < |times| ==> 0 <= times[j] < 24) ==> next.Some?)
  {
    if nowHour < times[|times| - 1] {
      var i := FirstLater(times, nowHour, 0);
    }
  }

  /** With the hours listed in ascending order and all valid, the next
      check is the earliest listed hour still to come today, or else the
      earliest listed hour tomorrow. */
  lemma NextCheckSortedIsEarliest(times: seq<int>, nowHour: int)
    requires |times| >= 1 && 0 <= nowHour < 24
    requires forall j :: 0 <= j < |times| ==> 0 <= times[j] < 24
    requires forall i, j :: 0 <= i < j < |times| ==> times[i] <= times[j]
    ensures var next := NextCheckTime(times, nowHour);
            && next.Some?
            && ((exists j :: 0 <= j < |times| && nowHour < times[j]) ==>
                  && next.value.daysAhead == 0 && nowHour < next.value.hour
                  && (forall j :: 0 <= j < |times| && nowHour < times[j] ==> next.value.hour <= times[j]))
            && ((forall j :: 0 <= j < |times| ==> times[j] <= nowHour) ==>
                  && next.value == CheckTime(1, times[0])
                  && (forall j :: 0 <= j < |times| ==> next.value.hour <= times[j]))
  {
    var last := |times| - 1;
    if exists j :: 0 <= j < |times| && nowHour < times[j] {
      var j :| 0 <= j < |times| && nowHour < times[j];
      assert times[j] <= times[last];
      var i := FirstLater(times, nowHour, 0);
    }
  }

  /** With the hours not in ascending order a later hour of today can be
      skipped: at 10 o'clock with the hours 6, 18, 3 the last listed hour
      has passed, so the next check is 6 o'clock tomorrow although 18 o'clock
      today is listed. */
  lemma UnsortedHoursSkipToday()
    ensures NextCheckTime([6, 18, 3], 10) == Some(CheckTime(1, 6))
  {
  }
}
