/**
 * The scheduler's long-lived state: the candidate map `recordDict`, keyed by
 * start string and title, and the queue `queuedRecordings` rebuilt from it on
 * every schedule refresh.
 *
 * A refresh first reconciles the map with the published schedule (every show
 * claimed by a keyword rule fills or refills its entry) and then builds the
 * queue: the map's values in keyword-priority order are tried one by one;
 * finished candidates are deleted from the map, and the others are queued when
 * they start soon enough and pass the concurrency trial.
 */
module Scheduling {
  import opened Wrappers
  import opened Text
  import opened Keywords
  import opened Records
  import opened Admission

  type RecordDict = map<string, RecordInfo>

  /** Every entry is stored under the key rebuilt from it. */
  predicate KeyedByRecord(d: RecordDict)
  {
    forall k :: k in d ==> RecordKey(d[k]) == k
  }

  // ================================================================ reconciliation

  /** The stored record for a key, or a fresh one. */
  function RecordOrNew(d: RecordDict, key: string): RecordInfo
  {
    if key in d then d[key] else NewRecordInfo()
  }

  /** The map after one show of the schedule: unchanged when no rule claims
      it; otherwise the entry under the show's key is filled from the show and
      the first claiming rule. */
  function ReconcileShow(d: RecordDict, m: TextMatcher, rules: seq<KeywordInfo>, show: ScheduleShow, strip: seq<char>)
    : RecordDict
  {
    match FirstMatch(m, rules, show.name)
    case None => d
    case Some((rule, pos)) =>
      var key := ShowKey(show);
      d[key := FillRecord(RecordOrNew(d, key), show, rule, pos,
                          SanitizedFileName(show.name, rule.starredFlag, strip))]
  }

  /** The map after the shows of the schedule, in order. */
  function ReconcileAll(d: RecordDict, m: TextMatcher, rules: seq<KeywordInfo>, shows: seq<ScheduleShow>, strip: seq<char>)
    : RecordDict
  {
    if shows == [] then d
    else ReconcileShow(ReconcileAll(d, m, rules, shows[..|shows| - 1], strip), m, rules, shows[|shows| - 1], strip)
  }

  /** What one show does to the map: nothing when no rule claims it;
      otherwise its key holds a record with the show's title, the matched
      rule's position, the sanitised file name and the flags of the record
      stored before. No other key is touched, and the map stays keyed by
      record. */
  lemma ReconcileShowEffect(d: RecordDict, m: TextMatcher, rules: seq<KeywordInfo>, show: ScheduleShow, strip: seq<char>)
    ensures var r := ReconcileShow(d, m, rules, show, strip);
            var key := ShowKey(show);
            && (FirstMatch(m, rules, show.name).None? ==> r == d)
            && (FirstMatch(m, rules, show.name).Some? ==>
                  var (rule, pos) := FirstMatch(m, rules, show.name).value;
                  && key in r
                  && r[key].description == show.name
                  && r[key].keywordPos == pos
                  && Qualifies(m, rules[pos], show.name)
                  && r[key].fileName == SanitizedFileName(show.name, rule.starredFlag, strip)
                  && r[key].startDT == show.startDT && r[key].endDT == show.endDT)
            && (key in d ==>
                  (key in r
                   && r[key].processSpawnedFlag == d[key].processSpawnedFlag
                   && r[key].bestChannelSetFlag == d[key].bestChannelSetFlag))
            && (forall k :: k != key ==> (k in r <==> k in d) && (k in d ==> r[k] == d[k]))
            && (KeyedByRecord(d) ==> KeyedByRecord(r))
  {
  }

  /** Reconciling the same show twice has the effect of reconciling it once. */
  lemma ReconcileShowIdempotent(d: RecordDict, m: TextMatcher, rules: seq<KeywordInfo>, show: ScheduleShow, strip: seq<char>)
    ensures var once := ReconcileShow(d, m, rules, show, strip);
            ReconcileShow(once, m, rules, show, strip) == once
  {
    match FirstMatch(m, rules, show.name)
    case None =>
    case Some((rule, pos)) =>
      var key := ShowKey(show);
      FillRecordIdempotent(RecordOrNew(d, key), show, rule, pos,
                           SanitizedFileName(show.name, rule.starredFlag, strip));
  }

  /** Reconciliation never drops a key, keeps the map keyed by record, and
      never clears the spawn or best-channel flag of a stored record. */
  lemma {:induction false} ReconcileAllKeeps(d: RecordDict, m: TextMatcher, rules: seq<KeywordInfo>, shows: seq<ScheduleShow>, strip: seq<char>)
    ensures var r := ReconcileAll(d, m, rules, shows, strip);
            && (forall k :: k in d ==>
                  (k in r
                   && r[k].processSpawnedFlag == d[k].processSpawnedFlag
                   && r[k].bestChannelSetFlag == d[k].bestChannelSetFlag))
            && (KeyedByRecord(d) ==> KeyedByRecord(r))
    decreases |shows|
  {
    if shows != [] {
      var init := shows[..|shows| - 1];
      ReconcileAllKeeps(d, m, rules, init, strip);
      ReconcileShowEffect(ReconcileAll(d, m, rules, init, strip), m, rules, shows[|shows| - 1], strip);
    }
  }

  // ================================================================ queue construction

  /** The map without its finished entries (end strictly before `now`). */
  function Prune(d: RecordDict, now: Time): (r: RecordDict)
    ensures forall k :: k in r <==> k in d && !(d[k].endDT < now)
    ensures forall k :: k in r ==> r[k] == d[k]
  {
    map k | k in d && !(d[k].endDT < now) :: d[k]
  }

  /** `vals` lists every value of the map exactly once, in some order. */
  ghost predicate IsEnumeration(vals: seq<RecordInfo>, d: RecordDict)
  {
    Distinct(vals) && forall v :: v in vals <==> v in d.Values
  }

  /** The keys of the finished records among `l`. */
  function DoneKeys(l: seq<RecordInfo>, now: Time): set<string>
  {
    set r | r in l && r.endDT < now :: RecordKey(r)
  }

  /** The priority sort keeps the elements, and so keeps them free of repeats. */
  lemma {:induction false} SortByPosKeeps(l: seq<RecordInfo>)
    ensures forall x :: x in SortByPos(l) <==> x in l
    ensures Distinct(l) ==> Distinct(SortByPos(l))
    decreases |l|
  {
    if l != [] {
      var init := l[..|l| - 1];
      var x := l[|l| - 1];
      var sorted := SortByPos(init);
      SortByPosKeeps(init);
      InsertAtContents(sorted, PosInsertPos(x, sorted), x);
      assert l == init + [x];
      if Distinct(l) {
        LastNotEarlier(l);
        InsertAtDistinct(sorted, PosInsertPos(x, sorted), x);
      }
    }
  }

  /** What the queue built from an enumeration of the map promises: it is
      start-sorted, never overloaded at any instant, free of repeats, and
      holds only map values that are neither finished nor too far ahead and
      that survive the pruning. */
  lemma QueueProperties(order: seq<RecordInfo>, d: RecordDict, now: Time, hoursInFuture: int, maxConcurrent: int)
    requires KeyedByRecord(d) && IsEnumeration(order, d)
    ensures var q := AdmitAll(SortByPos(order), now, hoursInFuture, maxConcurrent);
            && StartSorted(q)
            && SweepOk(q, maxConcurrent)
            && NoOverload(q, maxConcurrent)
            && Distinct(q)
            && (forall r :: r in q ==>
                  (r in d.Values && Eligible(r, now, hoursInFuture)
                   && RecordKey(r) in Prune(d, now) && Prune(d, now)[RecordKey(r)] == r))
  {
    var sorted := SortByPos(order);
    SortByPosKeeps(order);
    AdmissionInvariant(sorted, now, hoursInFuture, maxConcurrent);
    var q := AdmitAll(sorted, now, hoursInFuture, maxConcurrent);
    SweepOkIffNoOverload(q, maxConcurrent);
    forall r | r in q ensures RecordKey(r) in Prune(d, now) && Prune(d, now)[RecordKey(r)] == r {
      assert r in d.Values;
      var k :| k in d && d[k] == r;
    }
  }

  /** Keyword priority: the candidates are tried from the lowest keyword
      position up, and each is queued exactly when it is eligible and its
      trial passes against the queue built from the candidates tried before
      it. The spawn flag plays no part. */
  lemma QueueMembership(order: seq<RecordInfo>, d: RecordDict, i: nat, now: Time, hoursInFuture: int, maxConcurrent: int)
    requires IsEnumeration(order, d)
    requires i < |order|
    ensures var sorted := SortByPos(order);
            && PosSorted(sorted)
            && (sorted[i] in AdmitAll(sorted, now, hoursInFuture, maxConcurrent)
                <==> Eligible(sorted[i], now, hoursInFuture)
                     && TrialOk(sorted[i], AdmitAll(sorted[..i], now, hoursInFuture, maxConcurrent), maxConcurrent))
  {
    SortByPosKeeps(order);
    SortByPosSortsAndPermutes(order);
    AdmissionMembership(SortByPos(order), i, now, hoursInFuture, maxConcurrent);
  }

  /** The classes of the source, as a value-level statement about one
      refresh: finished candidates leave the map, while candidates too far
      ahead or rejected for capacity stay in it. */
  lemma PruneKeepsUnfinished(d: RecordDict, now: Time)
    ensures forall k :: k in d && d[k].endDT < now ==> k !in Prune(d, now)
    ensures forall k :: k in d && !(d[k].endDT < now) ==> k in Prune(d, now) && Prune(d, now)[k] == d[k]
    ensures KeyedByRecord(d) ==> KeyedByRecord(Prune(d, now))
  {
  }

  lemma DoneKeysStep(l: seq<RecordInfo>, i: nat, now: Time)
    requires i < |l|
    ensures DoneKeys(l[..i + 1], now)
         == DoneKeys(l[..i], now) + (if l[i].endDT < now then {RecordKey(l[i])} else {})
  {
    assert l[..i + 1] == l[..i] + [l[i]];
  }

  lemma MinusStep(d: RecordDict, done: set<string>, key: string, drop: bool)
    ensures (if drop then (d - done) - {key} else d - done)
         == d - (done + (if drop then {key} else {}))
  {
  }

  lemma AdmitAllStep(l: seq<RecordInfo>, i: nat, now: Time, hoursInFuture: int, maxConcurrent: int)
    requires i < |l|
    ensures AdmitAll(l[..i + 1], now, hoursInFuture, maxConcurrent)
         == Admit(AdmitAll(l[..i], now, hoursInFuture, maxConcurrent), l[i], now, hoursInFuture, maxConcurrent)
  {
    assert l[..i + 1][..i] == l[..i];
  }

  /** Deleting the finished records of a list that holds every value of the
      map is pruning the map. */
  lemma DoneKeysPrune(l: seq<RecordInfo>, d: RecordDict, now: Time)
    requires KeyedByRecord(d)
    requires forall v :: v in l <==> v in d.Values
    ensures d - DoneKeys(l, now) == Prune(d, now)
    ensures KeyedByRecord(Prune(d, now))
  {
    forall k | k in d && d[k].endDT < now ensures k in DoneKeys(l, now) {
      assert d[k] in d.Values;
    }
    forall k | k in d && k in DoneKeys(l, now) ensures d[k].endDT < now {
      var r :| r in l && r.endDT < now && RecordKey(r) == k;
      assert r in d.Values;
      var k' :| k' in d && d[k'] == r;
    }
  }

  // ================================================================ the object

  class Recordings {
    /** Candidate recordings, keyed by start string and title. */
    var recordDict: RecordDict
    /** The shows to capture, in start order, rebuilt by every refresh. */
    var queuedRecordings: seq<RecordInfo>
    /** Configuration "hoursInFuture": how far ahead shows are queued. */
    const hoursInFuture: int
    /** Configuration "concurrentCaptures": the cap on simultaneous captures. */
    const concurrentCaptures: int

    predicate Valid()
      reads this
    {
      KeyedByRecord(recordDict)
    }

    constructor(hoursInFuture: int, concurrentCaptures: int)
      ensures Valid()
      ensures recordDict == map[] && queuedRecordings == []
      ensures this.hoursInFuture == hoursInFuture && this.concurrentCaptures == concurrentCaptures
    {
      this.hoursInFuture := hoursInFuture;
      this.concurrentCaptures := concurrentCaptures;
      recordDict := map[];
      queuedRecordings := [];
    }

    /** The stored record for the key, or a fresh record when there is none. */
    function GetRecordInfo(recordInfoKey: string): (r: RecordInfo)
      reads this
      ensures recordInfoKey in recordDict ==> r == recordDict[recordInfoKey]
      ensures recordInfoKey !in recordDict ==> r == NewRecordInfo()
    {
      RecordOrNew(recordDict, recordInfoKey)
    }

    /** Store under the key, replacing any entry already there. */
    method AddUpdateRecordInfo(recordInfoKey: string, recordInfo: RecordInfo)
      modifies this
      ensures recordDict == old(recordDict)[recordInfoKey := recordInfo]
      ensures queuedRecordings == old(queuedRecordings)
    {
      recordDict := recordDict[recordInfoKey := recordInfo];
    }

    /** Remove the entry under the key rebuilt from the record. */
    method DeleteRecordInfo(recordInfoToDelete: RecordInfo)
      modifies this
      ensures recordDict == old(recordDict) - {RecordKey(recordInfoToDelete)}
      ensures queuedRecordings == old(queuedRecordings)
    {
      recordDict := recordDict - {RecordKey(recordInfoToDelete)};
    }

    /** Dictionary.Values.ToList(): the values in an order the library does
        not specify, each once. */
    method ValuesToList() returns (vals: seq<RecordInfo>)
      requires Valid()
      ensures IsEnumeration(vals, recordDict)
    {
      vals := [];
      var keys := recordDict.Keys;
      while keys != {}
        invariant keys <= recordDict.Keys
        invariant Distinct(vals)
        invariant forall v :: v in vals <==> exists k :: k in recordDict && k !in keys && recordDict[k] == v
        decreases |keys|
      {
        var k :| k in keys;
        var v := recordDict[k];
        forall w | w in vals ensures w != v {
          var k' :| k' in recordDict && k' !in keys && recordDict[k'] == w;
          assert RecordKey(w) == k' && RecordKey(v) == k;
        }
        AppendDistinct(vals, v);
        keys := keys - {k};
        vals := vals + [v];
      }
    }

    /** The file name a matched title gets: spaces replaced, then every
        unsafe and platform-invalid character removed one after another,
        then the starred marker. */
    static method SanitizeFileName(name: string, starredFlag: bool, platformInvalid: seq<char>)
      returns (fileName: string)
      ensures fileName == SanitizedFileName(name, starredFlag, UnsafeChars + platformInvalid)
    {
      var spaced := ReplaceChar(name, ' ', '_');
      var invalidChars := UnsafeChars + platformInvalid;
      fileName := RemoveEach(spaced, invalidChars);
      if starredFlag {
        fileName := StarMarker + fileName;
      }
    }

    /** The removal loop of the sanitiser: one Replace(c, "") per character. */
    static method RemoveEach(spaced: string, invalidChars: seq<char>) returns (fileName: string)
      ensures fileName == StripChars(spaced, invalidChars)
    {
      fileName := spaced;
      StripNothing(spaced);
      assert invalidChars[..0] == [];
      var i := 0;
      while i < |invalidChars|
        invariant 0 <= i <= |invalidChars|
        invariant fileName == StripChars(spaced, invalidChars[..i])
      {
        StripOneMore(spaced, invalidChars, i);
        fileName := ReplaceAll(fileName, [invalidChars[i]], "");
        i := i + 1;
      }
      assert invalidChars[..i] == invalidChars;
    }

    /** The loop body of the queue builder for one candidate: a finished show
        leaves the map, and a candidate that is neither finished, too far
        away nor over the concurrency limit joins the queue in start order. */
    method TryQueue(recordInfo: RecordInfo, now: Time)
      modifies this
      ensures queuedRecordings
           == Admit(old(queuedRecordings), recordInfo, now, hoursInFuture, concurrentCaptures)
      ensures recordDict
           == if recordInfo.endDT < now then old(recordDict) - {RecordKey(recordInfo)} else old(recordDict)
    {
      var showAlreadyDone := recordInfo.endDT < now;
      var showTooFarAway := recordInfo.startDT > now + hoursInFuture * SecondsPerHour;
      var concurrencyOk := IsConcurrencyOk(recordInfo, queuedRecordings, concurrentCaptures);
      var tooManyConcurrent := !concurrencyOk;
      if showAlreadyDone {
        DeleteRecordInfo(recordInfo);
      }
      if !showAlreadyDone && !showTooFarAway && !tooManyConcurrent {
        queuedRecordings := AddToSortedList(recordInfo, queuedRecordings);
      }
    }

    /** Build the queue: delete finished candidates from the map and queue,
        in keyword-priority order, every candidate that is neither finished
        nor too far ahead and passes the concurrency trial. `order` is the
        enumeration of the map the source happened to use. */
    method GetShowsToQueue(now: Time) returns (queue: seq<RecordInfo>, ghost order: seq<RecordInfo>)
      requires Valid()
      modifies this
      ensures Valid()
      ensures IsEnumeration(order, old(recordDict))
      ensures queue == AdmitAll(SortByPos(order), now, hoursInFuture, concurrentCaptures)
      ensures queuedRecordings == queue
      ensures recordDict == Prune(old(recordDict), now)
    {
      queuedRecordings := [];
      var values := ValuesToList();
      order := values;
      var recordingList := SortBasedOnKeywordPos(values);
      SortByPosKeeps(values);
      var i := 0;
      while i < |recordingList|
        invariant 0 <= i <= |recordingList|
        invariant queuedRecordings == AdmitAll(recordingList[..i], now, hoursInFuture, concurrentCaptures)
        invariant recordDict == old(recordDict) - DoneKeys(recordingList[..i], now)
      {
        var recordInfo := recordingList[i];
        ghost var showAlreadyDone := recordInfo.endDT < now;
        TryQueue(recordInfo, now);
        DoneKeysStep(recordingList, i, now);
        MinusStep(old(recordDict), DoneKeys(recordingList[..i], now), RecordKey(recordInfo), showAlreadyDone);
        AdmitAllStep(recordingList, i, now, hoursInFuture, concurrentCaptures);
        i := i + 1;
      }
      assert recordingList[..i] == recordingList;
      DoneKeysPrune(recordingList, old(recordDict), now);
      queue := queuedRecordings;
    }

    /** One schedule refresh: reconcile the map with every show of the
        schedule, then build the queue from the reconciled map. */
    method BuildRecordSchedule(m: TextMatcher, rules: seq<KeywordInfo>, scheduleShowList: seq<ScheduleShow>,
                               platformInvalid: seq<char>, now: Time)
      returns (queue: seq<RecordInfo>, ghost order: seq<RecordInfo>)
      requires Valid()
      modifies this
      ensures Valid()
      ensures var reconciled := ReconcileAll(old(recordDict), m, rules, scheduleShowList, UnsafeChars + platformInvalid);
              && IsEnumeration(order, reconciled)
              && recordDict == Prune(reconciled, now)
              && queue == AdmitAll(SortByPos(order), now, hoursInFuture, concurrentCaptures)
      ensures queuedRecordings == queue
    {
      var strip := UnsafeChars + platformInvalid;
      var n := 0;
      while n < |scheduleShowList|
        invariant 0 <= n <= |scheduleShowList|
        invariant recordDict == ReconcileAll(old(recordDict), m, rules, scheduleShowList[..n], strip)
        invariant Valid()
      {
        var scheduleShow := scheduleShowList[n];
        ReconcileShowEffect(recordDict, m, rules, scheduleShow, strip);
        var tuple := FindMatch(m, rules, scheduleShow.name);
        if tuple.Some? {
          var (keywordInfo, pos) := tuple.value;
          var recordInfo := GetRecordInfo(ShowKey(scheduleShow));
          var fileName := SanitizeFileName(scheduleShow.name, keywordInfo.starredFlag, platformInvalid);
          recordInfo := FillRecord(recordInfo, scheduleShow, keywordInfo, pos, fileName);
          AddUpdateRecordInfo(RecordKey(recordInfo), recordInfo);
        }
        assert scheduleShowList[..n + 1][..n] == scheduleShowList[..n];
        n := n + 1;
      }
      assert scheduleShowList[..n] == scheduleShowList;
      queue, order := GetShowsToQueue(now);
    }
  }
}
