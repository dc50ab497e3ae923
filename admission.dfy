/**
 * The admission algorithms of the scheduler: the start-ordered insert, the
 * keyword-priority insertion sort, the interval-overlap sweep that bounds the
 * number of simultaneous captures, and the admission pass that combines them.
 *
 * Each method follows the loops of the source and is proved equal to a
 * specification function; the properties the scheduler relies on are proved
 * about those functions.
 */
module Admission {
  import opened Records

  // ================================================================ start-time order

  predicate StartSorted(l: seq<RecordInfo>)
  {
    forall i, j :: 0 <= i < j < |l| ==> l[i].startDT <= l[j].startDT
  }

  /** No record appears twice. */
  predicate Distinct(l: seq<RecordInfo>)
  {
    forall i, j :: 0 <= i < j < |l| ==> l[i] != l[j]
  }

  /** Where the sorted insert puts a record: before the first element that
      starts strictly later, or at the end when there is none. */
  function StartInsertPos(r: RecordInfo, l: seq<RecordInfo>): (k: nat)
    ensures k <= |l|
    ensures forall j :: 0 <= j < k ==> l[j].startDT <= r.startDT
    ensures k < |l| ==> r.startDT < l[k].startDT
  {
    if l == [] || r.startDT < l[0].startDT then 0 else 1 + StartInsertPos(r, l[1..])
  }

  /** List.Insert(k, r): `s` with `r` placed at index `k`, the elements
      before it unmoved and the ones from `k` on shifted by one. */
  function InsertAt(s: seq<RecordInfo>, k: nat, r: RecordInfo): seq<RecordInfo>
    requires k <= |s|
  {
    s[..k] + [r] + s[k..]
  }

  lemma InsertAtIndex(s: seq<RecordInfo>, k: nat, r: RecordInfo)
    requires k <= |s|
    ensures var res := InsertAt(s, k, r);
            && |res| == |s| + 1 && res[k] == r
            && (forall i :: 0 <= i < k ==> res[i] == s[i])
            && (forall i :: k < i < |res| ==> res[i] == s[i - 1])
  {
  }

  /** An insert adds exactly the one element and loses none. */
  lemma InsertAtContents(s: seq<RecordInfo>, k: nat, r: RecordInfo)
    requires k <= |s|
    ensures multiset(InsertAt(s, k, r)) == multiset(s) + multiset{r}
    ensures forall x :: x in InsertAt(s, k, r) <==> x == r || x in s
  {
    assert s == s[..k] + s[k..];
    var res := InsertAt(s, k, r);
    forall x ensures x in res <==> x == r || x in s {
      calc {
        x in res;
        x in multiset(res);
        x in multiset(s) + multiset{r};
        x == r || x in s;
      }
    }
  }

  /** The list with `r` inserted after every element that starts no later. */
  function InsertByStart(r: RecordInfo, l: seq<RecordInfo>): seq<RecordInfo>
  {
    InsertAt(l, StartInsertPos(r, l), r)
  }

  /** The insert keeps a start-sorted list start-sorted. */
  lemma InsertByStartSorted(r: RecordInfo, l: seq<RecordInfo>)
    requires StartSorted(l)
    ensures StartSorted(InsertByStart(r, l))
  {
    var k := StartInsertPos(r, l);
    var res := InsertByStart(r, l);
    InsertAtIndex(l, k, r);
    forall i, j | 0 <= i < j < |res| ensures res[i].startDT <= res[j].startDT {
      if j < k {
        assert res[i] == l[i] && res[j] == l[j];
      } else if j == k {
        assert res[i] == l[i];
      } else if i < k {
        assert res[i] == l[i] && res[j] == l[j - 1];
        assert l[k].startDT <= l[j - 1].startDT;
      } else if i == k {
        assert res[j] == l[j - 1];
        assert l[k].startDT <= l[j - 1].startDT;
      } else {
        assert res[i] == l[i - 1] && res[j] == l[j - 1];
      }
    }
  }

  /** Inserting a record that is not yet present keeps a list free of repeats. */
  lemma InsertAtDistinct(s: seq<RecordInfo>, k: nat, r: RecordInfo)
    requires k <= |s| && Distinct(s) && r !in s
    ensures Distinct(InsertAt(s, k, r))
  {
    var res := InsertAt(s, k, r);
    InsertAtIndex(s, k, r);
    forall i, j | 0 <= i < j < |res| ensures res[i] != res[j] {
      if i == k {
        assert res[j] == s[j - 1];
      } else if j == k {
        assert res[i] == s[i];
      } else {
        var i' := if i < k then i else i - 1;
        var j' := if j < k then j else j - 1;
        assert res[i] == s[i'] && res[j] == s[j'] && i' < j';
      }
    }
  }

  /** Appending a record that is not yet present keeps a list free of repeats. */
  lemma AppendDistinct(s: seq<RecordInfo>, r: RecordInfo)
    requires Distinct(s) && r !in s
    ensures Distinct(s + [r])
  {
    InsertAtDistinct(s, |s|, r);
    assert InsertAt(s, |s|, r) == s + [r];
  }

  /** List.Insert / List.Add as the source's AddToSortedList uses them: scan
      for the first element with a strictly later start. */
  method AddToSortedList(recordInfoToAdd: RecordInfo, list: seq<RecordInfo>) returns (result: seq<RecordInfo>)
    ensures result == InsertByStart(recordInfoToAdd, list)
  {
    var idx := 0;
    while idx < |list|
      invariant 0 <= idx <= |list|
      invariant forall j :: 0 <= j < idx ==> list[j].startDT <= recordInfoToAdd.startDT
    {
      if recordInfoToAdd.startDT < list[idx].startDT {
        assert idx == StartInsertPos(recordInfoToAdd, list);
        return list[..idx] + [recordInfoToAdd] + list[idx..];
      }
      idx := idx + 1;
    }
    assert |list| == StartInsertPos(recordInfoToAdd, list);
    assert list[..|list|] == list && list[|list|..] == [];
    return list + [recordInfoToAdd];
  }

  // ================================================================ keyword-priority order

  predicate PosSorted(l: seq<RecordInfo>)
  {
    forall i, j :: 0 <= i < j < |l| ==> l[i].keywordPos <= l[j].keywordPos
  }

  /** Where the priority sort puts a record: before the first element whose
      position is not smaller, so ahead of the ones with an equal position. */
  function PosInsertPos(r: RecordInfo, s: seq<RecordInfo>): (k: nat)
    ensures k <= |s|
    ensures forall j :: 0 <= j < k ==> s[j].keywordPos < r.keywordPos
    ensures k < |s| ==> r.keywordPos <= s[k].keywordPos
  {
    if s == [] || r.keywordPos <= s[0].keywordPos then 0 else 1 + PosInsertPos(r, s[1..])
  }

  function InsertByPos(r: RecordInfo, s: seq<RecordInfo>): seq<RecordInfo>
  {
    InsertAt(s, PosInsertPos(r, s), r)
  }

  /** The insert keeps a priority-sorted list sorted. */
  lemma InsertByPosSorted(r: RecordInfo, s: seq<RecordInfo>)
    requires PosSorted(s)
    ensures PosSorted(InsertByPos(r, s))
  {
    var k := PosInsertPos(r, s);
    var res := InsertByPos(r, s);
    InsertAtIndex(s, k, r);
    forall i, j | 0 <= i < j < |res| ensures res[i].keywordPos <= res[j].keywordPos {
      if j < k {
        assert res[i] == s[i] && res[j] == s[j];
      } else if j == k {
        assert res[i] == s[i];
      } else if i < k {
        assert res[i] == s[i] && res[j] == s[j - 1];
        assert s[k].keywordPos <= s[j - 1].keywordPos;
      } else if i == k {
        assert res[j] == s[j - 1];
        assert s[k].keywordPos <= s[j - 1].keywordPos;
      } else {
        assert res[i] == s[i - 1] && res[j] == s[j - 1];
      }
    }
  }

  /** The outcome of the priority sort: the elements inserted one after
      another, in input order, into an initially empty list. */
  function SortByPos(l: seq<RecordInfo>): (res: seq<RecordInfo>)
    ensures |res| == |l|
  {
    if l == [] then [] else InsertByPos(l[|l| - 1], SortByPos(l[..|l| - 1]))
  }

  /** The sort returns a permutation of its input, ordered by keyword
      position. */
  lemma {:induction false} SortByPosSortsAndPermutes(l: seq<RecordInfo>)
    ensures |SortByPos(l)| == |l|
    ensures multiset(SortByPos(l)) == multiset(l)
    ensures PosSorted(SortByPos(l))
    decreases |l|
  {
    if l != [] {
      var init := l[..|l| - 1];
      var x := l[|l| - 1];
      SortByPosSortsAndPermutes(init);
      var sorted := SortByPos(init);
      assert l == init + [x];
      InsertAtContents(sorted, PosInsertPos(x, sorted), x);
      InsertByPosSorted(x, sorted);
    }
  }

  /** The scan's stopping index is the insert position. */
  lemma InsertByPosAt(r: RecordInfo, s: seq<RecordInfo>, k: nat)
    requires k <= |s|
    requires forall j :: 0 <= j < k ==> s[j].keywordPos < r.keywordPos
    requires k < |s| ==> r.keywordPos <= s[k].keywordPos
    ensures InsertByPos(r, s) == s[..k] + [r] + s[k..]
    ensures k == |s| ==> InsertByPos(r, s) == s + [r]
  {
    assert k == PosInsertPos(r, s);
    assert s[..|s|] == s;
  }

  /** One more element of the input is one more insert. */
  lemma SortByPosStep(l: seq<RecordInfo>, n: nat)
    requires n < |l|
    ensures SortByPos(l[..n + 1]) == InsertByPos(l[n], SortByPos(l[..n]))
  {
    assert l[..n + 1][..n] == l[..n];
  }

  /** The source's SortBasedOnKeywordPos: for every record, scan the list
      built so far and insert before the first element whose keyword
      position is not smaller; append when there is none. */
  method SortBasedOnKeywordPos(listToBeSorted: seq<RecordInfo>) returns (sortedList: seq<RecordInfo>)
    ensures sortedList == SortByPos(listToBeSorted)
  {
    sortedList := [];
    var n := 0;
    while n < |listToBeSorted|
      invariant 0 <= n <= |listToBeSorted|
      invariant sortedList == SortByPos(listToBeSorted[..n])
    {
      var recordInfo := listToBeSorted[n];
      var insertedFlag := false;
      var sortedArray := sortedList;
      var idx := 0;
      while idx < |sortedArray|
        invariant 0 <= idx <= |sortedArray|
        invariant sortedList == sortedArray
        invariant forall j :: 0 <= j < idx ==> sortedArray[j].keywordPos < recordInfo.keywordPos
      {
        if recordInfo.keywordPos <= sortedArray[idx].keywordPos {
          InsertByPosAt(recordInfo, sortedArray, idx);
          sortedList := sortedList[..idx] + [recordInfo] + sortedList[idx..];
          insertedFlag := true;
          break;
        }
        idx := idx + 1;
      }
      if !insertedFlag {
        InsertByPosAt(recordInfo, sortedArray, |sortedArray|);
        sortedList := sortedList + [recordInfo];
      }
      SortByPosStep(listToBeSorted, n);
      n := n + 1;
    }
    assert listToBeSorted[..n] == listToBeSorted;
  }

  // ---------------------------------------------------------------- ties

  /** The elements with keyword position `p`, in order. */
  function WithPos(s: seq<RecordInfo>, p: int): seq<RecordInfo>
  {
    if s == [] then []
    else WithPos(s[..|s| - 1], p) + (if s[|s| - 1].keywordPos == p then [s[|s| - 1]] else [])
  }

  function Reverse<T>(s: seq<T>): seq<T>
  {
    if s == [] then [] else [s[|s| - 1]] + Reverse(s[..|s| - 1])
  }

  lemma {:induction false} WithPosAppend(a: seq<RecordInfo>, b: seq<RecordInfo>, p: int)
    ensures WithPos(a + b, p) == WithPos(a, p) + WithPos(b, p)
    decreases |b|
  {
    if b != [] {
      var b' := b[..|b| - 1];
      assert (a + b)[..|a + b| - 1] == a + b';
      WithPosAppend(a, b', p);
    } else {
      assert a + b == a;
    }
  }

  lemma {:induction false} WithPosNone(s: seq<RecordInfo>, p: int)
    requires forall i :: 0 <= i < |s| ==> s[i].keywordPos != p
    ensures WithPos(s, p) == []
    decreases |s|
  {
    if s != [] {
      WithPosNone(s[..|s| - 1], p);
    }
  }

  /** The records with a position, around an inserted record. */
  lemma WithPosAround(before: seq<RecordInfo>, r: RecordInfo, after: seq<RecordInfo>, p: int)
    ensures WithPos(before + [r] + after, p)
         == WithPos(before, p) + (if r.keywordPos == p then [r] else []) + WithPos(after, p)
  {
    WithPosAppend(before + [r], after, p);
    WithPosAppend(before, [r], p);
    assert [r][..0] == [];
  }

  /** The insert puts the new record ahead of all records with the same
      keyword position. */
  lemma InsertByPosWithPos(r: RecordInfo, s: seq<RecordInfo>, p: int)
    ensures WithPos(InsertByPos(r, s), p)
         == (if r.keywordPos == p then [r] else []) + WithPos(s, p)
  {
    var k := PosInsertPos(r, s);
    var before, after := s[..k], s[k..];
    assert InsertByPos(r, s) == before + [r] + after;
    assert s == before + after;
    WithPosAround(before, r, after, p);
    WithPosAppend(before, after, p);
    if r.keywordPos == p {
      WithPosNone(before, p);
    }
  }

  /** Records with equal keyword positions come out of the sort in the
      reverse of their input order. */
  lemma {:induction false} SortByPosReversesTies(l: seq<RecordInfo>, p: int)
    ensures WithPos(SortByPos(l), p) == Reverse(WithPos(l, p))
    decreases |l|
  {
    if l != [] {
      var init := l[..|l| - 1];
      var x := l[|l| - 1];
      SortByPosReversesTies(init, p);
      InsertByPosWithPos(x, SortByPos(init), p);
      assert SortByPos(l) == InsertByPos(x, SortByPos(init));
      if x.keywordPos == p {
        var w := WithPos(init, p) + [x];
        assert WithPos(l, p) == w;
        assert w[..|w| - 1] == WithPos(init, p);
      } else {
        assert WithPos(l, p) == WithPos(init, p) + [] == WithPos(init, p);
        assert WithPos(SortByPos(l), p) == [] + WithPos(SortByPos(init), p) == WithPos(SortByPos(init), p);
      }
    }
  }

  // ================================================================ concurrency sweep

  /** The end times kept after removing every end time not after `t`. */
  function FilterAbove(ends: seq<Time>, t: Time): seq<Time>
  {
    if ends == [] then []
    else FilterAbove(ends[..|ends| - 1], t) + (if ends[|ends| - 1] > t then [ends[|ends| - 1]] else [])
  }

  /** Every end time kept is after `t`, and every one after `t` is kept. */
  lemma {:induction false} FilterAboveKeeps(ends: seq<Time>, t: Time)
    ensures forall x :: x in FilterAbove(ends, t) <==> x in ends && x > t
    decreases |ends|
  {
    if ends != [] {
      var init := ends[..|ends| - 1];
      FilterAboveKeeps(init, t);
      assert ends == init + [ends[|ends| - 1]];
    }
  }

  /** The end-time list of the sweep after the first `n` elements: at each
      element the end times not after its start are removed and its own end
      time is pushed. */
  function StackAfter(l: seq<RecordInfo>, n: nat): seq<Time>
    requires n <= |l|
  {
    if n == 0 then [] else FilterAbove(StackAfter(l, n - 1), l[n - 1].startDT) + [l[n - 1].endDT]
  }

  /** The sweep's `concurrent` counter once element `n` has been counted:
      the captures still running at its start, plus itself. */
  function SweepCount(l: seq<RecordInfo>, n: nat): int
    requires n < |l|
  {
    |FilterAbove(StackAfter(l, n), l[n].startDT)| + 1
  }

  /** The sweep's verdict: the counter never exceeds the cap. */
  predicate SweepOk(l: seq<RecordInfo>, maxConcurrent: int)
  {
    forall n :: 0 <= n < |l| ==> SweepCount(l, n) <= maxConcurrent
  }

  /** List.Remove: drop the first occurrence of `x`, if any. */
  function RemoveFirst(s: seq<Time>, x: Time): seq<Time>
  {
    if s == [] then [] else if s[0] == x then s[1..] else [s[0]] + RemoveFirst(s[1..], x)
  }

  lemma {:induction false} RemoveFirstAfter(kept: seq<Time>, rest: seq<Time>, x: Time)
    requires x !in kept && rest != [] && rest[0] == x
    ensures RemoveFirst(kept + rest, x) == kept + rest[1..]
    decreases |kept|
  {
    if kept == [] {
      assert kept + rest == rest;
    } else {
      assert (kept + rest)[1..] == kept[1..] + rest;
      RemoveFirstAfter(kept[1..], rest, x);
      assert kept == [kept[0]] + kept[1..];
    }
  }

  /** One step of the sweep's inner loop over the snapshot `arr` of the
      stack: an end time not after `start` is removed from the stack, any
      other is kept. */
  /** Once the ended captures are dropped, the stack holds what the
      counter counts, and pushing the new end time gives the next stack. */
  lemma SweepOuterStep(l: seq<RecordInfo>, n: nat, dropped: seq<Time>)
    requires n < |l|
    requires dropped == FilterAbove(StackAfter(l, n), l[n].startDT)
    ensures |dropped| + 1 == SweepCount(l, n)
    ensures dropped + [l[n].endDT] == StackAfter(l, n + 1)
  {
  }

  lemma SweepDropStep(arr: seq<Time>, i: nat, start: Time, stack: seq<Time>)
    requires i < |arr|
    requires stack == FilterAbove(arr[..i], start) + arr[i..]
    ensures start >= arr[i] ==> RemoveFirst(stack, arr[i]) == FilterAbove(arr[..i + 1], start) + arr[i + 1..]
    ensures start >= arr[i] ==> |RemoveFirst(stack, arr[i])| == |stack| - 1
    ensures start < arr[i] ==> stack == FilterAbove(arr[..i + 1], start) + arr[i + 1..]
  {
    var kept := FilterAbove(arr[..i], start);
    assert arr[..i + 1][..i] == arr[..i];
    assert FilterAbove(arr[..i + 1], start)
        == kept + (if arr[i] > start then [arr[i]] else []);
    if start >= arr[i] {
      FilterAboveKeeps(arr[..i], start);
      RemoveFirstAfter(kept, arr[i..], arr[i]);
      assert arr[i..][1..] == arr[i + 1..];
    } else {
      assert arr[i..] == [arr[i]] + arr[i + 1..];
    }
  }

  /** The inner loop of the sweep: every end time not after `start` is
      removed from a copy of the stack, and `ended` counts the removals. */
  method DropEnded(endTimeArray: seq<Time>, start: Time) returns (endTimeStack: seq<Time>, ended: nat)
    ensures endTimeStack == FilterAbove(endTimeArray, start)
    ensures |endTimeStack| + ended == |endTimeArray|
  {
    endTimeStack := endTimeArray;
    ended := 0;
    var i := 0;
    while i < |endTimeArray|
      invariant 0 <= i <= |endTimeArray|
      invariant endTimeStack == FilterAbove(endTimeArray[..i], start) + endTimeArray[i..]
      invariant |endTimeStack| + ended == |endTimeArray|
    {
      SweepDropStep(endTimeArray, i, start, endTimeStack);
      if start >= endTimeArray[i] {
        ended := ended + 1;
        endTimeStack := RemoveFirst(endTimeStack, endTimeArray[i]);
      }
      i := i + 1;
    }
    assert endTimeArray[..i] == endTimeArray && endTimeArray[i..] == [];
  }

  /** The source's IsConcurrencyOk: a trial insert into a copy of the list,
      then one pass over the trial list that keeps the end times of the
      captures still running in `endTimeStack` and their number in
      `concurrent`. The input list is a value and is left unchanged. */
  method IsConcurrencyOk(recordingToAdd: RecordInfo, recordingList: seq<RecordInfo>, maxConcurrent: int)
    returns (okToAddFlag: bool)
    ensures okToAddFlag == SweepOk(InsertByStart(recordingToAdd, recordingList), maxConcurrent)
  {
    var tempList := AddToSortedList(recordingToAdd, recordingList);
    okToAddFlag := true;
    var endTimeStack: seq<Time> := [];
    var concurrent := 0;
    var idx := 0;
    while idx < |tempList|
      invariant 0 <= idx <= |tempList|
      invariant endTimeStack == StackAfter(tempList, idx)
      invariant concurrent == |endTimeStack|
      invariant okToAddFlag == (forall n :: 0 <= n < idx ==> SweepCount(tempList, n) <= maxConcurrent)
    {
      concurrent := concurrent + 1;
      var start := tempList[idx].startDT;
      var ended;
      endTimeStack, ended := DropEnded(endTimeStack, start);
      concurrent := concurrent - ended;
      SweepOuterStep(tempList, idx, endTimeStack);
      endTimeStack := endTimeStack + [tempList[idx].endDT];
      if concurrent > maxConcurrent {
        okToAddFlag := false;
      }
      assert (forall n :: 0 <= n < idx + 1 ==> SweepCount(tempList, n) <= maxConcurrent)
          == ((forall n :: 0 <= n < idx ==> SweepCount(tempList, n) <= maxConcurrent)
              && SweepCount(tempList, idx) <= maxConcurrent);
      idx := idx + 1;
    }
  }

  // ---------------------------------------------------------------- what the sweep counts

  /** How many of the records end after `t`. */
  function CountEndingAfter(rs: seq<RecordInfo>, t: Time): nat
  {
    if rs == [] then 0
    else CountEndingAfter(rs[..|rs| - 1], t) + (if rs[|rs| - 1].endDT > t then 1 else 0)
  }

  /** One plus the number of earlier elements still running when element
      `n` starts. */
  function Concurrency(l: seq<RecordInfo>, n: nat): nat
    requires n < |l|
  {
    1 + CountEndingAfter(l[..n], l[n].startDT)
  }

  /** No element of the list starts while `maxConcurrent` or more earlier
      elements are still running. */
  predicate NoOverload(l: seq<RecordInfo>, maxConcurrent: int)
  {
    forall n :: 0 <= n < |l| ==> Concurrency(l, n) <= maxConcurrent
  }

  lemma {:induction false} FilterAboveAppend(a: seq<Time>, b: seq<Time>, t: Time)
    ensures FilterAbove(a + b, t) == FilterAbove(a, t) + FilterAbove(b, t)
    decreases |b|
  {
    if b == [] {
      assert a + b == a;
    } else {
      var b' := b[..|b| - 1];
      assert (a + b)[..|a + b| - 1] == a + b';
      FilterAboveAppend(a, b', t);
    }
  }

  lemma {:induction false} FilterAboveTwice(x: seq<Time>, a: Time, b: Time)
    requires a <= b
    ensures FilterAbove(FilterAbove(x, a), b) == FilterAbove(x, b)
    decreases |x|
  {
    if x != [] {
      var x' := x[..|x| - 1];
      var e := x[|x| - 1];
      FilterAboveTwice(x', a, b);
      var kept := if e > a then [e] else [];
      FilterAboveAppend(FilterAbove(x', a), kept, b);
      assert FilterAbove(kept, b) == (if e > b then [e] else []) by {
        if e > a {
          assert [e][..0] == [];
        }
      }
    }
  }

  lemma CountEndingAfterStep(l: seq<RecordInfo>, n: nat, t: Time)
    requires 0 < n <= |l|
    ensures CountEndingAfter(l[..n], t)
         == CountEndingAfter(l[..n - 1], t) + (if l[n - 1].endDT > t then 1 else 0)
  {
    assert l[..n][..n - 1] == l[..n - 1];
  }

  /** One sweep step seen from a later instant: dropping the stack at the
      step's start and pushing its end, then filtering at `t`, keeps what
      filtering at `t` kept plus the new end when it is after `t`. */
  lemma FilterAbovePush(prev: seq<Time>, s: Time, e: Time, t: Time)
    requires s <= t
    ensures FilterAbove(FilterAbove(prev, s) + [e], t)
         == FilterAbove(prev, t) + (if e > t then [e] else [])
  {
    FilterAboveAppend(FilterAbove(prev, s), [e], t);
    assert [e][..0] == [];
    FilterAboveTwice(prev, s, t);
  }

  /** The stack's survivors at `t` grow by one step of the sweep. */
  lemma StackAfterStep(l: seq<RecordInfo>, n: nat, t: Time)
    requires 0 < n <= |l| && l[n - 1].startDT <= t
    ensures |FilterAbove(StackAfter(l, n), t)|
         == |FilterAbove(StackAfter(l, n - 1), t)| + (if l[n - 1].endDT > t then 1 else 0)
  {
    var prev := StackAfter(l, n - 1);
    var e := l[n - 1].endDT;
    FilterAbovePush(prev, l[n - 1].startDT, e, t);
  }

  /** Filtering the sweep's stack after `n` elements at an instant no earlier
      than any of their starts keeps exactly the records ending after that
      instant. */
  lemma {:induction false} StackCountsRunning(l: seq<RecordInfo>, n: nat, t: Time)
    requires n <= |l|
    requires forall i :: 0 <= i < n ==> l[i].startDT <= t
    ensures |FilterAbove(StackAfter(l, n), t)| == CountEndingAfter(l[..n], t)
    decreases n
  {
    if n > 0 {
      StackAfterStep(l, n, t);
      StackCountsRunning(l, n - 1, t);
      CountEndingAfterStep(l, n, t);
    } else {
      assert l[..n] == [];
    }
  }

  /** On a start-sorted list the sweep's counter is the number of captures
      running at each start, so the sweep accepts exactly the lists that are
      never overloaded. */
  lemma SweepOkIffNoOverload(l: seq<RecordInfo>, maxConcurrent: int)
    requires StartSorted(l)
    ensures SweepOk(l, maxConcurrent) <==> NoOverload(l, maxConcurrent)
  {
    forall n | 0 <= n < |l| ensures SweepCount(l, n) == Concurrency(l, n) {
      assert forall i :: 0 <= i < n ==> l[i].startDT <= l[n].startDT;
      StackCountsRunning(l, n, l[n].startDT);
    }
  }

  // ---------------------------------------------------------------- every instant

  /** How many records are running at instant `t`, each over [start, end). */
  function ActiveAt(rs: seq<RecordInfo>, t: Time): nat
  {
    if rs == [] then 0
    else ActiveAt(rs[..|rs| - 1], t)
         + (if rs[|rs| - 1].startDT <= t < rs[|rs| - 1].endDT then 1 else 0)
  }

  lemma {:induction false} ActiveIsEndingAfter(rs: seq<RecordInfo>, t: Time)
    requires forall i :: 0 <= i < |rs| ==> rs[i].startDT <= t
    ensures ActiveAt(rs, t) == CountEndingAfter(rs, t)
    decreases |rs|
  {
    if rs != [] {
      ActiveIsEndingAfter(rs[..|rs| - 1], t);
    }
  }

  lemma {:induction false} CountEndingAfterAntitone(rs: seq<RecordInfo>, a: Time, b: Time)
    requires a <= b
    ensures CountEndingAfter(rs, b) <= CountEndingAfter(rs, a)
    decreases |rs|
  {
    if rs != [] {
      CountEndingAfterAntitone(rs[..|rs| - 1], a, b);
    }
  }

  /** A start-sorted list that is never overloaded at a start instant is
      never overloaded at any instant. */
  lemma {:induction false} NoOverloadAtEveryInstant(l: seq<RecordInfo>, maxConcurrent: int, t: Time)
    requires StartSorted(l) && NoOverload(l, maxConcurrent) && maxConcurrent >= 0
    ensures ActiveAt(l, t) <= maxConcurrent
    decreases |l|
  {
    if l != [] {
      var last := |l| - 1;
      var init := l[..last];
      if l[last].startDT > t {
        assert NoOverload(init, maxConcurrent) by {
          forall n | 0 <= n < |init| ensures Concurrency(init, n) == Concurrency(l, n) {
            assert init[..n] == l[..n];
          }
        }
        NoOverloadAtEveryInstant(init, maxConcurrent, t);
      } else {
        ActiveIsEndingAfter(l, t);
        CountEndingAfterAntitone(init, l[last].startDT, t);
        assert l[..last] == init;
        assert Concurrency(l, last) <= maxConcurrent;
      }
    }
  }

  // ================================================================ admission pass

  /** Neither finished (the end is not before `now`) nor too far ahead (the
      start is within `hoursInFuture` hours of `now`). */
  predicate Eligible(r: RecordInfo, now: Time, hoursInFuture: int)
  {
    !(r.endDT < now) && !(r.startDT > now + hoursInFuture * SecondsPerHour)
  }

  /** The concurrency trial of `r` against the queue built so far. */
  predicate TrialOk(r: RecordInfo, queue: seq<RecordInfo>, maxConcurrent: int)
  {
    SweepOk(InsertByStart(r, queue), maxConcurrent)
  }

  /** One candidate of the admission pass. The spawn flag plays no part:
      a candidate that was already spawned is queued like any other. */
  function Admit(queue: seq<RecordInfo>, r: RecordInfo, now: Time, hoursInFuture: int, maxConcurrent: int)
    : seq<RecordInfo>
  {
    if Eligible(r, now, hoursInFuture) && TrialOk(r, queue, maxConcurrent)
    then InsertByStart(r, queue) else queue
  }

  /** The queue after the candidates have been tried in the given order. */
  function AdmitAll(l: seq<RecordInfo>, now: Time, hoursInFuture: int, maxConcurrent: int): seq<RecordInfo>
  {
    if l == [] then []
    else Admit(AdmitAll(l[..|l| - 1], now, hoursInFuture, maxConcurrent), l[|l| - 1],
               now, hoursInFuture, maxConcurrent)
  }

  /** The queue is start-sorted, passes the sweep as a whole, and holds only
      eligible candidates, each at most once. */
  lemma {:induction false} AdmissionInvariant(l: seq<RecordInfo>, now: Time, hoursInFuture: int, maxConcurrent: int)
    ensures var q := AdmitAll(l, now, hoursInFuture, maxConcurrent);
            && StartSorted(q)
            && SweepOk(q, maxConcurrent)
            && (forall r :: r in q ==> r in l && Eligible(r, now, hoursInFuture))
            && (Distinct(l) ==> Distinct(q))
    decreases |l|
  {
    if l != [] {
      var init := l[..|l| - 1];
      var x := l[|l| - 1];
      AdmissionInvariant(init, now, hoursInFuture, maxConcurrent);
      var q := AdmitAll(init, now, hoursInFuture, maxConcurrent);
      assert l == init + [x];
      if Eligible(x, now, hoursInFuture) && TrialOk(x, q, maxConcurrent) {
        InsertAtContents(q, StartInsertPos(x, q), x);
        InsertByStartSorted(x, q);
        if Distinct(l) {
          LastNotEarlier(l);
          InsertAtDistinct(q, StartInsertPos(x, q), x);
        }
      }
    }
  }

  /** In a list without repeats the last element does not occur earlier. */
  lemma LastNotEarlier(l: seq<RecordInfo>)
    requires Distinct(l) && l != []
    ensures l[|l| - 1] !in l[..|l| - 1]
    ensures Distinct(l[..|l| - 1])
  {
    var init := l[..|l| - 1];
    forall i | 0 <= i < |init| ensures init[i] != l[|l| - 1] {
      assert init[i] == l[i];
    }
  }

  /** A candidate is queued exactly when it is eligible and its concurrency
      trial passes against the queue built from the candidates before it. */
  lemma {:induction false} AdmissionMembership(l: seq<RecordInfo>, i: nat, now: Time, hoursInFuture: int, maxConcurrent: int)
    requires Distinct(l) && i < |l|
    ensures l[i] in AdmitAll(l, now, hoursInFuture, maxConcurrent)
        <==> Eligible(l[i], now, hoursInFuture)
             && TrialOk(l[i], AdmitAll(l[..i], now, hoursInFuture, maxConcurrent), maxConcurrent)
    decreases |l|
  {
    var init := l[..|l| - 1];
    var x := l[|l| - 1];
    var q := AdmitAll(init, now, hoursInFuture, maxConcurrent);
    AdmissionInvariant(init, now, hoursInFuture, maxConcurrent);
    LastNotEarlier(l);
    InsertAtContents(q, StartInsertPos(x, q), x);
    if i == |l| - 1 {
      assert x !in q;
    } else {
      assert init[..i] == l[..i] && init[i] == l[i];
      AdmissionMembership(init, i, now, hoursInFuture, maxConcurrent);
      assert l[i] != x;
    }
  }
}
