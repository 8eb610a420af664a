/** Rings, the log of what the merge does with their records, and what that log promises. */
module OrderLog {

  /** A record of a ring buffer. Only samples carry a time. */
  datatype Record =
    | Sample(time: nat, size: nat)
    | Lost(count: nat, size: nat)
    | Other(size: nat)

  /**
   * One perf_mmap with its heap_event. `stream` is everything the kernel writes during the run; the
   * records below `end` are visible, those below `start` have been read. While the ring is in the
   * heap its head, record start - 1, is read but not yet handed over, and `time` is the head's
   * timestamp after repair.
   */
  datatype Ring = Ring(
    stream: seq<Record>, capacity: nat, watermark: nat, reportsLoss: bool,
    start: nat, end: nat, time: int, mono: int, maybeLostEnd: int, paused: bool)

  /** What happens to the records, in order. */
  datatype Event =
    | Delivered(ring: nat, index: nat, time: int)
    | Passed(ring: nat, index: nat)
    | Swallowed(ring: nat, index: nat)
    | LossAtInit(ring: nat, lossStart: int, lossEnd: int, count: nat, popped: int)
    | LossInLoop(ring: nat, lossStart: int, lossEnd: int, count: nat)
    | Emptied(ring: nat)

  predicate GoodRing(r: Ring) {
    r.start <= r.end <= |r.stream| && r.capacity > 0
  }

  /** Bytes of the first k records: the ring's offsets. */
  function Offset(stream: seq<Record>, k: nat): nat
    requires k <= |stream|
  {
    if k == 0 then 0 else Offset(stream, k - 1) + stream[k - 1].size
  }

  /** perf_mmap_has_space: CIRC_SPACE(end, start, capacity) >= size. */
  predicate HasSpace(r: Ring, size: nat)
    requires GoodRing(r)
  {
    (Offset(r.stream, r.start) - (Offset(r.stream, r.end) + 1)) % r.capacity >= size
  }

  /** With some bytes in the ring there is space for any number that does not fill it up. */
  lemma SpaceIs(r: Ring, used: nat, size: nat)
    requires GoodRing(r) && Offset(r.stream, r.end) == Offset(r.stream, r.start) + used && used < r.capacity
    ensures HasSpace(r, size) <==> used + size < r.capacity
  {
    hide Offset;
    var c: int := r.capacity;
    assert (-(used + 1)) % c == c - 1 - used by {
      Remainder(-(used + 1), c, c - 1 - used);
    }
  }

  lemma Remainder(x: int, c: int, r: int)
    requires c > 0 && 0 <= r < c && x == r - c
    ensures x % c == r
  {
  }

  // ---- the log --------------------------------------------------------------------------------

  /** Record `index` of a ring was handled: delivered as a sample, kept back as a loss to report, or passed on. */
  datatype Mark = Mark(index: nat, sample: bool, kept: bool)

  predicate Handles(e: Event, i: nat) { (e.Delivered? || e.Passed? || e.Swallowed?) && e.ring == i }

  /** Ring i's records in the order they were handled. */
  function Taken(log: seq<Event>, i: nat): seq<Mark> {
    if log == [] then []
    else
      var before, e := Taken(log[..|log| - 1], i), log[|log| - 1];
      if Handles(e, i) then before + [Mark(e.index, e.Delivered?, e.Swallowed?)] else before
  }

  /** The first n records in order, samples and losses to report told apart. */
  function Upto(stream: seq<Record>, reports: bool, n: nat): seq<Mark>
    requires n <= |stream|
  {
    if n == 0 then []
    else Upto(stream, reports, n - 1) + [Mark(n - 1, stream[n - 1].Sample?, stream[n - 1].Lost? && reports)]
  }

  lemma TakenAppend(log: seq<Event>, e: Event, i: nat)
    ensures Taken(log + [e], i) ==
            if Handles(e, i) then Taken(log, i) + [Mark(e.index, e.Delivered?, e.Swallowed?)] else Taken(log, i)
  {
    assert (log + [e])[..|log|] == log;
  }

  predicate Stamped(e: Event) { e.Delivered? || e.LossAtInit? || e.LossInLoop? }

  /** The popped time at a delivery or a report. */
  function At(e: Event): int
    requires Stamped(e)
  {
    match e
    case Delivered(_, _, time) => time
    case LossAtInit(_, _, _, _, popped) => popped
    case LossInLoop(_, lossStart, _, _) => lossStart
  }

  /** The time of a sample, or the start of a loss. */
  function Begin(e: Event): int
    requires Stamped(e)
  {
    if e.Delivered? then e.time else e.lossStart
  }

  /** No event of the log is later than p. */
  predicate AllBy(log: seq<Event>, p: int) {
    forall k :: 0 <= k < |log| && Stamped(log[k]) ==> At(log[k]) <= p
  }

  /** No sample or loss of ring i starts later than t. */
  predicate RingBy(log: seq<Event>, i: nat, t: int) {
    forall k :: 0 <= k < |log| && Stamped(log[k]) && log[k].ring == i ==> Begin(log[k]) <= t
  }

  /** Delivered samples never go back in time. */
  predicate InOrder(log: seq<Event>) {
    forall j, k :: 0 <= j < k < |log| && log[j].Delivered? && log[k].Delivered? ==> log[j].time <= log[k].time
  }

  /**
   * A loss is reported after every earlier and before every later sample and report. One found in the
   * loop starts at the popped time; one found when a ring is first read starts no later than that, and
   * no earlier than anything of its own ring.
   */
  predicate LossesSafe(log: seq<Event>) {
    && (forall j, k :: 0 <= j < k < |log| && Stamped(log[j]) && Stamped(log[k]) ==> At(log[j]) <= At(log[k]))
    && (forall k :: 0 <= k < |log| && log[k].LossAtInit? ==> log[k].lossStart <= log[k].popped <= log[k].lossEnd)
    && (forall k :: 0 <= k < |log| && log[k].LossAtInit? ==> RingBy(log[..k], log[k].ring, log[k].lossStart))
  }

  /** Everything the log promises at a popped time p. */
  predicate GoodLog(log: seq<Event>, p: int) {
    AllBy(log, p) && InOrder(log) && LossesSafe(log)
  }

  lemma GoodLogAppend(log: seq<Event>, p: int, e: Event, q: int)
    requires GoodLog(log, p) && p <= q
    requires Stamped(e) ==> p <= At(e) <= q
    requires e.LossAtInit? ==> e.lossStart <= e.popped <= e.lossEnd && RingBy(log, e.ring, e.lossStart)
    ensures GoodLog(log + [e], q)
  {
    hide RingBy;
    var rest := log + [e];
    forall k | 0 <= k < |rest| && rest[k].LossAtInit?
      ensures RingBy(rest[..k], rest[k].ring, rest[k].lossStart)
    {
      assert rest[..k] == log[..k];
      assert k == |log| ==> log[..k] == log;
    }
  }

  // ---- records on the way to the next sample ------------------------------------------------------

  /** A record that is not a sample is handed over, or kept back as a loss to report. */
  function Entry(rec: Record, reports: bool, i: nat, k: nat): Event {
    if rec.Lost? && reports then Swallowed(i, k) else Passed(i, k)
  }

  /** The entries of the records in from..last. */
  function Others(stream: seq<Record>, reports: bool, i: nat, from: nat, last: nat): seq<Event>
    requires from <= last <= |stream|
    decreases last
  {
    if from == last then [] else Others(stream, reports, i, from, last - 1) + [Entry(stream[last - 1], reports, i, last - 1)]
  }

  lemma {:induction false} OthersQuiet(stream: seq<Record>, reports: bool, i: nat, from: nat, last: nat)
    requires from <= last <= |stream|
    ensures forall k :: 0 <= k < |Others(stream, reports, i, from, last)| ==>
              var e := Others(stream, reports, i, from, last)[k]; e.Passed? || e.Swallowed?
    decreases last
  {
    if from < last {
      OthersQuiet(stream, reports, i, from, last - 1);
    }
  }

  /** The loss to report after the records in from..last: that of the last LOST record, or the one pending before. */
  function LossOf(stream: seq<Record>, reports: bool, from: nat, last: nat, before: nat): nat
    requires from <= last <= |stream|
    decreases last
  {
    if from == last then before
    else if stream[last - 1].Lost? && reports then stream[last - 1].count
    else LossOf(stream, reports, from, last - 1, before)
  }

  /** Where reading stopped: at the sample found, or at the end of what is visible. */
  function StopAt(b: Ring, found: bool): int { if found then b.start - 1 else b.start }

  /**
   * Ring i went from a to b by reading up to its next sample: these entries were made, then `report`,
   * and this loss was found.
   */
  predicate Passage(a: Ring, b: Ring, found: bool, i: nat, was: seq<Event>, now: seq<Event>, before: nat, loss: nat, report: seq<Event>) {
    && a.start <= StopAt(b, found) <= |a.stream|
    && now == was + Others(a.stream, a.reportsLoss, i, a.start, StopAt(b, found)) + report
    && loss == LossOf(a.stream, a.reportsLoss, a.start, StopAt(b, found), before)
    && (!found ==> b.start == b.end)
  }

  /** A pending loss is reported with the sample behind it. */
  function Report(found: bool, loss: nat, e: Event): seq<Event> {
    if !found then [Emptied(e.ring)] else if loss > 0 then [e] else []
  }

  // ---- what becomes of a LOST record ----------------------------------------------------------------

  /** Ring i reports `count` lost records, meets a later LOST record, or has nothing more to read. */
  predicate Answers(e: Event, i: nat, count: nat) {
    e.ring == i && (e.Swallowed? || e.Emptied? || ((e.LossAtInit? || e.LossInLoop?) && e.count == count))
  }

  /** From entry k on, only records of ring i are handed over. */
  predicate OnlyPassed(log: seq<Event>, i: nat, k: nat, m: nat) {
    m <= |log| && forall l :: k <= l < m ==> log[l].Passed? && log[l].ring == i
  }

  /** Entry k keeps back a LOST record with this count. */
  predicate KeepsLost(rings: seq<Ring>, log: seq<Event>, k: nat, count: nat) {
    && k < |log| && log[k].Swallowed? && log[k].ring < |rings| && log[k].index < |rings[log[k].ring].stream|
    && rings[log[k].ring].stream[log[k].index] == Lost(count, rings[log[k].ring].stream[log[k].index].size)
  }

  predicate AnsweredAt(log: seq<Event>, k: nat, count: nat)
    requires k < |log|
  {
    exists m :: k < m < |log| && Answers(log[m], log[k].ring, count) && OnlyPassed(log, log[k].ring, k + 1, m)
  }

  /**
   * Every LOST record that counts something is, with nothing but records of its own ring between,
   * reported with that ring and count, or superseded by the ring's next LOST record, or the last of the
   * visible records of its ring.
   */
  ghost predicate Answered(rings: seq<Ring>, log: seq<Event>) {
    forall k: nat, count: nat :: KeepsLost(rings, log, k, count) && count > 0 ==> AnsweredAt(log, k, count)
  }

  /** The same, but for a last LOST record of ring i that still waits with its count. */
  ghost predicate Open(rings: seq<Ring>, log: seq<Event>, i: nat, loss: nat) {
    forall k: nat, count: nat :: KeepsLost(rings, log, k, count) && count > 0 ==>
      AnsweredAt(log, k, count) || (log[k].ring == i && count == loss && OnlyPassed(log, i, k + 1, |log|))
  }

  lemma AnsweredStays(log: seq<Event>, e: Event, k: nat, count: nat)
    requires k < |log| && AnsweredAt(log, k, count)
    ensures AnsweredAt(log + [e], k, count)
  {
    var m :| k < m < |log| && Answers(log[m], log[k].ring, count) && OnlyPassed(log, log[k].ring, k + 1, m);
    assert Answers((log + [e])[m], (log + [e])[k].ring, count) && OnlyPassed(log + [e], log[k].ring, k + 1, m);
  }

  /** An entry that is no LOST record and answers none. */
  lemma AnsweredAppend(rings: seq<Ring>, log: seq<Event>, e: Event)
    requires Answered(rings, log) && !e.Swallowed?
    ensures Answered(rings, log + [e])
  {
    hide AnsweredAt;
    forall k: nat, count: nat | KeepsLost(rings, log + [e], k, count) && count > 0
      ensures AnsweredAt(log + [e], k, count)
    {
      assert KeepsLost(rings, log, k, count);
      AnsweredStays(log, e, k, count);
    }
  }

  /** The last delivered time of each ring bounds its samples and losses. */
  predicate RingsBy(rings: seq<Ring>, log: seq<Event>) {
    forall i :: 0 <= i < |rings| ==> RingBy(log, i, rings[i].mono)
  }

  lemma RingsAppend(rings: seq<Ring>, log: seq<Event>, e: Event)
    requires RingsBy(rings, log)
    requires Stamped(e) && e.ring < |rings| ==> Begin(e) <= rings[e.ring].mono
    ensures RingsBy(rings, log + [e])
  {
    forall i | 0 <= i < |rings|
      ensures RingBy(log + [e], i, rings[i].mono)
    {
      assert RingBy(log, i, rings[i].mono);
    }
  }

  lemma RingsQuiet(rings: seq<Ring>, log: seq<Event>, rest: seq<Event>)
    requires RingsBy(rings, log) && log <= rest && forall k :: |log| <= k < |rest| ==> !Stamped(rest[k])
    ensures RingsBy(rings, rest)
  {
    forall i | 0 <= i < |rings|
      ensures RingBy(rest, i, rings[i].mono)
    {
      assert RingBy(log, i, rings[i].mono);
      assert forall k :: 0 <= k < |log| ==> rest[k] == log[k];
    }
  }

  /** Rings hold the same records. */
  predicate SameStreams(a: seq<Ring>, b: seq<Ring>) {
    |a| == |b| && forall i :: 0 <= i < |a| ==> a[i].stream == b[i].stream
  }

  lemma AnsweredStreams(a: seq<Ring>, b: seq<Ring>, log: seq<Event>)
    requires Answered(a, log) && SameStreams(a, b)
    ensures Answered(b, log)
  {
    hide AnsweredAt;
    forall k: nat, count: nat | KeepsLost(b, log, k, count) && count > 0
      ensures AnsweredAt(log, k, count)
    {
      assert KeepsLost(a, log, k, count);
    }
  }

  /** The waiting record is answered by e. */
  lemma OpenAnswered(rings: seq<Ring>, log: seq<Event>, i: nat, loss: nat, e: Event, k: nat, count: nat)
    requires Open(rings, log, i, loss) && (loss > 0 ==> Answers(e, i, loss))
    requires KeepsLost(rings, log, k, count) && count > 0
    ensures AnsweredAt(log + [e], k, count)
  {
    if AnsweredAt(log, k, count) {
      AnsweredStays(log, e, k, count);
    } else {
      assert Answers((log + [e])[|log|], (log + [e])[k].ring, count) && OnlyPassed(log + [e], i, k + 1, |log|);
    }
  }

  /** One more record that is not a sample. */
  lemma OpenEntry(rings: seq<Ring>, log: seq<Event>, i: nat, at: nat, loss: nat)
    requires Open(rings, log, i, loss) && i < |rings| && at < |rings[i].stream|
    ensures var rec, reports := rings[i].stream[at], rings[i].reportsLoss;
            Open(rings, log + [Entry(rec, reports, i, at)], i, if rec.Lost? && reports then rec.count else loss)
  {
    hide AnsweredAt;
    var e := Entry(rings[i].stream[at], rings[i].reportsLoss, i, at);
    forall k: nat, count: nat | KeepsLost(rings, log + [e], k, count) && count > 0 && k < |log|
      ensures AnsweredAt(log + [e], k, count) || (!e.Swallowed? && log[k].ring == i && count == loss && OnlyPassed(log + [e], i, k + 1, |log| + 1))
    {
      assert KeepsLost(rings, log, k, count);
      if e.Swallowed? {
        OpenAnswered(rings, log, i, loss, e, k, count);
      } else if AnsweredAt(log, k, count) {
        AnsweredStays(log, e, k, count);
      }
    }
  }

  /** Reading on leaves at most the ring's last LOST record waiting. */
  lemma {:induction false} OthersOpen(rings: seq<Ring>, log: seq<Event>, i: nat, from: nat, last: nat, before: nat)
    requires Answered(rings, log) && i < |rings| && from <= last <= |rings[i].stream|
    ensures Open(rings, log + Others(rings[i].stream, rings[i].reportsLoss, i, from, last), i,
                 LossOf(rings[i].stream, rings[i].reportsLoss, from, last, before))
    decreases last
  {
    hide AnsweredAt, Open;
    var stream, reports := rings[i].stream, rings[i].reportsLoss;
    if from == last {
      assert log + Others(stream, reports, i, from, last) == log;
      AnsweredIsOpen(rings, log, i, before);
    } else {
      var done := log + Others(stream, reports, i, from, last - 1);
      OthersOpen(rings, log, i, from, last - 1, before);
      OpenEntry(rings, done, i, last - 1, LossOf(stream, reports, from, last - 1, before));
      assert log + Others(stream, reports, i, from, last) == done + [Entry(stream[last - 1], reports, i, last - 1)];
    }
  }

  lemma AnsweredIsOpen(rings: seq<Ring>, log: seq<Event>, i: nat, loss: nat)
    requires Answered(rings, log)
    ensures Open(rings, log, i, loss)
  {
    hide AnsweredAt;
  }

  /** The end of a passage answers the record that waits. */
  lemma OpenReported(rings: seq<Ring>, log: seq<Event>, i: nat, loss: nat, found: bool, e: Event)
    requires Open(rings, log, i, loss) && (e.LossAtInit? || e.LossInLoop?) && e.ring == i && e.count == loss
    ensures Answered(rings, log + Report(found, loss, e))
  {
    hide AnsweredAt, OnlyPassed;
    var report := Report(found, loss, e);
    forall k: nat, count: nat | KeepsLost(rings, log + report, k, count) && count > 0
      ensures AnsweredAt(log + report, k, count)
    {
      assert KeepsLost(rings, log, k, count);
      if report == [] {
        assert log + report == log;
      } else {
        OpenAnswered(rings, log, i, loss, report[0], k, count);
        assert log + report == log + [report[0]];
      }
    }
  }

  /** So a passage leaves no LOST record unanswered. */
  lemma PassageAnswered(rings: seq<Ring>, b: Ring, found: bool, i: nat, was: seq<Event>, now: seq<Event>, before: nat, loss: nat, e: Event)
    requires Answered(rings, was) && i < |rings|
    requires Passage(rings[i], b, found, i, was, now, before, loss, Report(found, loss, e))
    requires (e.LossAtInit? || e.LossInLoop?) && e.ring == i && e.count == loss
    ensures Answered(rings, now)
  {
    hide Answered, RingsBy, Open;
    OthersOpen(rings, was, i, rings[i].start, StopAt(b, found), before);
    OpenReported(rings, was + Others(rings[i].stream, rings[i].reportsLoss, i, rings[i].start, StopAt(b, found)), i, loss, found, e);
  }

  // ---- where a report comes from ----------------------------------------------------------------------

  predicate IsReport(e: Event) { e.LossAtInit? || e.LossInLoop? }

  /** Time of the last delivered sample of ring i, 0 if there is none. */
  function LastTime(log: seq<Event>, i: nat): int {
    if log == [] then 0
    else
      var e := log[|log| - 1];
      if e.Delivered? && e.ring == i then e.time else LastTime(log[..|log| - 1], i)
  }

  lemma LastTimeAppend(log: seq<Event>, e: Event, i: nat)
    ensures LastTime(log + [e], i) == if e.Delivered? && e.ring == i then e.time else LastTime(log, i)
  {
    assert (log + [e])[..|log|] == log;
  }

  /** Entry k keeps back the last LOST record before entry m, and nothing has been reported since. */
  ghost predicate LastKept(rings: seq<Ring>, log: seq<Event>, k: nat, m: nat, count: nat) {
    && k < m <= |log| && KeepsLost(rings, log, k, count)
    && forall l :: k < l < m ==> !log[l].Swallowed? && !IsReport(log[l])
  }

  /** Between the two entries the ring of the first has had nothing more to read. */
  predicate RanOut(log: seq<Event>, k: nat, m: nat)
    requires k < m <= |log|
  {
    exists l :: k < l < m && log[l].Emptied? && log[l].ring == log[k].ring
  }

  /** What is pending at entry m is the count of a LOST record of ring i or, unless `own`, of a ring that has run out. */
  ghost predicate PendingFrom(rings: seq<Ring>, log: seq<Event>, m: nat, i: nat, count: nat, own: bool) {
    exists k: nat :: k < m <= |log| && LastKept(rings, log, k, m, count) && (log[k].ring == i || (!own && RanOut(log, k, m)))
  }

  /** Entry m reports a LOST record that has not been reported, from the ring's last delivered sample to its next one. */
  ghost predicate ReportAt(rings: seq<Ring>, log: seq<Event>, m: nat)
    requires m < |log| && IsReport(log[m])
  {
    var e := log[m];
    var next := |Taken(log[..m], e.ring)|;
    && e.count > 0 && PendingFrom(rings, log, m, e.ring, e.count, e.LossAtInit?)
    && e.lossStart == LastTime(log[..m], e.ring)
    && e.ring < |rings| && next < |rings[e.ring].stream| && rings[e.ring].stream[next].Sample?
    && e.lossEnd == EndAt(e, rings[e.ring].stream[next].time)
  }

  /** Where a loss before a sample at t ends: found when a ring is first read, not before the popped time. */
  function EndAt(e: Event, t: int): int
    requires IsReport(e)
  {
    if e.LossAtInit? && t < e.popped then e.popped else t
  }

  /** No report is invented. */
  ghost predicate Reported(rings: seq<Ring>, log: seq<Event>) {
    forall m :: 0 <= m < |log| && IsReport(log[m]) ==> ReportAt(rings, log, m)
  }

  /** No LOST record is reported twice. */
  lemma ReportedOnce(rings: seq<Ring>, log: seq<Event>, k: nat, m: nat, n: nat, a: nat, b: nat)
    requires m < n < |log| && IsReport(log[m]) && LastKept(rings, log, k, m, a)
    ensures !LastKept(rings, log, k, n, b)
  {
  }

  /** What is pending between two turns of the loop comes from a ring that has run out. */
  ghost predicate Pending(rings: seq<Ring>, log: seq<Event>, count: nat) {
    count > 0 ==> exists k: nat :: k < |log| && LastKept(rings, log, k, |log|, count) && RanOut(log, k, |log|)
  }

  lemma KeptAppend(rings: seq<Ring>, log: seq<Event>, e: Event, k: nat, m: nat, count: nat)
    requires LastKept(rings, log, k, m, count)
    ensures LastKept(rings, log + [e], k, m, count)
    ensures m == |log| && !e.Swallowed? && !IsReport(e) ==> LastKept(rings, log + [e], k, m + 1, count)
    ensures RanOut(log, k, m) ==> RanOut(log + [e], k, m) && (m == |log| ==> RanOut(log + [e], k, m + 1))
  {
    var all := log + [e];
    assert forall l :: 0 <= l < |log| ==> all[l] == log[l];
    assert KeepsLost(rings, all, k, count);
    if RanOut(log, k, m) {
      var l :| k < l < m && log[l].Emptied? && log[l].ring == log[k].ring;
      assert all[l].Emptied? && all[l].ring == all[k].ring;
    }
  }

  lemma ReportStays(rings: seq<Ring>, log: seq<Event>, e: Event, m: nat)
    requires m < |log| && IsReport(log[m]) && ReportAt(rings, log, m)
    ensures ReportAt(rings, log + [e], m)
  {
    hide LastKept, RanOut;
    assert (log + [e])[m] == log[m] && (log + [e])[..m] == log[..m];
    var k: nat :| k < m <= |log| && LastKept(rings, log, k, m, log[m].count) && (log[k].ring == log[m].ring || (!log[m].LossAtInit? && RanOut(log, k, m)));
    KeptAppend(rings, log, e, k, m, log[m].count);
    assert (log + [e])[k] == log[k];
  }

  lemma ReportedAppend(rings: seq<Ring>, log: seq<Event>, e: Event)
    requires Reported(rings, log) && (IsReport(e) ==> ReportAt(rings, log + [e], |log|))
    ensures Reported(rings, log + [e])
  {
    hide ReportAt;
    forall m | 0 <= m < |log| + 1 && IsReport((log + [e])[m])
      ensures ReportAt(rings, log + [e], m)
    {
      if m < |log| {
        ReportStays(rings, log, e, m);
      }
    }
  }

  lemma ReportedStreams(a: seq<Ring>, b: seq<Ring>, log: seq<Event>)
    requires SameStreams(a, b)
    ensures Reported(a, log) ==> Reported(b, log)
    ensures forall count: nat :: Pending(a, log, count) ==> Pending(b, log, count)
  {
    hide RanOut;
    forall k: nat, m: nat, count: nat
      ensures LastKept(a, log, k, m, count) <==> LastKept(b, log, k, m, count)
    {
    }
  }

  /** One more record that is not a sample. */
  lemma PendingEntry(rings: seq<Ring>, log: seq<Event>, i: nat, at: nat, count: nat, own: bool)
    requires i < |rings| && at < |rings[i].stream| && (count > 0 ==> PendingFrom(rings, log, |log|, i, count, own))
    ensures var rec, reports := rings[i].stream[at], rings[i].reportsLoss;
            var c := if rec.Lost? && reports then rec.count else count;
            c > 0 ==> PendingFrom(rings, log + [Entry(rec, reports, i, at)], |log| + 1, i, c, own)
  {
    hide RanOut, LastKept;
    var rec, reports := rings[i].stream[at], rings[i].reportsLoss;
    var e := Entry(rec, reports, i, at);
    if rec.Lost? && reports {
      NewlyKept(rings, log, e, rec.count);
    } else if count > 0 {
      var k: nat :| k < |log| && LastKept(rings, log, k, |log|, count) && (log[k].ring == i || (!own && RanOut(log, k, |log|)));
      KeptAppend(rings, log, e, k, |log|, count);
      assert (log + [e])[k] == log[k];
    }
  }

  lemma NewlyKept(rings: seq<Ring>, log: seq<Event>, e: Event, count: nat)
    requires e.Swallowed? && e.ring < |rings| && e.index < |rings[e.ring].stream|
    requires rings[e.ring].stream[e.index].Lost? && rings[e.ring].stream[e.index].count == count
    ensures LastKept(rings, log + [e], |log|, |log| + 1, count) && (log + [e])[|log|] == e
  {
  }

  /** Reading on leaves pending what `LossOf` says. */
  lemma {:induction false} OthersPending(rings: seq<Ring>, log: seq<Event>, i: nat, from: nat, last: nat, before: nat, own: bool)
    requires i < |rings| && from <= last <= |rings[i].stream| && (before > 0 ==> PendingFrom(rings, log, |log|, i, before, own))
    ensures var all := log + Others(rings[i].stream, rings[i].reportsLoss, i, from, last);
            var loss := LossOf(rings[i].stream, rings[i].reportsLoss, from, last, before);
            loss > 0 ==> PendingFrom(rings, all, |all|, i, loss, own)
    decreases last
  {
    hide PendingFrom;
    var stream, reports := rings[i].stream, rings[i].reportsLoss;
    if from == last {
      assert log + Others(stream, reports, i, from, last) == log;
    } else {
      var done := log + Others(stream, reports, i, from, last - 1);
      OthersPending(rings, log, i, from, last - 1, before, own);
      PendingEntry(rings, done, i, last - 1, LossOf(stream, reports, from, last - 1, before), own);
      assert log + Others(stream, reports, i, from, last) == done + [Entry(stream[last - 1], reports, i, last - 1)];
    }
  }

  /** They are handled, nothing is delivered, nothing is reported. */
  lemma {:induction false} OthersTaken(rings: seq<Ring>, log: seq<Event>, i: nat, from: nat, last: nat)
    requires i < |rings| && from <= last <= |rings[i].stream| && Reported(rings, log)
    ensures var all := log + Others(rings[i].stream, rings[i].reportsLoss, i, from, last);
            && |Taken(all, i)| == |Taken(log, i)| + last - from && Reported(rings, all)
            && forall k: nat :: LastTime(all, k) == LastTime(log, k)
    decreases last
  {
    hide Reported, Taken, LastTime;
    var stream, reports := rings[i].stream, rings[i].reportsLoss;
    if from == last {
      assert log + Others(stream, reports, i, from, last) == log;
    } else {
      var done, e := log + Others(stream, reports, i, from, last - 1), Entry(stream[last - 1], reports, i, last - 1);
      OthersTaken(rings, log, i, from, last - 1);
      TakenAppend(done, e, i);
      ReportedAppend(rings, done, e);
      forall k: nat
        ensures LastTime(done + [e], k) == LastTime(done, k)
      {
        LastTimeAppend(done, e, k);
      }
      assert log + Others(stream, reports, i, from, last) == done + [e];
    }
  }

  /** A passage reports what is pending, or leaves it pending. */
  lemma PassageReported(rings: seq<Ring>, b: Ring, found: bool, i: nat, was: seq<Event>, now: seq<Event>, before: nat, loss: nat, e: Event)
    requires Reported(rings, was) && i < |rings| && IsReport(e) && e.ring == i && e.count == loss
    requires Passage(rings[i], b, found, i, was, now, before, loss, Report(found, loss, e))
    requires if e.LossAtInit? then before == 0 else Pending(rings, was, before)
    requires |Taken(was, i)| == rings[i].start && e.lossStart == LastTime(was, i)
    requires found ==> 0 < b.start <= |rings[i].stream| && rings[i].stream[b.start - 1].Sample? &&
                       e.lossEnd == EndAt(e, rings[i].stream[b.start - 1].time)
    ensures Reported(rings, now) && (forall k: nat :: LastTime(now, k) == LastTime(was, k))
    ensures !found ==> e.LossAtInit? || Pending(rings, now, loss)
  {
    hide Reported, Taken, LastTime, LastKept, RanOut, Others, LossOf;
    var stop := StopAt(b, found);
    var all := was + Others(rings[i].stream, rings[i].reportsLoss, i, rings[i].start, stop);
    OthersPending(rings, was, i, rings[i].start, stop, before, e.LossAtInit?);
    OthersTaken(rings, was, i, rings[i].start, stop);
    var report := Report(found, loss, e);
    if report == [] {
      assert now == all;
    } else {
      assert now == all + [report[0]];
      forall k: nat
        ensures LastTime(now, k) == LastTime(all, k)
      {
        LastTimeAppend(all, report[0], k);
      }
      if found {
        ReportHere(rings, all, e);
      }
      ReportedAppend(rings, all, report[0]);
      if !found && e.LossInLoop? && loss > 0 {
        StaysPending(rings, all, i, loss);
      }
    }
  }

  lemma ReportHere(rings: seq<Ring>, log: seq<Event>, e: Event)
    requires IsReport(e) && e.count > 0 && e.ring < |rings| && e.lossStart == LastTime(log, e.ring)
    requires PendingFrom(rings, log, |log|, e.ring, e.count, e.LossAtInit?)
    requires var next := |Taken(log, e.ring)|;
             next < |rings[e.ring].stream| && rings[e.ring].stream[next].Sample? && e.lossEnd == EndAt(e, rings[e.ring].stream[next].time)
    ensures ReportAt(rings, log + [e], |log|)
  {
    hide LastKept, RanOut;
    assert (log + [e])[..|log|] == log && (log + [e])[|log|] == e;
    var k: nat :| k < |log| && LastKept(rings, log, k, |log|, e.count) && (log[k].ring == e.ring || (!e.LossAtInit? && RanOut(log, k, |log|)));
    KeptAppend(rings, log, e, k, |log|, e.count);
    assert (log + [e])[k] == log[k];
  }

  lemma StaysPending(rings: seq<Ring>, log: seq<Event>, i: nat, count: nat)
    requires PendingFrom(rings, log, |log|, i, count, false)
    ensures Pending(rings, log + [Emptied(i)], count)
  {
    hide LastKept, RanOut;
    var e := Emptied(i);
    var k: nat :| k < |log| && LastKept(rings, log, k, |log|, count) && (log[k].ring == i || RanOut(log, k, |log|));
    KeptAppend(rings, log, e, k, |log|, count);
    RunsOut(log, k, i);
  }

  lemma RunsOut(log: seq<Event>, k: nat, i: nat)
    requires k < |log|
    ensures log[k].ring == i ==> RanOut(log + [Emptied(i)], k, |log| + 1)
  {
    assert (log + [Emptied(i)])[|log|] == Emptied(i);
  }

  // ---- all of it ----------------------------------------------------------------------------------------

  /** Each ring's time is that of its last delivered sample. */
  predicate MonosAre(rings: seq<Ring>, log: seq<Event>) {
    forall i :: 0 <= i < |rings| ==> rings[i].mono == LastTime(log, i)
  }

  /** What the log promises about LOST records and reports. */
  ghost predicate Kept(rings: seq<Ring>, log: seq<Event>) {
    Answered(rings, log) && RingsBy(rings, log) && Reported(rings, log) && MonosAre(rings, log)
  }

  /** Rings hold the same records and have delivered the same. */
  predicate Alike(a: seq<Ring>, b: seq<Ring>) {
    |a| == |b| && forall i :: 0 <= i < |a| ==> a[i].stream == b[i].stream && a[i].mono == b[i].mono
  }

  lemma KeptAlike(a: seq<Ring>, b: seq<Ring>, log: seq<Event>)
    requires Kept(a, log) && Alike(a, b)
    ensures Kept(b, log)
  {
    hide Answered, Reported, RingBy;
    AnsweredStreams(a, b, log);
    ReportedStreams(a, b, log);
    forall i | 0 <= i < |b|
      ensures RingBy(log, i, b[i].mono)
    {
      assert RingBy(log, i, a[i].mono);
    }
  }

  /** A delivery of ring i at q, which is not before its last one. */
  lemma KeptDelivered(a: seq<Ring>, b: seq<Ring>, log: seq<Event>, i: nat, index: nat, q: int)
    requires Kept(a, log) && i < |a| && a[i].mono <= q && b == a[i := a[i].(time := q, mono := q)]
    ensures Kept(b, log + [Delivered(i, index, q)])
    ensures forall count: nat :: Pending(a, log, count) ==> Pending(b, log + [Delivered(i, index, q)], count)
  {
    hide Answered, Reported, RingBy, LastTime, Pending;
    var e := Delivered(i, index, q);
    AnsweredStreams(a, b, log);
    AnsweredAppend(b, log, e);
    ReportedStreams(a, b, log);
    ReportedAppend(b, log, e);
    forall k | 0 <= k < |b|
      ensures RingBy(log + [e], k, b[k].mono) && b[k].mono == LastTime(log + [e], k)
    {
      LastTimeAppend(log, e, k);
      assert RingBy(log, k, a[k].mono);
      RingAppend(log, e, k, a[k].mono, b[k].mono);
    }
    forall count: nat
      ensures Pending(b, log, count) ==> Pending(b, log + [e], count)
    {
      PendingAppend(b, log, e, count);
    }
  }

  lemma RingAppend(log: seq<Event>, e: Event, i: nat, s: int, t: int)
    requires RingBy(log, i, s) && s <= t && (Stamped(e) && e.ring == i ==> Begin(e) <= t)
    ensures RingBy(log + [e], i, t)
  {
  }

  lemma PendingAppend(rings: seq<Ring>, log: seq<Event>, e: Event, count: nat)
    requires !e.Swallowed? && !IsReport(e)
    ensures Pending(rings, log, count) ==> Pending(rings, log + [e], count)
  {
    hide LastKept, RanOut;
    if Pending(rings, log, count) && count > 0 {
      var k: nat :| k < |log| && LastKept(rings, log, k, |log|, count) && RanOut(log, k, |log|);
      KeptAppend(rings, log, e, k, |log|, count);
    }
  }

  /** A passage with what follows it, the ring's new time included. */
  lemma KeptPassage(rings: seq<Ring>, b: Ring, after: seq<Ring>, found: bool, i: nat, was: seq<Event>, read: seq<Event>, now: seq<Event>,
                    before: nat, loss: nat, e: Event)
    requires Kept(rings, was) && i < |rings| && Alike(rings, after)
    requires Passage(rings[i], b, found, i, was, read, before, loss, []) && now == read + Report(found, loss, e)
    requires IsReport(e) && e.ring == i && e.count == loss && e.lossStart == rings[i].mono
    requires after[i].start == b.start && after[i].end == b.end
    requires if e.LossAtInit? then before == 0 else Pending(rings, was, before)
    requires |Taken(was, i)| == rings[i].start
    requires found ==> 0 < b.start <= |rings[i].stream| && rings[i].stream[b.start - 1].Sample? &&
                       e.lossEnd == EndAt(e, rings[i].stream[b.start - 1].time)
    ensures Passage(rings[i], after[i], found, i, was, now, before, loss, Report(found, loss, e))
    ensures Kept(after, now) && (!found && e.LossInLoop? ==> Pending(after, now, loss))
  {
    hide Answered, Reported, RingBy, Others, LossOf, LastTime, Pending, Taken;
    assert Passage(rings[i], after[i], found, i, was, now, before, loss, Report(found, loss, e));
    PassageAnswered(rings, after[i], found, i, was, now, before, loss, e);
    PassageReported(rings, after[i], found, i, was, now, before, loss, e);
    PassageRings(rings, after[i], found, i, was, now, before, loss, e);
    KeptAlike(rings, after, now);
    ReportedStreams(rings, after, now);
  }

  lemma PassageRings(rings: seq<Ring>, b: Ring, found: bool, i: nat, was: seq<Event>, now: seq<Event>, before: nat, loss: nat, e: Event)
    requires RingsBy(rings, was) && i < |rings| && IsReport(e) && e.ring == i && e.lossStart <= rings[i].mono
    requires Passage(rings[i], b, found, i, was, now, before, loss, Report(found, loss, e))
    ensures RingsBy(rings, now)
  {
    hide RingsBy;
    var others := Others(rings[i].stream, rings[i].reportsLoss, i, rings[i].start, StopAt(b, found));
    OthersQuiet(rings[i].stream, rings[i].reportsLoss, i, rings[i].start, StopAt(b, found));
    RingsQuiet(rings, was, was + others);
    var report := Report(found, loss, e);
    if report == [] {
      assert now == was + others;
    } else {
      RingsAppend(rings, was + others, report[0]);
      assert now == was + others + [report[0]];
    }
  }
}
