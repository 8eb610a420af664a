/** Time-ordered merge of kernel ring buffers: order.c without stream queues. */
module Order {
  import opened Common
  import opened MinHeap
  import opened OrderLog

  /** Rings outside the heap have nothing visible left to read. */
  predicate Drained(rings: seq<Ring>, held: set<nat>, n: nat) {
    forall i :: 0 <= i < n && i < |rings| && i !in held ==> rings[i].start == rings[i].end
  }

  /** The head has been read and carries its own timestamp or, if that is too early, p. */
  predicate OriginalOr(r: Ring, p: int) {
    && 0 < r.start <= |r.stream| && r.stream[r.start - 1].Sample?
    && r.time == if r.stream[r.start - 1].time < p then p else r.stream[r.start - 1].time
  }

  /** The ring's next record is a sample that is beyond the time limit or waits for the kernel to write more. */
  predicate Waits(r: Ring, limit: Option<int>) {
    && r.start < |r.stream| && r.stream[r.start].Sample?
    && (r.paused || (limit.Some? && r.time > limit.value))
  }

  predicate AnyWaits(rings: seq<Ring>, limit: Option<int>) { exists i :: 0 <= i < |rings| && Waits(rings[i], limit) }

  // ---- conservation of records ------------------------------------------------------------------

  /** Records of r handled so far; the head of a held ring is read but not handled. */
  function Handled(r: Ring, held: bool): int { if held then r.start - 1 else r.start }

  /** The log has handled each ring's records in order, without gaps or repeats, up to its cursor. */
  predicate RingConserved(r: Ring, held: bool, taken: seq<Mark>) {
    && GoodRing(r)
    && (held ==> r.start > 0 && r.stream[r.start - 1].Sample?)
    && taken == Upto(r.stream, r.reportsLoss, Handled(r, held))
  }

  predicate Conserved(rings: seq<Ring>, held: set<nat>, log: seq<Event>) {
    forall i :: 0 <= i < |rings| ==> RingConserved(rings[i], i in held, Taken(log, i))
  }

  /** Replacing ring i and appending e keeps conservation if it does for ring i. */
  lemma ConservedStep(rings: seq<Ring>, held: set<nat>, log: seq<Event>, i: nat, r: Ring, keep: bool, e: Event)
    requires Conserved(rings, held, log) && i < |rings| && e.ring == i
    requires RingConserved(r, keep, Taken(log + [e], i))
    ensures Conserved(rings[i := r], if keep then held + {i} else held - {i}, log + [e])
  {
    forall k | 0 <= k < |rings|
      ensures Taken(log + [e], k) == if k == i then Taken(log + [e], i) else Taken(log, k)
    {
      TakenAppend(log, e, k);
    }
  }

  /** An entry that handles no record. */
  lemma ConservedNote(rings: seq<Ring>, held: set<nat>, log: seq<Event>, e: Event)
    requires Conserved(rings, held, log) && !Handles(e, e.ring)
    ensures Conserved(rings, held, log + [e])
  {
    hide RingConserved;
    forall k | 0 <= k < |rings|
      ensures Taken(log + [e], k) == Taken(log, k)
    {
      TakenAppend(log, e, k);
    }
  }

  lemma ConservedQuiet(rings: seq<Ring>, held: set<nat>, log: seq<Event>, i: nat, r: Ring, keep: bool)
    requires Conserved(rings, held, log) && i < |rings| && RingConserved(r, keep, Taken(log, i))
    ensures Conserved(rings[i := r], if keep then held + {i} else held - {i}, log)
  {
  }

  /** One read on ring i, which is not held: nothing, a sample that becomes its head, or another record. */
  lemma ReadKeeps(a: seq<Ring>, b: seq<Ring>, held: set<nat>, log: seq<Event>, i: nat)
    requires Conserved(a, held, log) && i !in held && i < |a| == |b| && b == a[i := b[i]] && GoodRing(b[i])
    requires b[i] == a[i].(start := b[i].start, end := b[i].end)
    ensures b[i].start == a[i].start ==> Conserved(b, held, log)
    ensures b[i].start == a[i].start + 1 && b[i].stream[a[i].start].Sample? ==> Conserved(b, held + {i}, log)
    ensures b[i].start == a[i].start + 1 ==> Conserved(b[i := b[i].(start := a[i].start)], held, log)
  {
    hide Conserved, Taken, Upto;
    assert RingConserved(a[i], false, Taken(log, i)) by { HeldTaken(a, held, log, i); }
    assert held - {i} == held;
    if b[i].start == a[i].start {
      ConservedQuiet(a, held, log, i, b[i], false);
    } else if b[i].start == a[i].start + 1 {
      ConservedQuiet(a, held, log, i, b[i].(start := a[i].start), false);
      assert a[i := b[i].(start := a[i].start)] == b[i := b[i].(start := a[i].start)];
      if b[i].stream[a[i].start].Sample? {
        ConservedQuiet(a, held, log, i, b[i], true);
      }
    }
  }

  /** The log has handled as many records of a ring as have been read, but for a head not handed over. */
  lemma TakenBy(rings: seq<Ring>, held: set<nat>, log: seq<Event>, i: nat)
    requires Conserved(rings, held, log) && i < |rings| && i !in held
    ensures |Taken(log, i)| == rings[i].start
  {
    HeldTaken(rings, held, log, i);
    UptoMarks(rings[i].stream, rings[i].reportsLoss, rings[i].start);
  }

  lemma RingOf(rings: seq<Ring>, log: seq<Event>, i: nat)
    requires Kept(rings, log) && i < |rings|
    ensures RingBy(log, i, rings[i].mono)
  {
  }

  lemma QuietRing(log: seq<Event>, rest: seq<Event>, i: nat, t: int)
    requires RingBy(log, i, t) && log <= rest && forall k :: |log| <= k < |rest| ==> !Stamped(rest[k])
    ensures RingBy(rest, i, t)
  {
    assert forall k :: 0 <= k < |log| ==> rest[k] == log[k];
  }

  lemma HeadTime(r: Ring)
    requires OriginalHead(r)
    ensures 0 < r.start <= |r.stream| && r.stream[r.start - 1].Sample? && r.time == r.stream[r.start - 1].time
  {
  }

  lemma ReportQuiet(found: bool, loss: nat, e: Event)
    requires !e.Delivered?
    ensures forall k :: 0 <= k < |Report(found, loss, e)| ==> !Report(found, loss, e)[k].Delivered?
  {
  }

  lemma NothingPending(rings: seq<Ring>, log: seq<Event>)
    ensures Pending(rings, log, 0)
  {
  }

  lemma HeldTaken(rings: seq<Ring>, held: set<nat>, log: seq<Event>, i: nat)
    requires Conserved(rings, held, log) && i < |rings|
    ensures RingConserved(rings[i], i in held, Taken(log, i))
  {
    hide Taken, Upto;
  }

  /** Reading record `start` of a ring that is not held and handing it over. */
  lemma HandsOver(r: Ring, taken: seq<Mark>)
    requires RingConserved(r, false, taken) && r.start < r.end && !r.stream[r.start].Sample?
    ensures RingConserved(r.(start := r.start + 1), false, taken + [Mark(r.start, false, r.stream[r.start].Lost? && r.reportsLoss)])
  {
  }

  lemma OtherKept(rings: seq<Ring>, held: set<nat>, log: seq<Event>, i: nat, e: Event)
    requires i < |rings| && i !in held && rings[i].start > 0 && GoodRing(rings[i]) && !rings[i].stream[rings[i].start - 1].Sample?
    requires Conserved(rings[i := rings[i].(start := rings[i].start - 1)], held, log)
    requires e == Entry(rings[i].stream[rings[i].start - 1], rings[i].reportsLoss, i, rings[i].start - 1)
    ensures Conserved(rings, held, log + [e])
  {
    hide Conserved, Taken, Upto;
    var before := rings[i].(start := rings[i].start - 1);
    HeldTaken(rings[i := before], held, log, i);
    TakenAppend(log, e, i);
    HandsOver(before, Taken(log, i));
    assert before.(start := before.start + 1) == rings[i];
    ConservedStep(rings[i := before], held, log, i, rings[i], false, e);
    assert rings[i := before][i := rings[i]] == rings && held - {i} == held;
  }

  /** Handing over the head of a held ring. */
  lemma HandsOverHead(r: Ring, taken: seq<Mark>)
    requires RingConserved(r, true, taken)
    ensures RingConserved(r, false, taken + [Mark(r.start - 1, true, false)])
  {
  }

  /** Upto lists every record below n once, in order. */
  lemma {:induction false} UptoMarks(stream: seq<Record>, reports: bool, n: nat)
    requires n <= |stream|
    ensures |Upto(stream, reports, n)| == n
    ensures forall k :: 0 <= k < n ==> Upto(stream, reports, n)[k] == Mark(k, stream[k].Sample?, stream[k].Lost? && reports)
  {
    if n > 0 {
      UptoMarks(stream, reports, n - 1);
    }
  }

  /**
   * Between calls exactly the records below the cursor have been handled, each once: samples and only
   * samples are delivered, and LOST records and only those are kept back, if the device of the ring asks
   * for losses.
   */
  lemma NoneLostOrRepeated(rings: seq<Ring>, log: seq<Event>, i: nat)
    requires Conserved(rings, {}, log) && i < |rings|
    ensures |Taken(log, i)| == rings[i].start <= |rings[i].stream|
    ensures forall k :: 0 <= k < rings[i].start ==>
              Taken(log, i)[k] == Mark(k, rings[i].stream[k].Sample?, rings[i].stream[k].Lost? && rings[i].reportsLoss)
  {
    assert RingConserved(rings[i], false, Taken(log, i));
    UptoMarks(rings[i].stream, rings[i].reportsLoss, rings[i].start);
  }

  // ---- order ----------------------------------------------------------------------------------

  /** Only a ring whose last delivered sample is the latest one may be behind p, and only one. */
  predicate OneBehind(rings: seq<Ring>, held: set<nat>, p: int) {
    forall i :: i in held && i < |rings| && rings[i].time < p ==>
      rings[i].mono == p && forall j :: j in held && j < |rings| && j != i ==> rings[j].time >= p
  }

  predicate MonosBy(rings: seq<Ring>, p: int) {
    forall i :: 0 <= i < |rings| ==> rings[i].mono <= p
  }

  /** The timestamp a head is delivered with (order.c:846-851). */
  function Repaired(r: Ring): int { if r.time < r.mono then r.mono else r.time }

  /**
   * The heart of the global order: delivering the least head, repaired, never goes back behind p, and
   * afterwards only that ring can hold a head behind the new popped time.
   */
  lemma LeastHeadAdvances(rings: seq<Ring>, held: set<nat>, p: int, root: nat, t: int)
    requires root in held && root < |rings| && t == Repaired(rings[root])
    requires OneBehind(rings, held, p) && MonosBy(rings, p)
    requires forall i :: i in held && i < |rings| ==> rings[root].time <= rings[i].time
    ensures t >= p
    ensures forall i :: i in held && i < |rings| && i != root ==> rings[i].time >= t
  {
  }

  // ---- termination ----------------------------------------------------------------------------

  function Left(r: Ring): nat { if r.start <= |r.stream| then |r.stream| - r.start else 0 }

  /** Records not yet read, over all rings. */
  function Unread(rings: seq<Ring>): nat {
    if rings == [] then 0 else Unread(rings[..|rings| - 1]) + Left(rings[|rings| - 1])
  }

  lemma {:induction false} UnreadUpdate(rings: seq<Ring>, i: nat, r: Ring)
    requires i < |rings|
    ensures Unread(rings[i := r]) == Unread(rings) - Left(rings[i]) + Left(r)
    decreases |rings|
  {
    var n := |rings| - 1;
    if i == n {
      assert rings[i := r][..n] == rings[..n];
    } else {
      UnreadUpdate(rings[..n], i, r);
      assert rings[i := r][..n] == rings[..n][i := r];
    }
  }

  // ---- sorted input ---------------------------------------------------------------------------

  /** Samples of a ring are in time order. */
  predicate SortedStream(stream: seq<Record>) {
    forall j, k :: 0 <= j < k < |stream| && stream[j].Sample? && stream[k].Sample? ==> stream[j].time <= stream[k].time
  }

  /** No unread sample of any ring is older than p, and rings are sorted: nothing needs repair. */
  predicate Clean(rings: seq<Ring>, p: int) {
    forall i :: 0 <= i < |rings| ==>
      && SortedStream(rings[i].stream)
      && forall k :: rings[i].start <= k < |rings[i].stream| && rings[i].stream[k].Sample? ==>
           p <= rings[i].stream[k].time
  }

  /** No call from the n-th on found an unread sample older than the popped time, or a ring out of order. */
  predicate AllClean(entries: seq<(seq<Ring>, int)>, n: nat) {
    forall k :: n <= k < |entries| ==> Clean(entries[k].0, entries[k].1)
  }

  lemma CleanBefore(entries: seq<(seq<Ring>, int)>, rings: seq<Ring>, p: int, n: nat)
    requires n <= |entries|
    ensures AllClean(entries + [(rings, p)], n) ==> AllClean(entries, n) && Clean(rings, p)
  {
    hide Clean;
    if AllClean(entries + [(rings, p)], n) {
      forall k | n <= k < |entries|
        ensures Clean(entries[k].0, entries[k].1)
      {
        assert (entries + [(rings, p)])[k] == entries[k];
      }
      assert (entries + [(rings, p)])[|entries|] == (rings, p);
    }
  }

  /** The head has been read and carries the timestamp the kernel gave it. */
  predicate OriginalHead(r: Ring) {
    && 0 < r.start <= |r.stream| && r.stream[r.start - 1].Sample?
    && r.time == r.stream[r.start - 1].time
  }

  // ---- the turns of the merge, on one ring and the log --------------------------------------------------

  /** Ring i is initialised at popped time p. */
  predicate InitTurn(a: Ring, b: Ring, ok: bool, i: nat, p: int, was: seq<Event>, now: seq<Event>, loss: nat) {
    && b == a.(start := b.start, end := b.end, time := b.time) && (ok ==> OriginalOr(b, p))
    && Passage(a, b, ok, i, was, now, 0, loss, Report(ok, loss, LossAtInit(i, b.mono, b.time, loss, p)))
  }

  /** The loss prediction lets the head of a go on (order.c:804-830): nothing but the prediction changes. */
  predicate GoesOn(a: Ring, b: Ring)
    requires GoodRing(a) && a.start > 0
  {
    var end := Offset(a.stream, a.end);
    && b == a.(maybeLostEnd := b.maybeLostEnd, paused := false)
    && b.maybeLostEnd == if end == a.maybeLostEnd then end
                         else if HasSpace(a, a.watermark + a.stream[a.start - 1].size) then end - 1
                         else end
  }

  /**
   * A head that goes on marks the visible end as a possible loss exactly when the ring has no room left for
   * the watermark and a record of its size; only a head at a marked end is kept back.
   */
  lemma PredictsLoss(a: Ring, b: Ring, used: nat)
    requires GoodRing(a) && a.start > 0 && GoesOn(a, b) && Offset(a.stream, a.end) != a.maybeLostEnd
    requires Offset(a.stream, a.end) == Offset(a.stream, a.start) + used && used < a.capacity
    ensures b.maybeLostEnd == Offset(b.stream, b.end) <==> used + a.watermark + a.stream[a.start - 1].size >= a.capacity
  {
    hide Offset, HasSpace;
    SpaceIs(a, used, a.watermark + a.stream[a.start - 1].size);
  }

  /** Ring i delivers its head at q. */
  predicate DeliverTurn(a: Ring, b: Ring, i: nat, q: int, was: seq<Event>, now: seq<Event>) {
    && a.start > 0 && q == Repaired(a) && b == a.(time := q, mono := q)
    && now == was + [Delivered(i, a.start - 1, q)]
  }

  /** Ring i, which has just delivered, goes on to its next sample. */
  predicate AdvanceTurn(a: Ring, b: Ring, found: bool, i: nat, was: seq<Event>, now: seq<Event>, before: nat, loss: nat) {
    && b == a.(start := b.start, end := b.end, time := b.time) && (found ==> OriginalHead(b))
    && Passage(a, b, found, i, was, now, before, loss, Report(found, loss, LossInLoop(i, a.mono, b.time, loss)))
  }

  /** The heads of held rings carry their original timestamps, none behind p. */
  predicate CleanHeads(rings: seq<Ring>, held: set<nat>, p: int) {
    forall i :: i in held && i < |rings| ==>
      SortedStream(rings[i].stream) && OriginalHead(rings[i]) && p <= rings[i].time
  }

  /** Every sample delivered from entry n on has the timestamp it had in its ring. */
  predicate Unchanged(rings: seq<Ring>, log: seq<Event>, n: nat) {
    forall k :: n <= k < |log| && log[k].Delivered? ==>
      && log[k].ring < |rings| && log[k].index < |rings[log[k].ring].stream|
      && rings[log[k].ring].stream[log[k].index].Sample?
      && log[k].time == rings[log[k].ring].stream[log[k].index].time
  }

  lemma HeldIsSample(rings: seq<Ring>, held: set<nat>, log: seq<Event>, i: nat)
    requires Conserved(rings, held, log) && i < |rings| && i in held
    ensures 0 < rings[i].start <= |rings[i].stream| && rings[i].stream[rings[i].start - 1].Sample?
  {
    assert RingConserved(rings[i], i in held, Taken(log, i));
  }

  /** Reading on keeps the unread samples clean. */
  lemma StaysClean(a: seq<Ring>, b: seq<Ring>, i: nat, p: int)
    requires ReadFurther(a, b, i)
    ensures Clean(a, p) ==> Clean(b, p)
    ensures Clean(a, p) && a[i].start < b[i].start <= |b[i].stream| && b[i].stream[b[i].start - 1].Sample? ==>
              p <= b[i].stream[b[i].start - 1].time
  {
    hide SortedStream;
  }

  /** Only ring i, which is not held, differs between a and b, and it has been read further. */
  predicate ReadFurther(a: seq<Ring>, b: seq<Ring>, i: nat) {
    && |a| == |b| && i < |a| && (forall k :: 0 <= k < |a| && k != i ==> a[k] == b[k])
    && a[i].stream == b[i].stream && a[i].start <= b[i].start
  }

  predicate NoneDelivered(log: seq<Event>, n: nat) {
    forall k :: n <= k < |log| ==> !log[k].Delivered?
  }

  /** Held rings are below i and not behind p; streams are those of the start. */
  predicate Filled(start: seq<Ring>, rings: seq<Ring>, held: set<nat>, p: int, i: nat) {
    SameStreams(start, rings) && forall k :: k in held ==> k < i && k < |rings| && rings[k].time >= p
  }

  lemma NotYetHeld(start: seq<Ring>, rings: seq<Ring>, held: set<nat>, p: int, i: nat)
    requires Filled(start, rings, held, p, i)
    ensures i !in held
  {
  }

  lemma FilledStep(start: seq<Ring>, was: seq<Ring>, rings: seq<Ring>, held: set<nat>, p: int, i: nat)
    requires Filled(start, was, held, p, i) && ReadFurther(was, rings, i)
    ensures Filled(start, rings, held, p, i + 1)
    ensures rings[i].time >= p ==> Filled(start, rings, held + {i}, p, i + 1)
  {
  }

  lemma NothingHeld(rings: seq<Ring>, p: int)
    ensures CleanHeads(rings, {}, p) && Filled(rings, rings, {}, p, 0)
  {
  }

  lemma CleanHeadsAdd(a: seq<Ring>, b: seq<Ring>, held: set<nat>, i: nat, p: int)
    requires CleanHeads(a, held, p) && Clean(b, p) && ReadFurther(a, b, i) && i !in held
    ensures CleanHeads(b, held, p)
    ensures OriginalHead(b[i]) && p <= b[i].time ==> CleanHeads(b, held + {i}, p)
  {
    hide SortedStream;
  }

  /** Timestamps do not matter to conservation. */
  lemma Retimed(rings: seq<Ring>, held: set<nat>, log: seq<Event>, i: nat, r: Ring)
    requires Conserved(rings, held, log) && i < |rings| && i in held && r == rings[i].(time := r.time)
    ensures Conserved(rings[i := r], held, log)
  {
    hide Taken, Upto;
    ConservedQuiet(rings, held, log, i, r, true);
    assert held + {i} == held;
  }

  lemma Twice(h: seq<nat>, k: nat)
    requires 0 < k < |h|
    ensures h[k] == h[0] ==> multiset(h)[h[0]] >= 2
  {
    assert h == [h[0]] + h[1..k] + [h[k]] + h[k + 1..];
  }

  /** Keys that differ only at the root leave the heap behind the root ordered. */
  lemma SameBehindRoot(h: seq<nat>, a: seq<int>, b: seq<int>, root: nat, members: set<nat>)
    requires |a| == |b| && |h| > 0 && h[0] == root && multiset(h) == multiset(members)
    requires forall i :: 0 <= i < |a| && i != root ==> a[i] == b[i]
    requires Keyed(h, a) && HeapFrom(h, a, 1)
    ensures Keyed(h, b) && HeapFrom(h, b, 1)
  {
    forall k | 0 < k < |h|
      ensures h[k] != root
    {
      Twice(h, k);
    }
  }

  function Times(rings: seq<Ring>): (ts: seq<int>)
    ensures |ts| == |rings| && forall i :: 0 <= i < |rings| ==> ts[i] == rings[i].time
  {
    seq(|rings|, i requires 0 <= i < |rings| => rings[i].time)
  }

  /** h holds exactly the members, as a heap from position lo on. */
  predicate HeapOf(h: seq<nat>, rings: seq<Ring>, members: set<nat>, lo: nat) {
    && multiset(h) == multiset(members) && (forall i :: i in members ==> i < |rings|)
    && Keyed(h, Times(rings)) && HeapFrom(h, Times(rings), lo)
  }

  /** Replacing the ring at the root leaves the heap behind it. */
  lemma RootReplaced(h: seq<nat>, a: seq<Ring>, b: seq<Ring>, root: nat, members: set<nat>)
    requires |h| > 0 && h[0] == root < |a| && HeapOf(h, a, members, 1)
    requires |a| == |b| && forall i :: 0 <= i < |a| && i != root ==> a[i] == b[i]
    ensures HeapOf(h, b, members, 1)
  {
    hide Keyed, HeapFrom;
    SameBehindRoot(h, Times(a), Times(b), root, members);
  }

  /** The root of the heap has the least head of all. */
  lemma LeastHead(h: seq<nat>, rings: seq<Ring>, members: set<nat>)
    requires |h| > 0 && HeapOf(h, rings, members, 0)
    ensures h[0] in members && forall i :: i in members ==> rings[h[0]].time <= rings[i].time
  {
    assert h[0] in multiset(h);
    forall i | i in members
      ensures rings[h[0]].time <= rings[i].time
    {
      assert i in multiset(members);
      assert i in multiset(h);
      var k :| 0 <= k < |h| && h[k] == i;
      RootIsLeast(h, Times(rings), k);
    }
  }

  lemma HeapRoot(h: seq<nat>, rings: seq<Ring>, members: set<nat>)
    requires |h| > 0 && HeapOf(h, rings, members, 0)
    ensures h[0] in members && h[0] < |rings| && HeapOf(h, rings, members, 1)
    ensures forall i :: i in members ==> i < |rings| && rings[h[0]].time <= rings[i].time
  {
    LeastHead(h, rings, members);
  }

  /** b is a except for the loss prediction of one ring. */
  predicate Marked(a: seq<Ring>, b: seq<Ring>, root: nat) {
    && |a| == |b| && root < |a|
    && b == a[root := a[root].(maybeLostEnd := b[root].maybeLostEnd, paused := b[root].paused)]
  }

  /** The loss prediction does not matter to order or conservation. */
  lemma MarkedKeeps(a: seq<Ring>, b: seq<Ring>, root: nat, held: set<nat>, log: seq<Event>, p: int, h: seq<nat>)
    requires Marked(a, b, root)
    ensures Conserved(a, held, log) ==> Conserved(b, held, log)
    ensures MonosBy(a, p) ==> MonosBy(b, p)
    ensures OneBehind(a, held, p) ==> OneBehind(b, held, p)
    ensures CleanHeads(a, held, p) ==> CleanHeads(b, held, p)
    ensures HeapOf(h, a, held, 0) ==> HeapOf(h, b, held, 0)
    ensures SameStreams(a, b)
  {
    hide Taken, Upto, SortedStream, HeapFrom, Keyed;
    assert Times(a) == Times(b);
    if Conserved(a, held, log) {
      forall i | 0 <= i < |b|
        ensures RingConserved(b[i], i in held, Taken(log, i))
      {
        assert RingConserved(a[i], i in held, Taken(log, i));
      }
    }
  }

  lemma MarkedUnread(a: seq<Ring>, b: seq<Ring>, root: nat)
    requires Marked(a, b, root)
    ensures Unread(b) == Unread(a)
  {
    UnreadUpdate(a, root, b[root]);
  }

  /** Progress of the loop: a record is read or a ring leaves the heap. */
  predicate Progress(a: seq<Ring>, aHeap: nat, b: seq<Ring>, bHeap: nat) {
    Unread(b) < Unread(a) || (Unread(b) == Unread(a) && bHeap < aHeap)
  }

  lemma StepProgress(a: seq<Ring>, b: seq<Ring>, c: seq<Ring>, root: nat, aHeap: nat, cHeap: nat)
    requires |a| == |b| && root < |a| && b == a[root := b[root]] && b[root].start == a[root].start && b[root].stream == a[root].stream
    requires ReadFurther(b, c, root) && c[root].start <= |c[root].stream|
    requires c[root].start > b[root].start || cHeap < aHeap
    ensures SameStreams(a, c) && Progress(a, aHeap, c, cHeap)
  {
    assert c == a[root := c[root]];
    UnreadUpdate(a, root, c[root]);
  }

  lemma StepDrained(a: seq<Ring>, b: seq<Ring>, c: seq<Ring>, was: set<nat>, now: set<nat>, root: nat)
    requires |a| == |b| && root < |a| && b == a[root := b[root]] && ReadFurther(b, c, root)
    requires root in was && now == (if root in now then was else was - {root})
    requires root !in now ==> c[root].start == c[root].end
    ensures Drained(a, was, |a|) ==> Drained(c, now, |a|)
  {
  }

  /** After a clean delivery the next head of the same sorted ring is not behind either. */
  lemma CleanHeadsNext(a: seq<Ring>, b: seq<Ring>, c: seq<Ring>, held: set<nat>, root: nat, p: int, q: int)
    requires CleanHeads(a, held, p) && root in held && root < |a| && q == a[root].time
    requires |a| == |b| && forall i :: 0 <= i < |a| && i != root ==> a[i] == b[i]
    requires b[root].stream == a[root].stream && b[root].start == a[root].start && ReadFurther(b, c, root)
    requires forall i :: i in held && i < |b| && i != root ==> q <= b[i].time
    ensures CleanHeads(c, held - {root}, q)
    ensures c[root].start > b[root].start && OriginalHead(c[root]) ==> CleanHeads(c, held, q)
  {
    assert SortedStream(a[root].stream);
  }

  lemma UnchangedStep(a: seq<Ring>, b: seq<Ring>, log: seq<Event>, e: Event, rest: seq<Event>, n: nat)
    requires Unchanged(a, log, n) && SameStreams(a, b) && n <= |log|
    requires e.Delivered? && e.ring < |a| && e.index < |a[e.ring].stream| && a[e.ring].stream[e.index].Sample?
    requires e.time == a[e.ring].stream[e.index].time
    requires log + [e] <= rest && NoneDelivered(rest, |log| + 1)
    ensures Unchanged(b, rest, n)
  {
    forall k | n <= k < |rest| && rest[k].Delivered?
      ensures rest[k].ring < |b| && rest[k].index < |b[rest[k].ring].stream|
      ensures b[rest[k].ring].stream[rest[k].index].Sample?
      ensures rest[k].time == b[rest[k].ring].stream[rest[k].index].time
    {
      assert rest[k] == (log + [e])[k];
    }
  }

  lemma CleanStep(a: seq<Ring>, b: seq<Ring>, c: seq<Ring>, held: set<nat>, log: seq<Event>, rest: seq<Event>,
                  root: nat, p: int, q: int, n: nat)
    requires CleanHeads(a, held, p) && root in held && root < |a| && q == a[root].time
    requires b == a[root := a[root].(time := q, mono := q)] && SameStreams(a, c) && ReadFurther(b, c, root)
    requires forall i :: i in held - {root} ==> i < |b| && q <= b[i].time
    requires n <= |log| && Unchanged(a, log, n) && a[root].start > 0
    requires log + [Delivered(root, a[root].start - 1, q)] <= rest && NoneDelivered(rest, |log| + 1)
    ensures CleanHeads(c, held - {root}, q)
    ensures c[root].start > b[root].start && OriginalHead(c[root]) ==> CleanHeads(c, held, q)
    ensures Unchanged(c, rest, n)
  {
    hide SortedStream, Unchanged;
    assert forall i :: i in held && i != root ==> i in held - {root};
    CleanHeadsNext(a, b, c, held, root, p, q);
    UnchangedStep(a, c, log, Delivered(root, a[root].start - 1, q), rest, n);
  }

  lemma HeldRange(rings: seq<Ring>, held: set<nat>, log: seq<Event>, i: nat)
    requires Conserved(rings, held, log) && i < |rings|
    ensures GoodRing(rings[i])
  {
    assert RingConserved(rings[i], i in held, Taken(log, i));
  }

  lemma PutBalances(base: multiset<nat>, was: set<nat>, now: set<nat>, root: nat)
    requires root in was
    ensures now == was - {root} ==> base + multiset(was) - multiset{root} == base + multiset(now)
  {
  }

  /** What a delivery from a to b and the next read from b to c do to the measures of the loop. */
  lemma Stepped(a: seq<Ring>, b: seq<Ring>, c: seq<Ring>, was: set<nat>, now: set<nat>, root: nat, aHeap: nat, cHeap: nat,
                base: multiset<nat>, q: int)
    requires root < |a| == |c| && b == a[root := a[root].(time := q, mono := q)] && ReadFurther(b, c, root) && GoodRing(c[root])
    requires root in was && (now == was - {root} || now == was - {root} + {root})
    requires root in now ==> c[root].start > b[root].start
    requires root !in now ==> cHeap < aHeap && c[root].start == c[root].end
    ensures SameStreams(a, c) && |a| == |b| == |c| && Progress(a, aHeap, c, cHeap)
    ensures now == if root in now then was else was - {root}
    ensures Drained(a, was, |a|) ==> Drained(c, now, |a|)
    ensures (if root in now then base + multiset(was) else base + multiset(was) - multiset{root}) == base + multiset(now)
  {
    hide Unread, Drained, Progress;
    StepProgress(a, b, c, root, aHeap, cHeap);
    assert now == if root in now then was else was - {root};
    StepDrained(a, b, c, was, now, root);
    PutBalances(base, was, now, root);
  }

  lemma FilledIsKeyed(start: seq<Ring>, rings: seq<Ring>, h: seq<nat>, held: set<nat>, p: int)
    requires Filled(start, rings, held, p, |rings|) && multiset(h) == multiset(held)
    ensures Keyed(h, Times(rings)) && OneBehind(rings, held, p) && forall i :: i in held ==> i < |rings|
  {
    forall k | 0 <= k < |h|
      ensures h[k] < |rings|
    {
      assert h[k] in multiset(h);
    }
  }

  lemma NothingDelivered(rings: seq<Ring>, log: seq<Event>, n: nat)
    requires NoneDelivered(log, n)
    ensures Unchanged(rings, log, n)
  {
  }

  lemma StillUnchanged(a: seq<Ring>, b: seq<Ring>, c: seq<Ring>, log: seq<Event>, n: nat)
    requires SameStreams(b, c)
    ensures SameStreams(a, b) ==> SameStreams(a, c)
    ensures Unchanged(b, log, n) ==> Unchanged(c, log, n)
  {
  }

  /** What one call delivers unchanged follows what was unchanged before it. */
  lemma UnchangedOn(a: seq<Ring>, b: seq<Ring>, log: seq<Event>, rest: seq<Event>, n: nat)
    requires SameStreams(a, b) && n <= |log| && log <= rest
    ensures Unchanged(a, log, n) && Unchanged(b, rest, |log|) ==> Unchanged(b, rest, n)
  {
    if Unchanged(a, log, n) && Unchanged(b, rest, |log|) {
      forall k | n <= k < |rest| && rest[k].Delivered?
        ensures rest[k].ring < |b| && rest[k].index < |b[rest[k].ring].stream|
        ensures b[rest[k].ring].stream[rest[k].index].Sample?
        ensures rest[k].time == b[rest[k].ring].stream[rest[k].index].time
      {
        assert k < |log| ==> rest[k] == log[k];
      }
    }
  }

  lemma NoRings(rings: seq<Ring>)
    ensures |rings| == 0 ==> Drained(rings, {}, |rings|)
  {
  }

  /** Un-reading the head of a held ring. */
  lemma UnreadHead(rings: seq<Ring>, held: set<nat>, log: seq<Event>, i: nat, p: int)
    requires Conserved(rings, held, log) && i in held && i < |rings| && MonosBy(rings, p)
    ensures rings[i].start > 0
    ensures var back := rings[i := rings[i].(start := rings[i].start - 1)];
            Conserved(back, held - {i}, log) && MonosBy(back, p) && SameStreams(rings, back)
  {
    hide Taken, Upto;
    var r := rings[i];
    assert RingConserved(r, true, Taken(log, i));
    ConservedQuiet(rings, held, log, i, r.(start := r.start - 1), false);
  }

  /** The rings no longer held have their head unread again, the others are as they were. */
  predicate Returned(a: seq<Ring>, b: seq<Ring>, was: set<nat>, now: set<nat>) {
    && |a| == |b| && now <= was
    && forall i :: 0 <= i < |a| ==>
         && b[i] == a[i].(start := b[i].start)
         && (i in now || i !in was ==> b[i].start == a[i].start)
         && (i in was && i !in now ==> b[i].start == a[i].start - 1 && b[i].start < |b[i].stream| && b[i].stream[b[i].start].Sample?)
  }

  lemma NoneReturned(a: seq<Ring>, was: set<nat>)
    ensures Returned(a, a, was, was)
  {
  }

  lemma ReturnedOne(a: seq<Ring>, b: seq<Ring>, c: seq<Ring>, was: set<nat>, now: set<nat>, i: nat)
    requires Returned(a, b, was, now) && i in now && i < |b| && b[i].start > 0
    requires c == b[i := b[i].(start := b[i].start - 1)] && c[i].start < |c[i].stream| && c[i].stream[c[i].start].Sample?
    ensures Returned(a, c, was, now - {i})
  {
  }

  /** What a call leaves behind, from what its loop ended with. */
  lemma CallEnds(a: seq<Ring>, b: seq<Ring>, was: set<nat>, limit: Option<int>, i: nat)
    requires Returned(a, b, was, {}) && i < |a|
    ensures b[i].start == Handled(a[i], i in was)
    ensures i in was && (a[i].paused || (limit.Some? && a[i].time > limit.value)) ==> AnyWaits(b, limit)
    ensures was == {} && Drained(a, was, |a|) ==> Drained(b, {}, |b|)
  {
    assert i in was && (a[i].paused || (limit.Some? && a[i].time > limit.value)) ==> Waits(b[i], limit);
  }

  lemma LastOut(h: seq<nat>, members: set<nat>)
    requires |h| > 0 && multiset(h) == multiset(members)
    ensures h[|h| - 1] in members && multiset(h[..|h| - 1]) == multiset(members - {h[|h| - 1]})
  {
    var last := h[|h| - 1];
    assert h == h[..|h| - 1] + [last];
    assert last in multiset(h);
    assert multiset(h[..|h| - 1]) == multiset(h) - multiset{last};
    WithoutRoot(members - {last}, last);
    assert members - {last} + {last} == members;
  }

  lemma NoneHeld(members: set<nat>)
    requires multiset(members) == multiset{}
    ensures members == {}
  {
    forall i
      ensures i !in members
    {
      assert multiset(members)[i] == 0;
    }
  }

  lemma WithoutRoot(members: set<nat>, root: nat)
    requires root !in members
    ensures multiset(members + {root}) - multiset{root} == multiset(members)
  {
  }

  /** Ring i has been initialised, and enters the heap if it has a sample. */
  lemma Entered(start: seq<Ring>, was: seq<Ring>, rings: seq<Ring>, held: set<nat>, p: int, i: nat, clean: bool, ok: bool)
    requires Filled(start, was, held, p, i) && ReadFurther(was, rings, i) && i !in held && (ok ==> rings[i].time >= p)
    requires clean ==> Clean(was, p) && CleanHeads(was, held, p) && (ok ==> OriginalHead(rings[i]))
    requires Drained(was, held, i) && (!ok ==> rings[i].start == rings[i].end)
    ensures Filled(start, rings, if ok then held + {i} else held, p, i + 1)
    ensures Drained(rings, if ok then held + {i} else held, i + 1)
    ensures clean ==> Clean(rings, p) && CleanHeads(rings, if ok then held + {i} else held, p)
  {
    hide Filled, Clean, CleanHeads, OriginalHead;
    FilledStep(start, was, rings, held, p, i);
    if clean {
      StaysClean(was, rings, i, p);
      CleanHeadsAdd(was, rings, held, i, p);
    }
  }

  // ---- the time limit and the target of a call ----------------------------------------------------------

  /** No head has been put back in time. */
  predicate HeadsBy(rings: seq<Ring>, held: set<nat>) {
    forall i :: i in held && i < |rings| ==>
      && 0 < rings[i].start <= |rings[i].stream| && rings[i].stream[rings[i].start - 1].Sample?
      && rings[i].stream[rings[i].start - 1].time <= rings[i].time
  }

  /** No sample delivered from entry n on is beyond the time limit. */
  predicate Within(rings: seq<Ring>, log: seq<Event>, n: nat, limit: Option<int>) {
    forall k :: n <= k < |log| && log[k].Delivered? ==>
      && log[k].ring < |rings| && log[k].index < |rings[log[k].ring].stream|
      && rings[log[k].ring].stream[log[k].index].Sample?
      && (limit.Some? ==> rings[log[k].ring].stream[log[k].index].time <= limit.value)
  }

  predicate Below(e: Event, i: nat, end: int) { e.Delivered? && e.ring == i && e.index < end }

  /** The last sample delivered, from entry n on, is one of ring i below end. */
  predicate LastBelow(log: seq<Event>, n: nat, i: nat, end: int) {
    exists k :: n <= k < |log| && Below(log[k], i, end) && NoneDelivered(log, k + 1)
  }

  /** Inside a call: the cursor of the target has not passed its end by a delivery, or with the last one. */
  predicate Targeted(rings: seq<Ring>, held: set<nat>, log: seq<Event>, n: nat, target: Option<nat>, end: int, hit: bool) {
    target.Some? ==>
      if hit then LastBelow(log, n, target.value, end)
      else forall k :: n <= k < |log| && Below(log[k], target.value, end) ==>
             target.value < |rings| && Handled(rings[target.value], target.value in held) < end
  }

  /** After a call that has delivered samples of the target below its end, and reached it: nothing is delivered beyond it. */
  predicate StopsAt(rings: seq<Ring>, log: seq<Event>, n: nat, i: nat, end: int) {
    (exists k :: n <= k < |log| && Below(log[k], i, end)) && i < |rings| && end <= rings[i].start ==> LastBelow(log, n, i, end)
  }

  lemma OriginalIsLate(r: Ring, p: int)
    ensures OriginalOr(r, p) ==> r.time >= p
  {
  }

  lemma HeadsEntered(was: seq<Ring>, rings: seq<Ring>, held: set<nat>, i: nat, ok: bool, p: int)
    requires HeadsBy(was, held) && ReadFurther(was, rings, i) && i !in held && (ok ==> OriginalOr(rings[i], p))
    ensures HeadsBy(rings, if ok then held + {i} else held)
  {
  }

  lemma HeadsStepped(a: seq<Ring>, b: seq<Ring>, c: seq<Ring>, was: set<nat>, now: set<nat>, root: nat)
    requires HeadsBy(a, was) && root < |a| == |b| && b == a[root := b[root]] && ReadFurther(b, c, root)
    requires now == (if root in now then was else was - {root}) && (root in now ==> OriginalHead(c[root]))
    ensures HeadsBy(c, now)
  {
  }

  lemma OthersStay(a: seq<Ring>, b: seq<Ring>, c: seq<Ring>, was: set<nat>, now: set<nat>, root: nat)
    requires root < |a| == |b| && b == a[root := b[root]] && ReadFurther(b, c, root)
    requires now == if root in now then was else was - {root}
    ensures |a| == |c| && forall i :: 0 <= i < |a| && i != root ==> c[i].start == a[i].start && (i in now <==> i in was)
  {
  }

  lemma WithinStep(a: seq<Ring>, c: seq<Ring>, held: set<nat>, log: seq<Event>, rest: seq<Event>, root: nat, q: int, n: nat, limit: Option<int>)
    requires Within(a, log, n, limit) && n <= |log| && SameStreams(a, c) && HeadsBy(a, held) && root in held && root < |a|
    requires limit.Some? ==> a[root].time <= limit.value
    requires a[root].start > 0 && log + [Delivered(root, a[root].start - 1, q)] <= rest && NoneDelivered(rest, |log| + 1)
    ensures Within(c, rest, n, limit)
  {
    forall k | n <= k < |rest| && rest[k].Delivered?
      ensures rest[k].ring < |c| && rest[k].index < |c[rest[k].ring].stream|
      ensures c[rest[k].ring].stream[rest[k].index].Sample?
      ensures limit.Some? ==> c[rest[k].ring].stream[rest[k].index].time <= limit.value
    {
      assert rest[k] == (log + [Delivered(root, a[root].start - 1, q)])[k];
    }
  }

  lemma TargetStep(a: seq<Ring>, c: seq<Ring>, was: set<nat>, now: set<nat>, log: seq<Event>, rest: seq<Event>, root: nat, q: int,
                   n: nat, target: Option<nat>, end: int, hit: bool)
    requires Targeted(a, was, log, n, target, end, false) && n <= |log| && root in was && root < |a| == |c| && a[root].start > 0
    requires log + [Delivered(root, a[root].start - 1, q)] <= rest && NoneDelivered(rest, |log| + 1)
    requires forall i :: 0 <= i < |a| && i != root ==> c[i].start == a[i].start && (i in now <==> i in was)
    requires hit <==> target == Some(root) && a[root].start <= end <= Handled(c[root], root in now)
    ensures Targeted(c, now, rest, n, target, end, hit)
  {
    var all := log + [Delivered(root, a[root].start - 1, q)];
    assert rest[|log|] == all[|log|];
    if hit {
      assert Below(rest[|log|], root, end);
    } else if target.Some? {
      forall k | n <= k < |rest| && Below(rest[k], target.value, end)
        ensures target.value < |c| && Handled(c[target.value], target.value in now) < end
      {
        assert rest[k] == all[k];
      }
    }
  }

  /** One delivery and the next read. */
  lemma DeliveryKeeps(a: seq<Ring>, b: seq<Ring>, c: seq<Ring>, was: set<nat>, now: set<nat>, log: seq<Event>, rest: seq<Event>,
                      root: nat, q: int, n: nat, target: Option<nat>, end: int, limit: Option<int>, hit: bool)
    requires HeadsBy(a, was) && Within(a, log, n, limit) && Targeted(a, was, log, n, target, end, false)
    requires n <= |log| && SameStreams(a, c) && root in was && root < |a| == |b| && b == a[root := b[root]] && ReadFurther(b, c, root)
    requires now == (if root in now then was else was - {root}) && (root in now ==> OriginalHead(c[root]))
    requires limit.Some? ==> a[root].time <= limit.value
    requires a[root].start > 0 && log + [Delivered(root, a[root].start - 1, q)] <= rest && NoneDelivered(rest, |log| + 1)
    requires hit <==> target == Some(root) && a[root].start <= end <= Handled(c[root], root in now)
    ensures HeadsBy(c, now) && Within(c, rest, n, limit) && Targeted(c, now, rest, n, target, end, hit)
  {
    hide HeadsBy, Within, Targeted, NoneDelivered, SameStreams, OriginalHead;
    HeadsStepped(a, b, c, was, now, root);
    WithinStep(a, c, was, log, rest, root, q, n, limit);
    OthersStay(a, b, c, was, now, root);
    TargetStep(a, c, was, now, log, rest, root, q, n, target, end, hit);
  }

  lemma NothingWithin(rings: seq<Ring>, log: seq<Event>, n: nat, limit: Option<int>)
    requires n >= |log|
    ensures Within(rings, log, n, limit) && forall i: nat, end: int :: StopsAt(rings, log, n, i, end)
  {
  }

  lemma TargetStarts(rings: seq<Ring>, held: set<nat>, log: seq<Event>, n: nat, target: Option<nat>, end: int, limit: Option<int>)
    requires NoneDelivered(log, n)
    ensures Targeted(rings, held, log, n, target, end, false) && Within(rings, log, n, limit)
  {
  }

  /** The loss prediction does not matter here either. */
  lemma MarkedWithin(a: seq<Ring>, b: seq<Ring>, root: nat, held: set<nat>, log: seq<Event>, n: nat, target: Option<nat>, end: int, limit: Option<int>)
    requires Marked(a, b, root)
    ensures HeadsBy(a, held) ==> HeadsBy(b, held)
    ensures Within(a, log, n, limit) ==> Within(b, log, n, limit)
    ensures Targeted(a, held, log, n, target, end, false) ==> Targeted(b, held, log, n, target, end, false)
  {
    hide LastBelow, Below;
  }

  lemma CallStops(a: seq<Ring>, b: seq<Ring>, was: set<nat>, log: seq<Event>, n: nat, target: Option<nat>, end: int, hit: bool, limit: Option<int>)
    requires Returned(a, b, was, {}) && Targeted(a, was, log, n, target, end, hit) && Within(a, log, n, limit)
    ensures Within(b, log, n, limit) && (target.Some? ==> StopsAt(b, log, n, target.value, end))
  {
    hide LastBelow, Below;
  }

  /** Nothing beyond the second limit is within the first. */
  predicate Tighter(a: Option<int>, b: Option<int>) { b.Some? ==> a.Some? && a.value <= b.value }

  lemma WithinOn(a: seq<Ring>, b: seq<Ring>, log: seq<Event>, rest: seq<Event>, n: nat, limit: Option<int>, latest: Option<int>)
    requires SameStreams(a, b) && n <= |log| && log <= rest && Within(b, rest, |log|, limit)
    ensures Within(a, log, n, latest) && Tighter(limit, latest) ==> Within(b, rest, n, latest)
  {
    if Within(a, log, n, latest) && Tighter(limit, latest) {
      forall k | n <= k < |rest| && rest[k].Delivered?
        ensures rest[k].ring < |b| && rest[k].index < |b[rest[k].ring].stream|
        ensures b[rest[k].ring].stream[rest[k].index].Sample?
        ensures latest.Some? ==> b[rest[k].ring].stream[rest[k].index].time <= latest.value
      {
        assert k < |log| ==> rest[k] == log[k];
      }
    }
  }

  class Merger {
    var rings: seq<Ring>
    const heap: array<nat>
    var nr: nat
    var poppedTime: int
    var prevLostTime: int
    var unordered: int
    var fixed: int
    var unorderedLoss: int
    var pendingLoss: nat
    /** One entry per reference held on the device of a ring (prof_dev_get / prof_dev_put). */
    var refs: multiset<nat>
    var log: seq<Event>
    var inProcess: bool
    ghost var held: set<nat>
    /** The rings and the popped time each call found. */
    ghost var entries: seq<(seq<Ring>, int)>

    constructor (rings: seq<Ring>)
      requires forall i :: 0 <= i < |rings| ==> GoodRing(rings[i]) && rings[i].start == 0 && rings[i].mono == 0
      ensures Valid() && held == {} && log == [] && entries == [] && this.rings == rings && fresh(heap)
    {
      this.rings := rings;
      heap := new nat[|rings|];
      nr, poppedTime, prevLostTime, pendingLoss := 0, 0, 0, 0;
      unordered, fixed, unorderedLoss, refs, log, inProcess := 0, 0, 0, multiset{}, [], false;
      held, entries := {}, [];
    }

    /** What holds between calls and at every point inside them, whatever the rings contain. */
    ghost predicate Valid()
      reads this
    {
      Sound() && Kept(rings, log)
    }

    /** The same while a LOST record waits for the next sample. */
    ghost predicate Sound()
      reads this
    {
      && |rings| == heap.Length
      && Conserved(rings, held, log) && GoodLog(log, poppedTime) && MonosBy(rings, poppedTime)
      && prevLostTime <= poppedTime && unordered == 0 && unorderedLoss == 0
    }

    /** The heap array holds exactly the held rings, least head first. */
    ghost predicate HeapHolds()
      reads this, heap
    {
      nr <= heap.Length && HeapOf(heap[..nr], rings, held, 0)
    }

    /** perf_mmap__read_event on a ring whose head is not held: sees what the kernel has written by now. */
    method Read(i: nat) returns (found: bool, rec: Record)
      requires i < |rings| && GoodRing(rings[i])
      modifies this`rings
      ensures |rings| == |old(rings)| && rings == old(rings)[i := rings[i]]
      ensures rings[i] == old(rings[i]).(start := rings[i].start, end := rings[i].end)
      ensures found == (old(rings[i].start) < rings[i].end) && GoodRing(rings[i])
      ensures found ==> rings[i].start == old(rings[i].start) + 1 && rec == rings[i].stream[rings[i].start - 1]
      ensures !found ==> rings[i].start == old(rings[i].start)
    {
      var r := rings[i];
      var end :| r.end <= end <= |r.stream|;
      found := r.start < end;
      if found {
        rec := r.stream[r.start];
        rings := rings[i := r.(start := r.start + 1, end := end)];
      } else {
        rec := Other(0);
        rings := rings[i := r.(end := end)];
      }
    }

    /** Rings other than i are as they were; ring i has only been read further. */
    twostate predicate OnlyRead(i: nat)
      reads this
    {
      && |rings| == |old(rings)| && i < |rings|
      && rings == old(rings)[i := rings[i]]
      && rings[i] == old(rings)[i].(start := rings[i].start, end := rings[i].end)
      && rings[i].start >= old(rings)[i].start
    }

    /** Nothing has been delivered and no loss reported from the loop since the old state. */
    twostate predicate Quiet()
      reads this
    {
      && old(log) <= log
      && forall k :: |old(log)| <= k < |log| ==> log[k].Passed? || log[k].Swallowed?
    }

    /** A record that is not a sample: handed over, or kept back when losses are reported. */
    method HandleOther(i: nat, rec: Record)
      requires i < |rings| && i !in held && !rec.Sample?
      requires rings[i].start > 0 && GoodRing(rings[i]) && rec == rings[i].stream[rings[i].start - 1] && GoodLog(log, poppedTime)
      requires Conserved(rings[i := rings[i].(start := rings[i].start - 1)], held, log)
      modifies this`log, this`pendingLoss
      ensures Conserved(rings, held, log) && GoodLog(log, poppedTime) && Quiet()
      ensures log == old(log) + [Entry(rec, rings[i].reportsLoss, i, rings[i].start - 1)]
      ensures pendingLoss == if rec.Lost? && rings[i].reportsLoss then rec.count else old(pendingLoss)
    {
      hide GoodLog, Conserved;
      var e;
      if rec.Lost? && rings[i].reportsLoss {
        pendingLoss := rec.count;
        e := Swallowed(i, rings[i].start - 1);
      } else {
        e := Passed(i, rings[i].start - 1);
      }
      OtherKept(rings, held, log, i, e);
      GoodLogAppend(log, poppedTime, e, poppedTime);
      log := log + [e];
    }

    /** One turn of the loop below. */
    method ReadOne(i: nat) returns (found: bool, sample: bool)
      requires i < |rings| && i !in held && Conserved(rings, held, log) && GoodLog(log, poppedTime)
      modifies this`rings, this`log, this`pendingLoss
      ensures OnlyRead(i) && GoodRing(rings[i]) && GoodLog(log, poppedTime)
      ensures rings[i].start == old(rings)[i].start + (if found then 1 else 0) && (!found ==> rings[i].start == rings[i].end)
      ensures Conserved(rings, if found && sample then held + {i} else held, log)
      ensures !found || sample ==> log == old(log) && pendingLoss == old(pendingLoss)
      ensures found && !sample ==>
                var rec := rings[i].stream[rings[i].start - 1];
                && log == old(log) + [Entry(rec, rings[i].reportsLoss, i, rings[i].start - 1)]
                && pendingLoss == if rec.Lost? && rings[i].reportsLoss then rec.count else old(pendingLoss)
    {
      hide GoodLog, Conserved;
      HeldRange(rings, held, log, i);
      var rec;
      found, rec := Read(i);
      sample := rec.Sample?;
      ReadKeeps(old(rings), rings, held, log, i);
      if found && !sample {
        HandleOther(i, rec);
      }
    }

    /**
     * Reads ring i up to its next sample, handling other records on the way: the retry loop of
     * perf_mmap_event_init and the process/consume loop of order_process. `hit` tells whether the
     * cursor stood at targetEnd before one of the reads.
     */
    method ReadNext(i: nat, targetEnd: int) returns (found: bool, hit: bool)
      requires Valid() && i < |rings| && i !in held
      modifies this`rings, this`log, this`pendingLoss
      ensures OnlyRead(i) && Quiet()
      ensures Conserved(rings, if found then held + {i} else held, log) && GoodLog(log, poppedTime)
      ensures if found then rings[i].start > old(rings)[i].start else rings[i].start == rings[i].end
      ensures hit <==> old(rings)[i].start <= targetEnd <= StopAt(rings[i], found)
      ensures Passage(old(rings)[i], rings[i], found, i, old(log), log, old(pendingLoss), pendingLoss, [])
    {
      hide GoodLog, Conserved, Kept, Pending;
      hit := false;
      HeldRange(rings, held, log, i);
      while true
        invariant OnlyRead(i) && Conserved(rings, held, log) && GoodLog(log, poppedTime)
        invariant hit <==> old(rings)[i].start <= targetEnd < rings[i].start
        invariant rings[i].start <= |rings[i].stream|
        invariant log == old(log) + Others(rings[i].stream, rings[i].reportsLoss, i, old(rings)[i].start, rings[i].start)
        invariant pendingLoss == LossOf(rings[i].stream, rings[i].reportsLoss, old(rings)[i].start, rings[i].start, old(pendingLoss))
        decreases |rings[i].stream| - rings[i].start
      {
        hit := hit || rings[i].start == targetEnd;
        var sample;
        found, sample := ReadOne(i);
        if !found || sample {
          OthersQuiet(rings[i].stream, rings[i].reportsLoss, i, old(rings)[i].start, StopAt(rings[i], found));
          return;
        }
      }
    }

    /** perf_mmap_event_init: the first sample of the ring, not earlier than the popped time. */
    method EventInit(i: nat) returns (ok: bool)
      requires Valid() && i < |rings| && i !in held
      modifies this`rings, this`log, this`pendingLoss, this`fixed
      ensures |rings| == heap.Length && GoodLog(log, poppedTime) && MonosBy(rings, poppedTime)
      ensures Conserved(rings, if ok then held + {i} else held, log) && Kept(rings, log)
      ensures ReadFurther(old(rings), rings, i)
      ensures InitTurn(old(rings)[i], rings[i], ok, i, poppedTime, old(log), log, pendingLoss)
      ensures ok && Clean(old(rings), poppedTime) ==> fixed == old(fixed) && OriginalHead(rings[i])
      ensures !ok ==> fixed == old(fixed)
      ensures old(log) <= log && forall k :: |old(log)| <= k < |log| ==> !log[k].Delivered?
    {
      hide GoodLog, Taken, Upto, Conserved, Kept, Pending, Others, LossOf;
      pendingLoss := 0;
      TakenBy(rings, held, log, i);
      RingOf(rings, log, i);
      var hit;
      ok, hit := ReadNext(i, -1);
      ghost var read, logged := rings[i], log;
      if ok {
        FirstTime(i);
      } else {
        NoteEmpty(i);
      }
      var e := LossAtInit(i, rings[i].mono, rings[i].time, pendingLoss, poppedTime);
      if ok && pendingLoss > 0 {
        QuietRing(old(log), log, i, rings[i].mono);
        ConservedNote(rings, held + {i}, log, e);
        GoodLogAppend(log, poppedTime, e, poppedTime);
        log := log + [e];
      }
      KeptPassage(old(rings), read, rings, ok, i, old(log), logged, log, 0, pendingLoss, e);
    }

    /** The sample just read gets a time that is not earlier than the popped time (order.c:502-504). */
    method FirstTime(i: nat)
      requires i < |rings| && Conserved(rings, held + {i}, log)
      modifies this`rings, this`fixed
      ensures |rings| == |old(rings)| && rings == old(rings)[i := old(rings)[i].(time := rings[i].time)]
      ensures Conserved(rings, held + {i}, log) && OriginalOr(rings[i], poppedTime)
      ensures OriginalHead(rings[i]) ==> fixed == old(fixed)
    {
      hide Taken, Upto, Conserved;
      HeldIsSample(rings, held + {i}, log, i);
      var r := rings[i];
      var time := r.stream[r.start - 1].time;
      if time < poppedTime {
        time, fixed := poppedTime, fixed + 1;
      }
      rings := rings[i := r.(time := time)];
      Retimed(old(rings), held + {i}, log, i, rings[i]);
    }

    /** Nothing visible is left in ring i. */
    method NoteEmpty(i: nat)
      requires Conserved(rings, held, log) && GoodLog(log, poppedTime)
      modifies this`log
      ensures Conserved(rings, held, log) && GoodLog(log, poppedTime) && log == old(log) + [Emptied(i)]
    {
      hide Conserved;
      ConservedNote(rings, held, log, Emptied(i));
      GoodLogAppend(log, poppedTime, Emptied(i), poppedTime);
      log := log + [Emptied(i)];
    }

    /** Ring i goes to the end of the heap array and its device is referenced (order.c:646-647). */
    method Push(i: nat)
      requires nr < heap.Length && i !in held && multiset(heap[..nr]) == multiset(held)
      modifies this`nr, this`refs, this`held, heap
      ensures nr == old(nr) + 1 && refs == old(refs) + multiset{i} && held == old(held) + {i}
      ensures multiset(heap[..nr]) == multiset(held)
    {
      heap[nr] := i;
      assert heap[..nr + 1] == heap[..nr] + [i];
      nr, refs, held := nr + 1, refs + multiset{i}, held + {i};
    }

    /** One turn of order_heap_init: ring i enters the heap if it has a sample, and its device is referenced. */
    method InitOne(i: nat, ghost clean: bool, ghost start: seq<Ring>, ghost base: multiset<nat>)
      requires Valid() && i < |rings| && nr <= i && multiset(heap[..nr]) == multiset(held)
      requires refs == base + multiset(held) && Filled(start, rings, held, poppedTime, i)
      requires clean ==> Clean(rings, poppedTime) && CleanHeads(rings, held, poppedTime)
      requires Drained(rings, held, i) && HeadsBy(rings, held)
      modifies this`rings, this`log, this`pendingLoss, this`fixed, this`nr, this`refs, this`held, heap
      ensures Drained(rings, held, i + 1) && HeadsBy(rings, held)
      ensures Valid() && nr <= i + 1 && multiset(heap[..nr]) == multiset(held)
      ensures refs == base + multiset(held) && Filled(start, rings, held, poppedTime, i + 1)
      ensures clean ==> fixed == old(fixed) && Clean(rings, poppedTime) && CleanHeads(rings, held, poppedTime)
      ensures old(log) <= log && NoneDelivered(log, |old(log)|)
    {
      hide GoodLog, Conserved, SortedStream, Clean, CleanHeads, MonosBy, Filled, Taken, Upto, OriginalHead, ReadFurther, GoodRing, Drained, Kept, Pending, HeadsBy, OriginalOr;
      NotYetHeld(start, rings, held, poppedTime, i);
      var ok := EventInit(i);
      OriginalIsLate(rings[i], poppedTime);
      Entered(start, old(rings), rings, held, poppedTime, i, clean, ok);
      HeadsEntered(old(rings), rings, held, i, ok, poppedTime);
      if ok {
        Push(i);
      }
    }

    /** order_heap_init */
    method HeapInit()
      requires Valid() && held == {} && nr == 0
      modifies this`rings, this`log, this`pendingLoss, this`fixed, this`nr, this`refs, this`held, heap
      ensures Valid() && nr <= heap.Length && multiset(heap[..nr]) == multiset(held)
      ensures refs == old(refs) + multiset(held)
      ensures Filled(old(rings), rings, held, poppedTime, |rings|) && Drained(rings, held, |rings|) && HeadsBy(rings, held)
      ensures Clean(old(rings), poppedTime) ==> fixed == old(fixed) && CleanHeads(rings, held, poppedTime)
      ensures old(log) <= log && NoneDelivered(log, |old(log)|)
    {
      hide GoodLog, Conserved, SortedStream, Clean, CleanHeads, MonosBy, Filled, Kept, Pending;
      ghost var clean := Clean(rings, poppedTime);
      NothingHeld(rings, poppedTime);
      for i := 0 to |rings|
        invariant Valid() && nr <= i && multiset(heap[..nr]) == multiset(held)
        invariant refs == old(refs) + multiset(held) && |rings| == |old(rings)|
        invariant Filled(old(rings), rings, held, poppedTime, i) && Drained(rings, held, i) && HeadsBy(rings, held)
        invariant clean ==> fixed == old(fixed) && Clean(rings, poppedTime) && CleanHeads(rings, held, poppedTime)
        invariant old(log) <= log && NoneDelivered(log, |old(log)|)
      {
        InitOne(i, clean, old(rings), old(refs));
      }
    }

    /** Repair inside the ring, the order check and the hand-over of the root's head (order.c:846-867). */
    method Deliver(root: nat)
      requires Valid() && root in held && root < |rings| && OneBehind(rings, held, poppedTime)
      requires forall i :: i in held && i < |rings| ==> rings[root].time <= rings[i].time
      modifies this`rings, this`log, this`fixed, this`unordered, this`poppedTime, this`held
      ensures Valid() && held == old(held) - {root} && poppedTime >= old(poppedTime)
      ensures rings == old(rings)[root := old(rings)[root].(time := poppedTime, mono := poppedTime)]
      ensures poppedTime == Repaired(old(rings)[root])
      ensures forall i :: i in held && i < |rings| ==> rings[i].time >= poppedTime
      ensures log == old(log) + [Delivered(root, rings[root].start - 1, poppedTime)]
      ensures Pending(old(rings), old(log), pendingLoss) ==> Pending(rings, log, pendingLoss)
      ensures CleanHeads(old(rings), old(held), old(poppedTime)) ==>
                fixed == old(fixed) && poppedTime == old(rings)[root].time
    {
      hide GoodLog, Taken, Upto, Kept, Pending;
      ghost var was := rings;
      var r := rings[root];
      assert RingConserved(r, true, Taken(log, root));
      var time := Repaired(r);
      LeastHeadAdvances(rings, held, poppedTime, root, time);
      if r.time < r.mono {
        fixed := fixed + 1;
      }
      rings := rings[root := r.(time := time, mono := time)];
      ghost var p := poppedTime;
      unordered := unordered + (if time < poppedTime then 1 else 0);
      poppedTime := if time < poppedTime then poppedTime else time;
      var e := Delivered(root, r.start - 1, time);
      TakenAppend(log, e, root);
      HandsOverHead(r, Taken(log, root));
      ConservedStep(was, held, log, root, rings[root], false, e);
      GoodLogAppend(log, p, e, poppedTime);
      KeptDelivered(was, rings, log, root, r.start - 1, time);
      log := log + [e];
      held := held - {root};
    }

    /** The heap array still holds root in front of the held rings, ordered behind it. */
    ghost predicate RootOut(root: nat)
      reads this, heap
    {
      && root < |rings| && root !in held
      && 0 < nr <= heap.Length && heap[0] == root && HeapOf(heap[..nr], rings, held + {root}, 1)
    }

    /** The next sample of the delivered ring re-enters the heap, or the ring leaves it (order.c:879-913). */
    method Advance(root: nat, targetEnd: int) returns (hit: bool, ghost loss: nat)
      requires Valid() && RootOut(root) && rings[root].mono == poppedTime && Pending(rings, log, pendingLoss)
      requires forall i :: i in held ==> rings[i].time >= poppedTime
      modifies this`rings, this`log, this`pendingLoss, this`prevLostTime, this`unorderedLoss, this`held, this`nr, this`refs, heap
      ensures Valid() && HeapHolds() && OneBehind(rings, held, poppedTime) && Pending(rings, log, pendingLoss)
      ensures held == old(held) || held == old(held) + {root}
      ensures root in held ==> refs == old(refs) && nr == old(nr)
      ensures root !in held ==> refs == old(refs) - multiset{root} && nr == old(nr) - 1
      ensures |rings| == |old(rings)| && ReadFurther(old(rings), rings, root) && (root in held ==> rings[root].start > old(rings)[root].start)
      ensures AdvanceTurn(old(rings)[root], rings[root], root in held, root, old(log), log, old(pendingLoss), loss)
      ensures pendingLoss == if root in held then 0 else loss
      ensures root !in held ==> rings[root].start == rings[root].end
      ensures hit <==> old(rings)[root].start <= targetEnd <= Handled(rings[root], root in held)
      ensures old(log) <= log && NoneDelivered(log, |old(log)|)
    {
      hide GoodLog, Taken, Upto, Conserved, HeapOf, Kept, Others, LossOf, Pending, OriginalHead, GoodRing, Report;
      TakenBy(rings, held, log, root);
      var found;
      found, hit := ReadNext(root, targetEnd);
      RootReplaced(heap[..nr], old(rings), rings, root, held + {root});
      loss := pendingLoss;
      ghost var read, logged := rings[root], log;
      Settle(root, found);
      if found {
        HeadTime(rings[root]);
      }
      KeptPassage(old(rings), read, rings, found, root, old(log), logged, log, old(pendingLoss), loss,
                  LossInLoop(root, poppedTime, rings[root].time, loss));
      ReportQuiet(found, loss, LossInLoop(root, poppedTime, rings[root].time, loss));
      NothingPending(rings, log);
    }

    /** Behind the read: the ring re-enters the heap and a pending loss is reported, or it leaves. */
    method Settle(root: nat, found: bool)
      requires RootOut(root) && |rings| == heap.Length && rings[root].mono == poppedTime && GoodLog(log, poppedTime)
      requires Conserved(rings, if found then held + {root} else held, log) && MonosBy(rings, poppedTime)
      requires prevLostTime <= poppedTime && unordered == 0 && unorderedLoss == 0
      modifies this`rings, this`log, this`pendingLoss, this`prevLostTime, this`unorderedLoss, this`held, this`nr, this`refs, heap
      ensures Sound() && HeapHolds() && held == (if found then old(held) + {root} else old(held))
      ensures rings == old(rings)[root := old(rings)[root].(time := rings[root].time)] && (found ==> OriginalHead(rings[root]))
      ensures log == old(log) + Report(found, old(pendingLoss), LossInLoop(root, poppedTime, rings[root].time, old(pendingLoss)))
      ensures pendingLoss == if found then 0 else old(pendingLoss)
      ensures if found then refs == old(refs) && nr == old(nr) else refs == old(refs) - multiset{root} && nr == old(nr) - 1
    {
      hide GoodLog, Taken, Upto, Conserved, HeapOf, OriginalHead, GoodRing;
      if found {
        ReEnter(root);
        if pendingLoss > 0 {
          ReportLoss(root);
        }
      } else {
        NoteEmpty(root);
        Leave(root);
      }
    }

    method ReEnter(root: nat)
      requires RootOut(root) && |rings| == heap.Length && Conserved(rings, held + {root}, log)
      modifies this`rings, this`held, heap
      ensures |rings| == |old(rings)| && rings == old(rings)[root := old(rings)[root].(time := rings[root].time)]
      ensures held == old(held) + {root} && Conserved(rings, held, log) && HeapHolds() && OriginalHead(rings[root])
    {
      hide Taken, Upto, Conserved, HeapFrom;
      ghost var was := rings;
      HeldIsSample(rings, held + {root}, log, root);
      var r := rings[root];
      rings := rings[root := r.(time := r.stream[r.start - 1].time)];
      Retimed(was, held + {root}, log, root, rings[root]);
      held := held + {root};
      RootReplaced(heap[..nr], was, rings, root, held);
      SiftDown(heap, nr, Times(rings), 0);
    }

    method Leave(root: nat)
      requires RootOut(root)
      modifies this`nr, this`refs, heap
      ensures nr == old(nr) - 1 && refs == old(refs) - multiset{root} && HeapHolds()
    {
      hide HeapFrom, Keyed;
      WithoutRoot(held, root);
      Pop(heap, nr, Times(rings));
      nr, refs := nr - 1, refs - multiset{root};
    }

    /** prof->lost from the loop: the range starts at the popped time (order.c:898-908). */
    method ReportLoss(root: nat)
      requires Sound() && root < |rings| && rings[root].mono == poppedTime
      modifies this`log, this`pendingLoss, this`prevLostTime, this`unorderedLoss
      ensures Sound() && prevLostTime == poppedTime && pendingLoss == 0
      ensures log == old(log) + [LossInLoop(root, poppedTime, rings[root].time, old(pendingLoss))]
    {
      hide GoodLog, Conserved;
      var r := rings[root];
      unorderedLoss := unorderedLoss + (if r.mono < prevLostTime then 1 else 0);
      prevLostTime := if r.mono < prevLostTime then prevLostTime else r.mono;
      var e := LossInLoop(root, r.mono, r.time, pendingLoss);
      ConservedNote(rings, held, log, e);
      GoodLogAppend(log, poppedTime, e, poppedTime);
      log := log + [e];
      pendingLoss := 0;
    }

    /**
     * Loss prediction (order.c:804-824): a ring without room for another record keeps its head back
     * until the kernel has written more.
     */
    method KeepsBack(root: nat) returns (wait: bool)
      requires root < |rings| && GoodRing(rings[root]) && rings[root].start > 0
      modifies this`rings
      ensures Marked(old(rings), rings, root)
      ensures wait ==> rings[root].paused && rings[root].maybeLostEnd == Offset(rings[root].stream, rings[root].end)
      ensures wait ==> rings[root].start == rings[root].end
      ensures !wait ==> GoesOn(old(rings)[root], rings[root])
      ensures var r := old(rings)[root]; Offset(r.stream, r.end) == r.maybeLostEnd && r.start == |r.stream| ==> wait
    {
      var r := rings[root];
      var end: int := Offset(r.stream, r.end);
      if end != r.maybeLostEnd {
        var room := HasSpace(r, r.watermark + r.stream[r.start - 1].size);
        rings := rings[root := r.(maybeLostEnd := if room then end - 1 else end, paused := false)];
        return false;
      }
      var head :| r.end <= head <= |r.stream|;
      rings := rings[root := r.(paused := head == r.start)];
      return head == r.start;
    }

    /** Everything the loop keeps. */
    ghost predicate Running()
      reads this, heap
    {
      Valid() && HeapHolds() && OneBehind(rings, held, poppedTime) && Pending(rings, log, pendingLoss)
    }

    /** One delivery from the root of the heap, up to the read of the ring's next sample. */
    method Step(root: nat, target: Option<nat>, targetEnd: int, ghost limit: Option<int>,
                ghost clean: bool, ghost n: nat, ghost base: multiset<nat>) returns (hit: bool)
      requires Running() && nr > 0 && heap[0] == root && refs == base + multiset(held) && n <= |log|
      requires clean ==> CleanHeads(rings, held, poppedTime) && Unchanged(rings, log, n)
      requires root < |rings| && !rings[root].paused && (limit.Some? ==> rings[root].time <= limit.value)
      requires HeadsBy(rings, held) && Within(rings, log, n, limit) && Targeted(rings, held, log, n, target, targetEnd, false)
      modifies this`rings, this`log, this`fixed, this`unordered, this`poppedTime, this`held
      modifies this`pendingLoss, this`prevLostTime, this`unorderedLoss, this`nr, this`refs, heap
      ensures Running() && old(poppedTime) <= poppedTime && old(log) <= log
      ensures refs == base + multiset(held)
      ensures Progress(old(rings), old(nr), rings, nr) && SameStreams(old(rings), rings)
      ensures clean ==> fixed == old(fixed) && CleanHeads(rings, held, poppedTime) && Unchanged(rings, log, n)
      ensures hit ==> target == Some(root) && root < |rings| && targetEnd <= Handled(rings[root], root in held)
      ensures HeadsBy(rings, held) && Within(rings, log, n, limit) && Targeted(rings, held, log, n, target, targetEnd, hit)
      ensures Drained(old(rings), old(held), |rings|) ==> Drained(rings, held, |rings|)
    {
      hide GoodLog, Conserved, HeapOf, MonosBy, OneBehind, CleanHeads, Unchanged, Progress, Drained, NoneDelivered, Kept, Pending, SameStreams, OriginalHead, ReadFurther, HeadsBy, Within, Targeted;
      ghost var mid;
      hit, mid := Turn(root, if target == Some(root) then targetEnd else -1, base);
      DeliveryKeeps(old(rings), mid, rings, old(held), held, old(log), log, root, poppedTime, n, target, targetEnd, limit, hit);
      if clean {
        CleanStep(old(rings), mid, rings, old(held), old(log), log, root, old(poppedTime), poppedTime, n);
      }
    }

    /** The same, whatever the rings contain. */
    method Turn(root: nat, targetEnd: int, ghost base: multiset<nat>) returns (hit: bool, ghost mid: seq<Ring>)
      requires Running() && nr > 0 && heap[0] == root && refs == base + multiset(held)
      modifies this`rings, this`log, this`fixed, this`unordered, this`poppedTime, this`held
      modifies this`pendingLoss, this`prevLostTime, this`unorderedLoss, this`nr, this`refs, heap
      ensures Running() && old(poppedTime) <= poppedTime && refs == base + multiset(held)
      ensures Progress(old(rings), old(nr), rings, nr) && SameStreams(old(rings), rings) && |rings| == |old(rings)|
      ensures root < |rings| && root in old(held) && old(rings)[root].start > 0
      ensures held == (if root in held then old(held) else old(held) - {root})
      ensures mid == old(rings)[root := old(rings)[root].(time := poppedTime, mono := poppedTime)] && ReadFurther(mid, rings, root)
      ensures forall i :: i in old(held) - {root} ==> i < |mid| && poppedTime <= mid[i].time
      ensures root in held ==> rings[root].start > mid[root].start && OriginalHead(rings[root])
      ensures old(log) + [Delivered(root, old(rings)[root].start - 1, poppedTime)] <= log && NoneDelivered(log, |old(log)| + 1)
      ensures CleanHeads(old(rings), old(held), old(poppedTime)) ==> fixed == old(fixed) && poppedTime == old(rings)[root].time
      ensures hit <==> old(rings)[root].start <= targetEnd <= Handled(rings[root], root in held)
      ensures Drained(old(rings), old(held), |rings|) ==> Drained(rings, held, |rings|)
    {
      hide GoodLog, Conserved, HeapOf, MonosBy, OneBehind, CleanHeads, Progress, RootOut, Drained, Passage, NoneDelivered, Kept, Pending, SameStreams, OriginalHead, GoodRing, ReadFurther;
      DeliverRoot(root);
      mid := rings;
      ghost var loss;
      hit, loss := Advance(root, targetEnd);
      HeldRange(rings, held, log, root);
      Stepped(old(rings), mid, rings, old(held), held, root, old(nr), nr, base, poppedTime);
    }

    /** Deliver, with the heap around it. */
    method DeliverRoot(root: nat)
      requires Running() && nr > 0 && heap[0] == root
      modifies this`rings, this`log, this`fixed, this`unordered, this`poppedTime, this`held
      ensures Valid() && root in old(held) && held == old(held) - {root} && poppedTime >= old(poppedTime)
      ensures root < |rings| && RootOut(root) && old(rings)[root].start > 0
      ensures rings == old(rings)[root := old(rings)[root].(time := poppedTime, mono := poppedTime)]
      ensures forall i :: i in held ==> i < |rings| && rings[i].time >= poppedTime
      ensures log == old(log) + [Delivered(root, old(rings)[root].start - 1, poppedTime)] && Pending(rings, log, pendingLoss)
      ensures DeliverTurn(old(rings)[root], rings[root], root, poppedTime, old(log), log)
      ensures CleanHeads(old(rings), old(held), old(poppedTime)) ==>
                fixed == old(fixed) && poppedTime == old(rings)[root].time
    {
      hide GoodLog, Taken, Upto, Conserved, HeapOf, MonosBy, OneBehind, CleanHeads, Kept, Pending;
      HeapRoot(heap[..nr], rings, held);
      HeldIsSample(rings, held, log, root);
      Deliver(root);
      RootReplaced(heap[..nr], old(rings), rings, root, old(held));
      assert held + {root} == old(held);
    }

    /** What one call has achieved by its loop: base references, clean input unchanged, streams as given. */
    ghost predicate Since(start: seq<Ring>, base: multiset<nat>, clean: bool, n: nat, count: int)
      reads this
    {
      && refs == base + multiset(held) && SameStreams(start, rings) && n <= |log|
      && (clean ==> fixed == count && Unchanged(rings, log, n))
    }

    /** order_heap_init and min_heapify_all. */
    method Start(ghost clean: bool)
      requires Valid() && held == {} && nr == 0 && (clean ==> Clean(rings, poppedTime))
      modifies this`rings, this`log, this`pendingLoss, this`fixed, this`nr, this`refs, this`held, heap
      ensures Running() && Since(old(rings), old(refs), clean, |old(log)|, old(fixed)) && old(log) <= log
      ensures clean ==> CleanHeads(rings, held, poppedTime)
      ensures Drained(rings, held, |rings|) && HeadsBy(rings, held) && NoneDelivered(log, |old(log)|)
    {
      hide GoodLog, Taken, Upto, Conserved, MonosBy, OneBehind, Drained, Clean, CleanHeads, Unchanged, NoneDelivered, HeapFrom, Keyed, Kept, Pending, HeadsBy;
      HeapInit();
      pendingLoss := 0;
      NothingPending(rings, log);
      FilledIsKeyed(old(rings), rings, heap[..nr], held, poppedTime);
      NothingDelivered(rings, log, |old(log)|);
      Heapify(heap, nr, Times(rings));
    }

    /** Ring i is beyond the time limit or waits for the kernel to write more. */
    predicate HeldBack(i: nat, limit: Option<int>)
      reads this
    {
      i < |rings| && (rings[i].paused || (limit.Some? && rings[i].time > limit.value))
    }

    /** The merge loop (order.c:752-919). */
    method Merge(target: Option<nat>, targetEnd: int, limit: Option<int>,
                 ghost start: seq<Ring>, ghost base: multiset<nat>, ghost clean: bool, ghost n: nat, ghost count: int)
      returns (hit: bool)
      requires Running() && Since(start, base, clean, n, count)
      requires (clean ==> CleanHeads(rings, held, poppedTime)) && Drained(rings, held, |rings|)
      requires HeadsBy(rings, held) && NoneDelivered(log, n)
      modifies this`rings, this`log, this`fixed, this`unordered, this`poppedTime, this`held
      modifies this`pendingLoss, this`prevLostTime, this`unorderedLoss, this`nr, this`refs, heap
      ensures Within(rings, log, n, limit) && Targeted(rings, held, log, n, target, targetEnd, hit)
      ensures Running() && Since(start, base, clean, n, count) && Drained(rings, held, |rings|)
      ensures old(poppedTime) <= poppedTime && old(log) <= log
      ensures nr == 0 || hit || (heap.Length > 0 && heap[0] in held && HeldBack(heap[0], limit))
      ensures hit ==> target.Some? && target.value < |rings| && targetEnd <= Handled(rings[target.value], target.value in held)
    {
      hide GoodLog, Taken, Upto, Conserved, MonosBy, OneBehind, CleanHeads, Unchanged, HeapOf, Unread, Kept, Pending, Drained, SameStreams, HeadsBy, Within, Targeted, NoneDelivered;
      hit := false;
      TargetStarts(rings, held, log, n, target, targetEnd, limit);
      while nr > 0 && !hit
        invariant Running() && Since(start, base, clean, n, count)
        invariant (clean ==> CleanHeads(rings, held, poppedTime)) && Drained(rings, held, |rings|)
        invariant old(poppedTime) <= poppedTime && old(log) <= log
        invariant hit ==> target.Some? && target.value < |rings| && targetEnd <= Handled(rings[target.value], target.value in held)
        invariant HeadsBy(rings, held) && Within(rings, log, n, limit) && Targeted(rings, held, log, n, target, targetEnd, hit)
        decreases Unread(rings), nr
      {
        var root := heap[0];
        HeapRoot(heap[..nr], rings, held);
        if limit.Some? && rings[root].time > limit.value { return; }
        ghost var given := rings;
        var wait := Hold(root, start, n);
        MarkedWithin(given, rings, root, held, log, n, target, targetEnd, limit);
        if wait { return; }
        ghost var was := rings;
        hit := Step(root, target, targetEnd, limit, clean, n, base);
        StillUnchanged(start, was, rings, log, n);
      }
    }

    /** KeepsBack changes nothing that matters to the merge. */
    method Hold(root: nat, ghost start: seq<Ring>, ghost n: nat) returns (wait: bool)
      requires Running() && nr > 0 && heap[0] == root && root in held && root < |rings|
      modifies this`rings
      ensures Running() && Unread(rings) == Unread(old(rings)) && Marked(old(rings), rings, root)
      ensures wait <==> rings[root].paused
      ensures rings[root].time == old(rings)[root].time
      ensures Drained(old(rings), held, |rings|) ==> Drained(rings, held, |rings|)
      ensures CleanHeads(old(rings), held, poppedTime) ==> CleanHeads(rings, held, poppedTime)
      ensures SameStreams(start, old(rings)) ==> SameStreams(start, rings)
      ensures Unchanged(old(rings), log, n) ==> Unchanged(rings, log, n)
    {
      hide GoodLog, Taken, Upto, Conserved, MonosBy, OneBehind, CleanHeads, Unchanged, HeapOf, Unread, Kept, Pending;
      HeldIsSample(rings, held, log, root);
      HeldRange(rings, held, log, root);
      wait := KeepsBack(root);
      MarkedKeeps(old(rings), rings, root, held, log, poppedTime, heap[..nr]);
      MarkedUnread(old(rings), rings, root);
      KeptAlike(old(rings), rings, log);
      ReportedStreams(old(rings), rings, log);
      StillUnchanged(start, old(rings), rings, log, n);
    }

    /** perf_mmap__unread_event and prof_dev_put for one ring. */
    method PutBackOne(i: nat, ghost base: multiset<nat>)
      requires Valid() && i in held && i < |rings| && refs == base + multiset(held)
      modifies this`rings, this`held, this`refs
      ensures Valid() && held == old(held) - {i} && refs == base + multiset(held)
      ensures old(rings)[i].start > 0 && rings == old(rings)[i := old(rings)[i].(start := old(rings)[i].start - 1)]
      ensures rings[i].start < |rings[i].stream| && rings[i].stream[rings[i].start].Sample?
    {
      hide GoodLog, Taken, Upto, Conserved, MonosBy, Kept, Pending;
      HeldIsSample(rings, held, log, i);
      UnreadHead(rings, held, log, i, poppedTime);
      rings := rings[i := rings[i].(start := rings[i].start - 1)];
      PutBalances(base, held, held - {i}, i);
      held := held - {i};
      refs := refs - multiset{i};
      KeptAlike(old(rings), rings, log);
    }

    /** The heap array holds exactly the held rings. */
    ghost predicate InArray()
      reads this, heap
    {
      nr <= heap.Length && multiset(heap[..nr]) == multiset(held) && forall i :: i in held ==> i < |rings|
    }

    /** One turn of the loop that empties the heap. */
    method PutBackLast(ghost base: multiset<nat>, ghost was: seq<Ring>, ghost heads: set<nat>)
      requires Valid() && InArray() && nr > 0 && refs == base + multiset(held) && Returned(was, rings, heads, held)
      modifies this`rings, this`held, this`nr, this`refs
      ensures Valid() && InArray() && nr == old(nr) - 1 && refs == base + multiset(held) && Returned(was, rings, heads, held)
      ensures SameStreams(old(rings), rings)
    {
      hide GoodLog, Conserved, MonosBy, Kept, Pending, Returned;
      LastOut(heap[..nr], held);
      assert heap[..nr][..nr - 1] == heap[..nr - 1];
      nr := nr - 1;
      PutBackOne(heap[nr], base);
      ReturnedOne(was, old(rings), rings, heads, old(held), heap[nr]);
    }

    /** Un-reads what is left in the heap and puts its references (order.c:922-933). */
    method PutBack(ghost start: seq<Ring>, ghost base: multiset<nat>, ghost clean: bool, ghost n: nat, ghost count: int)
      requires Running() && Since(start, base, clean, n, count)
      modifies this`rings, this`held, this`nr, this`refs
      ensures Valid() && Since(start, base, clean, n, count) && nr == 0 && held == {}
      ensures Returned(old(rings), rings, old(held), held)
    {
      hide GoodLog, Conserved, MonosBy, OneBehind, Unchanged, HeapFrom, Keyed, Kept, Pending, Returned, SameStreams;
      NoneReturned(rings, held);
      assert InArray();
      while nr > 0
        invariant Valid() && InArray() && Since(start, base, clean, n, count) && Returned(old(rings), rings, old(held), held)
      {
        ghost var was := rings;
        PutBackLast(base, old(rings), old(held));
        StillUnchanged(start, was, rings, log, n);
      }
      NoneHeld(held);
    }

    /** perf_mmap__read_init and perf_mmap__empty on the target ring. */
    method Look(i: nat) returns (end: nat, empty: bool)
      requires Valid() && i < |rings| && held == {}
      modifies this`rings
      ensures Valid() && SameStreams(old(rings), rings) && end == rings[i].end && (empty <==> rings[i].start == end)
      ensures |rings| == |old(rings)| && old(rings)[i].end <= end <= |rings[i].stream| && rings[i].start == old(rings)[i].start
      ensures forall p :: Clean(old(rings), p) ==> Clean(rings, p)
    {
      hide GoodLog, Taken, Upto, Kept, Pending;
      assert RingConserved(rings[i], false, Taken(log, i));
      ghost var was := rings;
      end :| rings[i].end <= end <= |rings[i].stream|;
      rings := rings[i := rings[i].(end := end)];
      ConservedQuiet(was, held, log, i, rings[i], false);
      assert held - {i} == held;
      KeptAlike(was, rings, log);
      empty := rings[i].start == end;
      forall p | Clean(was, p)
        ensures Clean(rings, p)
      {
        StaysClean(was, rings, i, p);
      }
    }

    /** A call has read all that is visible, reached the target, or stopped at a sample it may not deliver. */
    ghost predicate Ended(target: Option<nat>, targetEnd: int, limit: Option<int>)
      reads this
    {
      || Drained(rings, {}, |rings|) || AnyWaits(rings, limit)
      || (target.Some? && target.value < |rings| && targetEnd <= rings[target.value].start)
    }

    /** The loop and what follows it. */
    method MergeAll(target: Option<nat>, targetEnd: int, limit: Option<int>,
                    ghost start: seq<Ring>, ghost base: multiset<nat>, ghost clean: bool, ghost n: nat, ghost count: int)
      requires Running() && Since(start, base, clean, n, count)
      requires (clean ==> CleanHeads(rings, held, poppedTime)) && Drained(rings, held, |rings|)
      requires HeadsBy(rings, held) && NoneDelivered(log, n)
      modifies this`rings, this`log, this`fixed, this`unordered, this`poppedTime, this`held
      modifies this`pendingLoss, this`prevLostTime, this`unorderedLoss, this`nr, this`refs, heap
      ensures Within(rings, log, n, limit) && (target.Some? ==> StopsAt(rings, log, n, target.value, targetEnd))
      ensures Valid() && Since(start, base, clean, n, count) && nr == 0 && held == {}
      ensures old(poppedTime) <= poppedTime && old(log) <= log && Ended(target, targetEnd, limit)
    {
      hide GoodLog, Conserved, MonosBy, OneBehind, CleanHeads, Unchanged, Kept, Pending, Drained, AnyWaits, Returned, Keyed, HeapFrom, HeadsBy, NoneDelivered, Within, Targeted, StopsAt;
      var hit := Merge(target, targetEnd, limit, start, base, clean, n, count);
      ghost var was, heads := rings, held;
      ghost var i := if hit then target.value else if nr > 0 then heap[0] else 0;
      if nr == 0 {
        NoneHeld(held);
      }
      PutBack(start, base, clean, n, count);
      CallStops(was, rings, heads, log, n, target, targetEnd, hit, limit);
      if i < |was| {
        CallEnds(was, rings, heads, limit, i);
      } else {
        NoRings(rings);
      }
    }

    /**
     * order_process: between calls no ring is held and every reference is put back; over the whole run
     * deliveries never go back in time, whatever the rings contain and whenever records arrive. A call
     * made while another one runs, from the processing of a record, changes nothing.
     */
    method OrderProcess(target: Option<nat>, limit: Option<int>) returns (ghost end: int)
      requires Valid() && (inProcess || held == {}) && (target.Some? ==> target.value < |rings|)
      modifies this, heap
      ensures Valid() && held == old(held) && refs == old(refs) && inProcess == old(inProcess)
      ensures SameStreams(old(rings), rings) && old(log) <= log && old(poppedTime) <= poppedTime
      ensures InOrder(log) && LossesSafe(log) && Kept(rings, log) && unordered == 0 && unorderedLoss == 0
      ensures Clean(old(rings), old(poppedTime)) ==> fixed == old(fixed) && Unchanged(rings, log, |old(log)|)
      ensures old(inProcess) ==>
                && rings == old(rings) && log == old(log) && poppedTime == old(poppedTime) && fixed == old(fixed)
                && nr == old(nr) && heap[..] == old(heap[..]) && pendingLoss == old(pendingLoss) && entries == old(entries)
      ensures !old(inProcess) ==> entries == old(entries) + [(old(rings), old(poppedTime))]
      ensures !old(inProcess) && target.Some? ==> old(rings)[target.value].end <= end <= |rings[target.value].stream|
      ensures !old(inProcess) ==> Ended(target, end, limit)
      ensures target.Some? && end == old(rings)[target.value].start ==> log == old(log) && poppedTime == old(poppedTime)
      ensures Within(rings, log, |old(log)|, limit) && (target.Some? ==> StopsAt(rings, log, |old(log)|, target.value, end))
    {
      hide Conserved, MonosBy, Clean, Unchanged, AllBy, InOrder, LossesSafe, Kept, Pending, Within, StopsAt;
      NothingDelivered(rings, log, |log|);
      NothingWithin(rings, log, |log|, limit);
      end := -1;
      if inProcess { return; }
      entries := entries + [(rings, poppedTime)];
      var targetEnd: int := -1;
      if target.Some? {
        var empty;
        targetEnd, empty := Look(target.value);
        end := targetEnd;
        NothingWithin(rings, log, |log|, limit);
        StillUnchanged(old(rings), old(rings), rings, log, |log|);
        if empty { return; }
      }
      inProcess := true;
      nr := 0;
      Sort(target, targetEnd, limit, old(rings), Clean(old(rings), poppedTime));
      inProcess := false;
    }

    /** The part of order_process between setting and clearing inprocess. */
    method Sort(target: Option<nat>, targetEnd: int, limit: Option<int>, ghost given: seq<Ring>, ghost clean: bool)
      requires Valid() && held == {} && nr == 0 && (clean ==> Clean(rings, poppedTime)) && SameStreams(given, rings)
      modifies this`rings, this`log, this`fixed, this`unordered, this`poppedTime, this`held
      modifies this`pendingLoss, this`prevLostTime, this`unorderedLoss, this`nr, this`refs, heap
      ensures Valid() && held == {} && refs == old(refs) && SameStreams(given, rings)
      ensures old(log) <= log && old(poppedTime) <= poppedTime && Ended(target, targetEnd, limit)
      ensures clean ==> fixed == old(fixed) && Unchanged(rings, log, |old(log)|)
      ensures Within(rings, log, |old(log)|, limit) && (target.Some? ==> StopsAt(rings, log, |old(log)|, target.value, targetEnd))
    {
      hide Conserved, MonosBy, OneBehind, Clean, CleanHeads, Unchanged, HeapOf, GoodLog, Drained, Kept, Pending, AnyWaits, SameStreams, HeadsBy, NoneDelivered, Within, StopsAt;
      Start(clean);
      StillUnchanged(given, old(rings), rings, log, |old(log)|);
      MergeAll(target, targetEnd, limit, given, old(refs), clean, |old(log)|, old(fixed));
      assert multiset(held) == multiset{};
    }

    /**
     * Any number of calls keeps the guarantees: samples of the whole run are delivered in time order, and
     * with the timestamps they had in their rings if every call found them clean; none is beyond `latest`
     * if no call's time limit is.
     */
    method Run(calls: seq<(Option<nat>, Option<int>)>, ghost latest: Option<int>)
      requires Valid() && held == {} && forall k :: 0 <= k < |calls| && calls[k].0.Some? ==> calls[k].0.value < |rings|
      modifies this, heap
      ensures Valid() && held == {} && refs == old(refs) && SameStreams(old(rings), rings) && old(log) <= log
      ensures InOrder(log) && LossesSafe(log) && Kept(rings, log) && unordered == 0 && unorderedLoss == 0
      ensures old(entries) <= entries && (!old(inProcess) ==> |entries| == |old(entries)| + |calls|)
      ensures AllClean(entries, |old(entries)|) ==> fixed == old(fixed) && Unchanged(rings, log, |old(log)|)
      ensures (forall k :: 0 <= k < |calls| ==> Tighter(calls[k].1, latest)) ==> Within(rings, log, |old(log)|, latest)
    {
      hide Conserved, MonosBy, AllBy, InOrder, LossesSafe, Kept, Pending, Unchanged, Clean, Within, StopsAt;
      NothingDelivered(rings, log, |log|);
      NothingWithin(rings, log, |log|, latest);
      for k := 0 to |calls|
        invariant Valid() && held == {} && refs == old(refs) && SameStreams(old(rings), rings) && old(log) <= log
        invariant inProcess == old(inProcess)
        invariant old(entries) <= entries && (!old(inProcess) ==> |entries| == |old(entries)| + k)
        invariant AllClean(entries, |old(entries)|) ==> fixed == old(fixed) && Unchanged(rings, log, |old(log)|)
        invariant (forall j :: 0 <= j < k ==> Tighter(calls[j].1, latest)) ==> Within(rings, log, |old(log)|, latest)
      {
        ghost var was, before, earlier, p := rings, log, entries, poppedTime;
        ghost var end := OrderProcess(calls[k].0, calls[k].1);
        UnchangedOn(was, rings, before, log, |old(log)|);
        WithinOn(was, rings, before, log, |old(log)|, calls[k].1, latest);
        if !inProcess {
          CleanBefore(earlier, was, p, |old(entries)|);
        }
      }
    }
  }
}
