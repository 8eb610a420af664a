/** Task-time accounting of task-state.c, without S/D mode or filters. */
module TaskState {
  import opened Common
  import opened Matcher
  import opened Latency
  import Timeline

  const RUNNING: bv32 := 0
  const RUNDELAY: bv32 := 2048

  /** task_report, report_max and state_dead. */
  datatype Kernel = Kernel(report: bv32, reportMax: bv32, dead: bv32)

  /** struct task_state_node */
  datatype Node = Node(state: bv32, time: nat)

  /** What an event means for one task: switched out in a state, switched in, woken up, woken up for the first time. */
  datatype Act = Out(state: bv32) | In | Wake | WakeNew

  datatype Sched = Switch(prev: int, prevState: bv32, next: int) | Wakeup(pid: int) | WakeupNew(pid: int)

  datatype Interval = Interval(pid: int, kind: bv32, start: nat, end: nat)

  /** Some bit of the mask is set. */
  predicate Has(state: bv32, mask: bv32) { Mask(state, mask) != 0 }

  function Mask(state: bv32, mask: bv32): bv32 { state & mask }

  // ---- one task -------------------------------------------------------------------------------------

  function StateAfter(k: Kernel, s: bv32): bv32 { if s == k.reportMax then RUNNING else s }

  function After(k: Kernel, n: Option<Node>, act: Act, t: nat): Option<Node> {
    match act
    case Out(s) => if Has(s, k.dead) then None else Some(Node(StateAfter(k, s), t))
    case In => Some(Node(RUNNING, t))
    case Wake => Some(Node(RUNNING, if n.None? || n.value.state != RUNNING then t else n.value.time))
    case WakeNew => Some(Node(RUNNING, t))
  }

  /** The kind of interval that ends with this event, if one is recorded. */
  function Recorded(k: Kernel, n: Option<Node>, act: Act, t: nat): Option<bv32> {
    if n.None? || t <= n.value.time then None
    else match act
      case Out(_) => if n.value.state == RUNNING then Some(RUNNING) else None
      case In => if n.value.state == RUNNING then Some(RUNDELAY) else None
      case _ => if Has(n.value.state, k.report) then Some(Mask(n.value.state, k.report)) else None
  }

  // ---- legal behaviour of a task ------------------------------------------------------------------------

  datatype Phase = OnCpu | Ready | Asleep

  /** Where a task is after an act. */
  function PhaseAfter(k: Kernel, act: Act): Phase {
    match act
    case Out(s) => if StateAfter(k, s) == RUNNING then Ready else Asleep
    case In => OnCpu
    case Wake => Ready
    case WakeNew => Ready
  }

  /** The scheduler's rules: out only from a CPU, in only from a run queue, a first wakeup only once. */
  predicate Follows(p: Phase, act: Act) {
    match act
    case Out(_) => p == OnCpu
    case In => p == Ready
    case Wake => true
    case WakeNew => false
  }

  /** A wakeup of a task that is awake changes nothing. */
  function NextPhase(k: Kernel, p: Phase, act: Act): Phase {
    if act.Wake? && p != Asleep then p else PhaseAfter(k, act)
  }

  /** Sleeping states that are reported. */
  predicate Reported(k: Kernel, act: Act) {
    act.Out? && StateAfter(k, act.state) != RUNNING ==> Has(act.state, k.report)
  }

  /**
   * A task since its node was made, whether or not it still has it: when that was, the time recorded
   * before and since, when it last changed its phase, where a lawful task would be, and whether it has
   * been lawful with all its states reported.
   */
  datatype Track = Track(born: nat, base: int, total: nat, last: nat, phase: Phase, lawful: bool)

  function TrackAfter(k: Kernel, n: Option<Node>, tr: Track, act: Act, t: nat): Track {
    var next := After(k, n, act, t);
    if n.None? then Track(t, tr.base + tr.total, 0, t, PhaseAfter(k, act), Reported(k, act))
    else
      Track(tr.born, tr.base, tr.total + (if Recorded(k, n, act, t).Some? then t - n.value.time else 0),
            if next.Some? then next.value.time else t,
            NextPhase(k, tr.phase, act), tr.lawful && Follows(tr.phase, act) && Reported(k, act))
  }

  function Unseen(): Track { Track(0, 0, 0, 0, Ready, false) }

  function TrackOf(tracks: map<int, Track>, pid: int): Track { if pid in tracks then tracks[pid] else Unseen() }

  /** No more time is recorded than has passed; a lawful task's time is all recorded. */
  predicate Accounts(tr: Track) {
    tr.born <= tr.last && tr.total <= tr.last - tr.born && (tr.lawful ==> tr.total == tr.last - tr.born)
  }

  /** A node and its track agree. */
  predicate Agrees(k: Kernel, n: Node, tr: Track) {
    && Accounts(tr) && tr.last == n.time
    && (tr.lawful ==> (tr.phase == Asleep <==> n.state != RUNNING) && (n.state != RUNNING ==> Has(n.state, k.report)))
  }

  lemma NoBits(mask: bv32)
    ensures !Has(RUNNING, mask)
  {
  }

  /** The telescoping step; it also closes the account of a task that dies. */
  lemma AgreesAfter(k: Kernel, n: Option<Node>, tr: Track, act: Act, t: nat)
    requires n.Some? ==> Agrees(k, n.value, tr) && n.value.time <= t
    ensures After(k, n, act, t).Some? ==> Agrees(k, After(k, n, act, t).value, TrackAfter(k, n, tr, act, t))
    ensures After(k, n, act, t).Some? ==> After(k, n, act, t).value.time <= t
    ensures Accounts(TrackAfter(k, n, tr, act, t)) && (After(k, n, act, t).None? ==> TrackAfter(k, n, tr, act, t).last == t)
  {
    hide Has;
    NoBits(k.report);
    match act
    case Out(_) =>
    case In =>
    case Wake =>
    case WakeNew =>
  }

  /** What the time a lawful task spends in a phase is recorded as. */
  predicate KindOf(k: Kernel, p: Phase, n: Node, kind: bv32) {
    match p
    case OnCpu => kind == RUNNING
    case Ready => kind == RUNDELAY
    case Asleep => kind == Mask(n.state, k.report) && kind != 0
  }

  /** A lawful task's time is recorded under the phase it was in, whenever time has passed and it leaves the phase. */
  lemma RightKind(k: Kernel, n: Node, tr: Track, act: Act, t: nat)
    requires Agrees(k, n, tr) && tr.lawful && Follows(tr.phase, act) && n.time < t
    ensures var r := Recorded(k, Some(n), act, t);
            if act.Wake? && tr.phase != Asleep then r.None? && After(k, Some(n), act, t) == Some(n)
            else r.Some? && KindOf(k, tr.phase, n, r.value)
  {
    hide Mask;
    NoBits(k.report);
    match act
    case Out(_) =>
    case In =>
    case Wake =>
    case WakeNew =>
  }

  // ---- whole runs ----------------------------------------------------------------------------------------

  /** A lost range that has been registered. */
  datatype Range = Range(start: nat, end: nat)

  /** Intervals of one task do not overlap. */
  predicate Disjoint(intervals: seq<Interval>) {
    forall i, j :: 0 <= i < j < |intervals| && intervals[i].pid == intervals[j].pid ==> intervals[i].end <= intervals[j].start
  }

  /** Intervals end by now, before the node's present state began. */
  predicate Behind(nodes: map<int, Node>, intervals: seq<Interval>, now: nat) {
    && (forall i :: 0 <= i < |intervals| ==> intervals[i].start < intervals[i].end <= now)
    && (forall i :: 0 <= i < |intervals| && intervals[i].pid in nodes ==> intervals[i].end <= nodes[intervals[i].pid].time)
    && (forall p :: p in nodes ==> nodes[p].time <= now)
  }

  /** Time recorded for a task. */
  function Total(intervals: seq<Interval>, pid: int): int {
    if intervals == [] then 0
    else
      var before, i := Total(intervals[..|intervals| - 1], pid), intervals[|intervals| - 1];
      if i.pid == pid then before + i.end - i.start else before
  }

  /** Since its first event no more time has been recorded for a task than has passed. */
  ghost predicate Bounded(nodes: map<int, Node>, intervals: seq<Interval>, first: map<int, nat>, now: nat) {
    && (forall p :: p in nodes ==> p in first)
    && (forall p :: p in first ==> first[p] <= now && Total(intervals, p) <= now - first[p])
    && (forall p :: p in nodes ==> first[p] <= nodes[p].time && Total(intervals, p) <= nodes[p].time - first[p])
    && (forall p :: p !in first ==> Total(intervals, p) == 0)
  }

  /** Intervals stay outside a lost range; once it is gone, so do the nodes. */
  predicate Respects(nodes: map<int, Node>, intervals: seq<Interval>, lost: seq<Loss>, now: nat, start: nat, end: nat) {
    && (forall i :: 0 <= i < |intervals| ==> intervals[i].end <= start || intervals[i].start >= end)
    && (Listed(lost, start, end) || (end <= now && forall p :: p in nodes ==> nodes[p].time >= end))
  }

  /** The lost list after the events up to now. */
  predicate Swept(nodes: map<int, Node>, lost: seq<Loss>, now: nat) {
    && SortedLoss(lost) && OneReclaimed(lost, now) && (lost != [] && lost[0].start < now ==> nodes == map[])
  }

  lemma TotalSnoc(intervals: seq<Interval>, i: Interval, p: int)
    ensures Total(intervals + [i], p) == Total(intervals, p) + if i.pid == p then i.end - i.start else 0
  {
    assert (intervals + [i])[..|intervals|] == intervals;
  }

  function Put(nodes: map<int, Node>, pid: int, n: Option<Node>): map<int, Node> {
    if n.Some? then nodes[pid := n.value] else nodes - {pid}
  }

  function Find(nodes: map<int, Node>, pid: int): Option<Node> { if pid in nodes then Some(nodes[pid]) else None }

  /** Nodes and intervals. */
  datatype Book = Book(nodes: map<int, Node>, intervals: seq<Interval>)

  function Touched(k: Kernel, b: Book, pid: int, act: Act, t: nat): Book {
    var n := Find(b.nodes, pid);
    var r := Recorded(k, n, act, t);
    Book(Put(b.nodes, pid, After(k, n, act, t)),
         b.intervals + if r.Some? && n.Some? then [Interval(pid, r.value, n.value.time, t)] else [])
  }

  /** What an event means for its pids: a switch takes one off and puts one on, idle ones aside. */
  function Booked(k: Kernel, b: Book, event: Sched, t: nat): Book {
    match event
    case Switch(prev, state, next) =>
      var b1 := if prev > 0 then Touched(k, b, prev, Out(state), t) else b;
      if next > 0 then Touched(k, b1, next, In, t) else b1
    case Wakeup(pid) => Touched(k, b, pid, Wake, t)
    case WakeupNew(pid) => Touched(k, b, pid, WakeNew, t)
  }

  /** What a mask test means, bit by bit. */
  lemma MaskIs(state: bv32, mask: bv32)
    ensures Mask(state, mask) == state & mask && (Has(state, mask) <==> state & mask != 0)
  {
  }

  /**
   * A switch puts next on the CPU, and the time it has waited in a run queue is recorded; prev goes off in
   * the state reported, or is gone if dead, and the time it has run is recorded. Idle tasks and all others
   * are left alone.
   */
  lemma SwitchBooked(k: Kernel, b: Book, prev: int, state: bv32, next: int, t: nat)
    ensures var r := Booked(k, b, Switch(prev, state, next), t);
            && (next > 0 ==> next in r.nodes && r.nodes[next] == Node(0, t))
            && (prev > 0 && prev != next ==>
                  if Has(state, k.dead) then prev !in r.nodes
                  else prev in r.nodes && r.nodes[prev] == Node(if state == k.reportMax then 0 else state, t))
            && (forall p :: p <= 0 || (p != prev && p != next) ==>
                  (p in r.nodes <==> p in b.nodes) && (p in b.nodes ==> r.nodes[p] == b.nodes[p]))
            && r.intervals == b.intervals
                + (if prev > 0 && prev in b.nodes && b.nodes[prev].state == 0 && b.nodes[prev].time < t
                   then [Interval(prev, 0, b.nodes[prev].time, t)] else [])
                + (if next > 0 && next != prev && next in b.nodes && b.nodes[next].state == 0 && b.nodes[next].time < t
                   then [Interval(next, 2048, b.nodes[next].time, t)] else [])
  {
    hide Touched, Has, Mask;
    var b1 := if prev > 0 then Touched(k, b, prev, Out(state), t) else b;
    OutBooked(k, b, prev, state, t);
    InBooked(k, b1, next, t);
  }

  lemma OutBooked(k: Kernel, b: Book, pid: int, state: bv32, t: nat)
    ensures var r := Touched(k, b, pid, Out(state), t);
            && (if Has(state, k.dead) then pid !in r.nodes
                else pid in r.nodes && r.nodes[pid] == Node(if state == k.reportMax then 0 else state, t))
            && (forall p :: p != pid ==> (p in r.nodes <==> p in b.nodes) && (p in b.nodes ==> r.nodes[p] == b.nodes[p]))
            && r.intervals == b.intervals +
                if pid in b.nodes && b.nodes[pid].state == 0 && b.nodes[pid].time < t
                then [Interval(pid, 0, b.nodes[pid].time, t)] else []
  {
    hide Has, Mask;
  }

  lemma InBooked(k: Kernel, b: Book, pid: int, t: nat)
    ensures var r := Touched(k, b, pid, In, t);
            && r.nodes == b.nodes[pid := Node(0, t)]
            && r.intervals == b.intervals +
                if pid in b.nodes && b.nodes[pid].state == 0 && b.nodes[pid].time < t
                then [Interval(pid, 2048, b.nodes[pid].time, t)] else []
  {
    hide Has, Mask;
    assert After(k, Find(b.nodes, pid), In, t).Some?;
  }

  /**
   * A wakeup puts its own task in the run queue, where one that is there already stays since when it was,
   * and the time it has slept is recorded under the reported part of its state.
   */
  lemma WakeupBooked(k: Kernel, b: Book, pid: int, t: nat, anew: bool)
    ensures var r := Booked(k, b, if anew then WakeupNew(pid) else Wakeup(pid), t);
            var waits := !anew && pid in b.nodes && b.nodes[pid].state == 0;
            && r.nodes == b.nodes[pid := Node(0, if waits then b.nodes[pid].time else t)]
            && r.intervals == b.intervals +
                if pid in b.nodes && Has(b.nodes[pid].state, k.report) && b.nodes[pid].time < t
                then [Interval(pid, Mask(b.nodes[pid].state, k.report), b.nodes[pid].time, t)] else []
  {
    hide Has, Mask;
    assert After(k, Find(b.nodes, pid), if anew then WakeNew else Wake, t).Some?;
  }

  /** What a lawful task may do: leave the CPU for a run queue or a reported sleep, be woken, and go on a CPU. */
  lemma LawfulSteps(k: Kernel, n: Node, tr: Track, t: nat, state: bv32)
    requires tr.lawful
    ensures var r := TrackAfter(k, Some(n), tr, Out(state), t);
            && (r.lawful <==> tr.phase == OnCpu && (state == k.reportMax || state == 0 || Has(state, k.report)))
            && r.phase == if state == k.reportMax || state == 0 then Ready else Asleep
    ensures var r := TrackAfter(k, Some(n), tr, In, t); (r.lawful <==> tr.phase == Ready) && r.phase == OnCpu
    ensures var r := TrackAfter(k, Some(n), tr, Wake, t); r.lawful && r.phase == if tr.phase == Asleep then Ready else tr.phase
    ensures TrackAfter(k, None, tr, In, t).lawful && TrackAfter(k, None, tr, WakeNew, t).lawful && TrackAfter(k, None, tr, Wake, t).lawful
  {
    hide Has, Mask;
  }

  /** One task is touched at t: its interval, if any, lies behind everything else of that task. */
  lemma TouchKeeps(k: Kernel, nodes: map<int, Node>, intervals: seq<Interval>, first: map<int, nat>, now: nat,
                   pid: int, act: Act, t: nat, after: seq<Interval>)
    requires now <= t && Disjoint(intervals) && Behind(nodes, intervals, now) && Bounded(nodes, intervals, first, now)
    requires var r := Recorded(k, Find(nodes, pid), act, t);
             after == intervals + if r.Some? then [Interval(pid, r.value, nodes[pid].time, t)] else []
    ensures var nodes' := Put(nodes, pid, After(k, Find(nodes, pid), act, t));
            var first' := if pid in first then first else first[pid := t];
            Disjoint(after) && Behind(nodes', after, t) && Bounded(nodes', after, first', t)
  {
    TouchBehind(k, nodes, intervals, now, pid, act, t, after);
    TouchBounded(k, nodes, intervals, first, now, pid, act, t, after);
  }

  lemma TouchBehind(k: Kernel, nodes: map<int, Node>, intervals: seq<Interval>, now: nat, pid: int, act: Act, t: nat, after: seq<Interval>)
    requires now <= t && Disjoint(intervals) && Behind(nodes, intervals, now)
    requires var r := Recorded(k, Find(nodes, pid), act, t);
             after == intervals + if r.Some? then [Interval(pid, r.value, nodes[pid].time, t)] else []
    ensures Disjoint(after) && Behind(Put(nodes, pid, After(k, Find(nodes, pid), act, t)), after, t)
  {
    hide Has;
    NoBits(k.report);
  }

  lemma TouchBounded(k: Kernel, nodes: map<int, Node>, intervals: seq<Interval>, first: map<int, nat>, now: nat,
                     pid: int, act: Act, t: nat, after: seq<Interval>)
    requires now <= t && Behind(nodes, intervals, now) && Bounded(nodes, intervals, first, now)
    requires var r := Recorded(k, Find(nodes, pid), act, t);
             after == intervals + if r.Some? then [Interval(pid, r.value, nodes[pid].time, t)] else []
    ensures Bounded(Put(nodes, pid, After(k, Find(nodes, pid), act, t)), after, if pid in first then first else first[pid := t], t)
  {
    hide Total, Has;
    NoBits(k.report);
    var r := Recorded(k, Find(nodes, pid), act, t);
    forall p
      ensures Total(after, p) == Total(intervals, p) + if r.Some? && pid == p then t - nodes[pid].time else 0
    {
      if r.Some? {
        TotalSnoc(intervals, Interval(pid, r.value, nodes[pid].time, t), p);
      } else {
        assert after == intervals;
      }
    }
  }

  /** A touched task keeps its intervals out of lost ranges. */
  lemma TouchRespects(k: Kernel, nodes: map<int, Node>, intervals: seq<Interval>, lost: seq<Loss>, now: nat,
                      pid: int, act: Act, t: nat, after: seq<Interval>, start: nat, end: nat)
    requires now <= t && Respects(nodes, intervals, lost, now, start, end)
    requires forall j :: 0 <= j < |lost| ==> t <= lost[j].start
    requires forall p :: p in nodes ==> nodes[p].time <= t
    requires var r := Recorded(k, Find(nodes, pid), act, t);
             after == intervals + if r.Some? then [Interval(pid, r.value, nodes[pid].time, t)] else []
    ensures Respects(Put(nodes, pid, After(k, Find(nodes, pid), act, t)), after, lost, t, start, end)
  {
  }

  /** Looking at the lost ranges before an event at t; `kept` are the nodes left. */
  lemma SweepKeeps(nodes: map<int, Node>, lost: seq<Loss>, now: nat, t: nat, kept: map<int, Node>)
    requires Swept(nodes, lost, now) && now <= t && kept == if Sweep(lost, t).reclaim then map[] else nodes
    ensures var v := Sweep(lost, t);
            && SortedLoss(v.rest) && OneReclaimed(v.rest, t) && (v.rest != [] && v.rest[0].start < t ==> kept == map[])
            && (v.find ==> forall j :: 0 <= j < |v.rest| ==> t <= v.rest[j].start)
  {
    SweepFacts(lost, t, now);
  }

  lemma SweepRespects(nodes: map<int, Node>, intervals: seq<Interval>, lost: seq<Loss>, now: nat, t: nat, kept: map<int, Node>, start: nat, end: nat)
    requires Swept(nodes, lost, now) && now <= t && kept == if Sweep(lost, t).reclaim then map[] else nodes
    requires Respects(nodes, intervals, lost, now, start, end)
    ensures Respects(kept, intervals, Sweep(lost, t).rest, t, start, end)
  {
    hide Sweep;
    SweepFacts(lost, t, now);
  }

  /** Fewer nodes, later now. */
  lemma Forget(nodes: map<int, Node>, intervals: seq<Interval>, first: map<int, nat>, now: nat, t: nat, kept: map<int, Node>)
    requires now <= t && Behind(nodes, intervals, now) && Bounded(nodes, intervals, first, now) && (kept == nodes || kept == map[])
    ensures Behind(kept, intervals, t) && Bounded(kept, intervals, first, t)
  {
    hide Total;
  }

  function Feeds(intervals: seq<Interval>, than: nat): seq<Feed> {
    if intervals == [] then []
    else
      var i := intervals[|intervals| - 1];
      Feeds(intervals[..|intervals| - 1], than) + [Feed(i.pid, i.kind as int, if i.start <= i.end then i.end - i.start else 0, than)]
  }

  lemma FeedsSnoc(intervals: seq<Interval>, i: Interval, than: nat)
    requires i.start <= i.end
    ensures Feeds(intervals + [i], than) == Feeds(intervals, than) + [Feed(i.pid, i.kind as int, i.end - i.start, than)]
  {
    assert (intervals + [i])[..|intervals|] == intervals;
  }

  /** Sum of the nodes of a task, over these kinds. */
  function NodeRows(nodes: map<(int, int), Stat>, pid: int, kinds: seq<int>): nat {
    if kinds == [] then 0
    else
      var slot := (pid, kinds[|kinds| - 1]);
      NodeRows(nodes, pid, kinds[..|kinds| - 1]) + if slot in nodes then nodes[slot].sum else 0
  }

  /** The same of what was fed to their slots. */
  function Rows(fed: seq<Feed>, pid: int, kinds: seq<int>): nat {
    if kinds == [] then 0
    else Rows(fed, pid, kinds[..|kinds| - 1]) + Summary(true, true, fed, (pid, kinds[|kinds| - 1])).sum
  }

  /** One more entry adds to one row. */
  lemma {:induction false} RowsSnoc(fed: seq<Feed>, f: Feed, pid: int, kinds: seq<int>)
    requires NoDup(kinds)
    ensures Rows(fed + [f], pid, kinds) == Rows(fed, pid, kinds) + if f.instance == pid && f.key in kinds then f.lat else 0
    decreases |kinds|
  {
    hide Summary;
    if kinds != [] {
      var n := |kinds| - 1;
      RowsSnoc(fed, f, pid, kinds[..n]);
      SummarySnoc(true, true, fed, f, (pid, kinds[n]));
      assert f.key in kinds <==> f.key in kinds[..n] || f.key == kinds[n];
      assert f.key == kinds[n] ==> f.key !in kinds[..n];
    }
  }

  lemma {:induction false} NoRows(pid: int, kinds: seq<int>)
    ensures Rows([], pid, kinds) == 0
    decreases |kinds|
  {
    if kinds != [] {
      NoRows(pid, kinds[..|kinds| - 1]);
    }
  }

  /** The rows of a task, over all kinds recorded for it, sum to its recorded time. */
  lemma {:induction false} RowsTotal(intervals: seq<Interval>, than: nat, pid: int, kinds: seq<int>)
    requires NoDup(kinds) && forall i :: 0 <= i < |intervals| ==> intervals[i].start <= intervals[i].end
    requires forall i :: 0 <= i < |intervals| && intervals[i].pid == pid ==> intervals[i].kind as int in kinds
    ensures Rows(Feeds(intervals, than), pid, kinds) == Total(intervals, pid)
    decreases |intervals|
  {
    hide Rows;
    if intervals == [] {
      NoRows(pid, kinds);
    } else {
      var n := |intervals| - 1;
      var i := intervals[n];
      RowsTotal(intervals[..n], than, pid, kinds);
      RowsSnoc(Feeds(intervals[..n], than), Feed(i.pid, i.kind as int, i.end - i.start, than), pid, kinds);
    }
  }

  lemma {:induction false} RowsAreNodes(nodes: map<(int, int), Stat>, fed: seq<Feed>, pid: int, kinds: seq<int>)
    requires forall slot :: slot in nodes ==> nodes[slot] == Summary(true, true, fed, slot)
    requires forall slot :: slot !in nodes ==> Summary(true, true, fed, slot) == Fresh()
    ensures Rows(fed, pid, kinds) == NodeRows(nodes, pid, kinds)
    decreases |kinds|
  {
    hide Summary;
    if kinds != [] {
      RowsAreNodes(nodes, fed, pid, kinds[..|kinds| - 1]);
      assert (pid, kinds[|kinds| - 1]) !in nodes ==> Summary(true, true, fed, (pid, kinds[|kinds| - 1])) == Fresh();
    }
  }

  /** Each interval has its entry. */
  lemma {:induction false} FeedsAre(intervals: seq<Interval>, than: nat)
    ensures |Feeds(intervals, than)| == |intervals|
    ensures forall i :: 0 <= i < |intervals| ==>
              Feeds(intervals, than)[i].instance == intervals[i].pid && Feeds(intervals, than)[i].key == intervals[i].kind as int
    decreases |intervals|
  {
    if intervals != [] {
      FeedsAre(intervals[..|intervals| - 1], than);
    }
  }

  /** The tracks account for all recorded time. */
  ghost predicate Summed(intervals: seq<Interval>, tracks: map<int, Track>) {
    forall p: int :: Total(intervals, p) == TrackOf(tracks, p).base + TrackOf(tracks, p).total
  }

  lemma TouchSums(k: Kernel, nodes: map<int, Node>, intervals: seq<Interval>, tracks: map<int, Track>, pid: int, act: Act, t: nat, after: seq<Interval>)
    requires Summed(intervals, tracks)
    requires var r := Recorded(k, Find(nodes, pid), act, t);
             after == intervals + if r.Some? then [Interval(pid, r.value, nodes[pid].time, t)] else []
    ensures Summed(after, tracks[pid := TrackAfter(k, Find(nodes, pid), TrackOf(tracks, pid), act, t)])
  {
    hide Total;
    var r := Recorded(k, Find(nodes, pid), act, t);
    forall p: int
      ensures Total(after, p) == Total(intervals, p) + if r.Some? && pid == p then t - nodes[pid].time else 0
    {
      if r.Some? {
        TotalSnoc(intervals, Interval(pid, r.value, nodes[pid].time, t), p);
      } else {
        assert after == intervals;
      }
    }
  }

  predicate Tracked(k: Kernel, nodes: map<int, Node>, tracks: map<int, Track>) {
    && (forall p :: p in tracks ==> Accounts(tracks[p]))
    && (forall p :: p in nodes ==> p in tracks && Agrees(k, nodes[p], tracks[p]))
  }

  class TaskStates {
    const kernel: Kernel
    const than: nat
    const dist: LatencyDist
    var nodes: map<int, Node>
    var lost: seq<Loss>
    ghost var intervals: seq<Interval>
    /** When each task was first seen. */
    ghost var first: map<int, nat>
    ghost var tracks: map<int, Track>
    ghost var ranges: seq<Range>
    ghost var now: nat

    /** What is recorded, whatever the lost ranges. */
    ghost predicate Good()
      reads this, dist
    {
      && Disjoint(intervals) && Behind(nodes, intervals, now) && Bounded(nodes, intervals, first, now)
      && Tracked(kernel, nodes, tracks) && Summed(intervals, tracks) && dist.Valid() && dist.perins && dist.perkey && dist.fed == Feeds(intervals, than)
    }

    ghost predicate Safe()
      reads this
    {
      forall k :: 0 <= k < |ranges| ==> Respects(nodes, intervals, lost, now, ranges[k].start, ranges[k].end)
    }

    ghost predicate Valid()
      reads this, dist
    {
      Good() && Safe() && Swept(nodes, lost, now)
    }

    constructor (kernel: Kernel, than: nat)
      ensures Valid() && fresh(dist) && this.kernel == kernel && this.than == than
      ensures nodes == map[] && intervals == [] && ranges == [] && now == 0
    {
      this.kernel, this.than := kernel, than;
      dist := new LatencyDist(true, true);
      nodes, lost, intervals, first, tracks, ranges, now := map[], [], [], map[], map[], [], 0;
    }

    /** task_state_lost */
    method Lost(start: nat, end: nat)
      requires Valid() && now <= start
      modifies this`lost, this`ranges
      ensures Valid() && ranges == old(ranges) + [Range(start, end)] && lost == Insert(old(lost), Loss(start, end, false))
    {
      hide Insert, SortedLoss, OneReclaimed, Total, Feeds;
      var l := Loss(start, end, false);
      ghost var was := lost;
      InsertFacts(lost, l, now);
      lost := Timeline.InsertLoss(lost, l);
      ranges := ranges + [Range(start, end)];
      forall k | 0 <= k < |ranges|
        ensures Respects(nodes, intervals, lost, now, ranges[k].start, ranges[k].end)
      {
        InsertListed(was, l, ranges[k].start, ranges[k].end);
        if k < |old(ranges)| {
          assert ranges[k] == old(ranges)[k];
        }
      }
    }

    /** task_state_event_lost */
    method EventLost(t: nat) returns (drop: bool)
      requires Valid() && now <= t
      modifies this`lost, this`nodes, this`now
      ensures Good() && Safe() && Swept(nodes, lost, now) && now == t
      ensures !drop ==> forall j :: 0 <= j < |lost| ==> t <= lost[j].start
      ensures var v := Sweep(old(lost), t);
              lost == v.rest && drop == !v.find && nodes == if v.reclaim then map[] else old(nodes)
    {
      hide Sweep, SortedLoss, OneReclaimed, Total, Feeds, Disjoint, Behind, Bounded, Respects;
      var v := Timeline.SweepLosses(lost, t);
      ghost var kept := if v.reclaim then map[] else nodes;
      SweepKeeps(nodes, lost, now, t, kept);
      Forget(nodes, intervals, first, now, t, kept);
      forall k | 0 <= k < |ranges|
        ensures Respects(kept, intervals, v.rest, t, ranges[k].start, ranges[k].end)
      {
        SweepRespects(nodes, intervals, lost, now, t, kept, ranges[k].start, ranges[k].end);
      }
      if v.reclaim {
        nodes := map[];
      }
      lost, drop, now := v.rest, !v.find, t;
    }

    /** One task of an event that is not lost. */
    method Touch(pid: int, act: Act, t: nat)
      requires Good() && Safe() && t == now && forall j :: 0 <= j < |lost| ==> now <= lost[j].start
      modifies this`nodes, this`intervals, this`first, this`tracks, dist
      ensures Good() && Safe() && Book(nodes, intervals) == Touched(kernel, Book(old(nodes), old(intervals)), pid, act, now)
      ensures old(intervals) <= intervals
    {
      hide Total, Feeds, Disjoint, Behind, Bounded, Respects, Recorded, After, Agrees, TrackAfter, Summed;
      var n := Find(nodes, pid);
      var r := Recorded(kernel, n, act, t);
      RecordedLater(kernel, n, act, t);
      ghost var after := intervals + if r.Some? then [Interval(pid, r.value, nodes[pid].time, t)] else [];
      TouchKeeps(kernel, nodes, intervals, first, now, pid, act, now, after);
      TimesBy(nodes, intervals, now);
      TouchTracks(kernel, nodes, tracks, pid, act, t);
      TouchSums(kernel, nodes, intervals, tracks, pid, act, t, after);
      forall k | 0 <= k < |ranges|
        ensures Respects(Put(nodes, pid, After(kernel, n, act, t)), after, lost, now, ranges[k].start, ranges[k].end)
      {
        TouchRespects(kernel, nodes, intervals, lost, now, pid, act, now, after, ranges[k].start, ranges[k].end);
      }
      if r.Some? {
        FeedsSnoc(intervals, Interval(pid, r.value, nodes[pid].time, t), than);
        dist.Input(pid, r.value as int, t - nodes[pid].time, than);
      } else {
        assert after == intervals;
      }
      first := if pid in first then first else first[pid := now];
      tracks := tracks[pid := TrackAfter(kernel, n, TrackOf(tracks, pid), act, t)];
      nodes, intervals := Put(nodes, pid, After(kernel, n, act, t)), after;
    }

    /**
     * Task time is conserved: intervals of a task are disjoint and sum to no more than has passed since
     * its first event; while it has been lawful, they sum to exactly the time since its node was made,
     * up to its death if it has died.
     */
    lemma TimeConserved(pid: int)
      requires Valid()
      ensures Disjoint(intervals) && (pid in first ==> Total(intervals, pid) <= now - first[pid])
      ensures pid in tracks ==>
                && Total(intervals, pid) - tracks[pid].base <= tracks[pid].last - tracks[pid].born
                && (tracks[pid].lawful ==> Total(intervals, pid) - tracks[pid].base == tracks[pid].last - tracks[pid].born)
      ensures pid in nodes ==> pid in tracks && tracks[pid].last == nodes[pid].time
      ensures forall i, k :: 0 <= i < |intervals| && 0 <= k < |ranges| ==>
                intervals[i].end <= ranges[k].start || intervals[i].start >= ranges[k].end
    {
      hide Total;
      assert Total(intervals, pid) == TrackOf(tracks, pid).base + TrackOf(tracks, pid).total;
      forall i, k | 0 <= i < |intervals| && 0 <= k < |ranges|
        ensures intervals[i].end <= ranges[k].start || intervals[i].start >= ranges[k].end
      {
        assert Respects(nodes, intervals, lost, now, ranges[k].start, ranges[k].end);
      }
    }

    /** The distribution holds the same: a task's nodes, one for each kind, sum to the time recorded for it. */
    lemma DistConserved(pid: int, kinds: seq<int>)
      requires Valid()
      requires NoDup(kinds) && forall kind :: (pid, kind) in dist.nodes ==> kind in kinds
      ensures NodeRows(dist.nodes, pid, kinds) == Total(intervals, pid)
    {
      hide Total, Rows, Summary, Disjoint, Bounded, Tracked, Summed, Swept, Safe;
      FeedsAre(intervals, than);
      forall i | 0 <= i < |intervals| && intervals[i].pid == pid
        ensures intervals[i].kind as int in kinds
      {
        assert Latency.In(true, true, dist.fed[i]) in dist.nodes;
      }
      RowsTotal(intervals, than, pid, kinds);
      RowsAreNodes(dist.nodes, dist.fed, pid, kinds);
    }

    /** task_state_sample: events in time order. */
    method Sample(t: nat, event: Sched)
      requires Valid() && now <= t
      modifies this, dist
      ensures Valid() && now == t && ranges == old(ranges) && old(intervals) <= intervals
      ensures var v := Sweep(old(lost), t);
              var kept := if v.reclaim then map[] else old(nodes);
              && lost == v.rest
              && Book(nodes, intervals) ==
                 if v.find then Booked(kernel, Book(kept, old(intervals)), event, t) else Book(kept, old(intervals))
      ensures Sweep(old(lost), t).find && event.Switch? && event.next > 0 ==>
                event.next in nodes && nodes[event.next] == Node(0, t)
      ensures Sweep(old(lost), t).find && event.Switch? && event.prev > 0 && event.prev != event.next ==>
                if Has(event.prevState, kernel.dead) then event.prev !in nodes
                else event.prev in nodes
                     && nodes[event.prev] == Node(if event.prevState == kernel.reportMax then 0 else event.prevState, t)
      ensures Sweep(old(lost), t).find && event.Wakeup? ==> event.pid in nodes && nodes[event.pid].state == 0
      ensures Sweep(old(lost), t).find && event.WakeupNew? ==> event.pid in nodes && nodes[event.pid] == Node(0, t)
    {
      hide Sweep, Touched, Total, Feeds, Disjoint, Behind, Bounded, Respects, Recorded, After, Agrees, Put, SortedLoss, OneReclaimed, Tracked, Has;
      var drop := EventLost(t);
      if drop { return; }
      ghost var b := Book(nodes, intervals);
      match event
      case Switch(prev, state, next) =>
        if prev > 0 {
          Touch(prev, Out(state), t);
        }
        if next > 0 {
          Touch(next, In, t);
        }
        SwitchBooked(kernel, b, prev, state, next, t);
      case Wakeup(pid) =>
        Touch(pid, Wake, t);
        WakeupBooked(kernel, b, pid, t, false);
      case WakeupNew(pid) =>
        Touch(pid, WakeNew, t);
        WakeupBooked(kernel, b, pid, t, true);
    }
  }

  lemma RecordedLater(k: Kernel, n: Option<Node>, act: Act, t: nat)
    ensures Recorded(k, n, act, t).Some? ==> n.Some? && n.value.time < t
  {
  }

  lemma TimesBy(nodes: map<int, Node>, intervals: seq<Interval>, now: nat)
    requires Behind(nodes, intervals, now)
    ensures forall p :: p in nodes ==> nodes[p].time <= now
  {
  }

  lemma TouchTracks(k: Kernel, nodes: map<int, Node>, tracks: map<int, Track>, pid: int, act: Act, t: nat)
    requires Tracked(k, nodes, tracks) && forall p :: p in nodes ==> nodes[p].time <= t
    ensures var n := Find(nodes, pid);
            var tr := TrackOf(tracks, pid);
            Tracked(k, Put(nodes, pid, After(k, n, act, t)), tracks[pid := TrackAfter(k, n, tr, act, t)])
  {
    hide Agrees, After, TrackAfter;
    AgreesAfter(k, Find(nodes, pid), TrackOf(tracks, pid), act, t);
  }
}
