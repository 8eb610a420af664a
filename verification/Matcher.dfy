/**
 * The two-event matcher of multi-trace.c for non-nested tracing: what one event does to the lost
 * ranges, the backed-up events and the pairs reported, and what that guarantees over whole runs.
 */
module Matcher {

  /**
   * A sampled event: `find` and `keep` are need_find_prev and need_backup as its tracepoint and role
   * decide them, `id` is the sequence number the matcher gives it.
   */
  datatype Event = Event(time: nat, key: nat, tp: nat, find: bool, keep: bool, untraced: bool, ins: nat, size: nat, id: nat)

  /** A range in which events were lost; `reclaimed` once the backed-up events have been dropped for it. */
  datatype Loss = Loss(start: nat, end: nat, reclaimed: bool)

  /**
   * `perIns`: a loss affects only events of its instance, whose key is insKey[ins]; otherwise it affects
   * all events. `paired` holds the tracepoint pairs for which a two-event object exists.
   */
  datatype Config = Config(perIns: bool, insKey: seq<nat>, paired: set<(nat, nat)>)

  datatype State = State(lost: seq<seq<Loss>>, backup: map<nat, Event>, pairs: seq<(Event, Event)>, handled: nat)

  datatype Input = Sample(event: Event) | Lost(ins: nat, start: nat, end: nat)

  predicate GoodConfig(c: Config) {
    forall i, j :: 0 <= i < j < |c.insKey| ==> c.insKey[i] != c.insKey[j]
  }

  /** Number of lost lists. */
  function Groups(c: Config): nat { if c.perIns then |c.insKey| else 1 }

  function Group(c: Config, ins: nat): nat { if c.perIns then ins else 0 }

  /** Whether a loss of group g invalidates backed-up events with this key. */
  predicate Affects(c: Config, g: nat, key: nat) {
    !c.perIns || (g < |c.insKey| && c.insKey[g] == key)
  }

  /** Instances exist, and without a key of its own an event is keyed by its instance. */
  predicate GoodEvent(c: Config, e: Event) {
    e.ins < |c.insKey| && (c.perIns && !e.untraced ==> e.key == c.insKey[e.ins])
  }

  predicate IsTraced(i: Input) { i.Sample? && !i.event.untraced }

  predicate GoodInput(c: Config, i: Input) {
    match i
    case Sample(e) => GoodEvent(c, e)
    case Lost(ins, _, _) => ins < |c.insKey|
  }

  function Init(c: Config): State { State(seq(Groups(c), i => []), map[], [], 0) }

  // ---- lost ranges --------------------------------------------------------------------------------

  predicate SortedLoss(list: seq<Loss>) {
    forall i, j :: 0 <= i < j < |list| ==> list[i].start <= list[j].start
  }

  /** Registers a range: per instance at the tail, otherwise behind the ranges that start no later. */
  function Insert(list: seq<Loss>, l: Loss): (r: seq<Loss>)
    ensures |r| == |list| + 1
  {
    if list == [] || list[0].start > l.start then [l] + list else [list[0]] + Insert(list[1..], l)
  }

  function Register(c: Config, list: seq<Loss>, l: Loss): seq<Loss> {
    if c.perIns then list + [l] else Insert(list, l)
  }

  /** What the lost ranges decide about an event. */
  datatype Verdict = Verdict(rest: seq<Loss>, reclaim: bool, find: bool, keep: bool)

  /** multi_trace_event_lost on the list that concerns an event at time t. */
  function Sweep(list: seq<Loss>, t: nat): Verdict {
    if list == [] || t < list[0].start then Verdict(list, false, true, true)
    else if t == list[0].start then Verdict(list, false, true, false)
    else if t < list[0].end then Verdict([list[0].(reclaimed := true)] + list[1..], !list[0].reclaimed, false, false)
    else var v := Sweep(list[1..], t); v.(reclaim := v.reclaim || !list[0].reclaimed)
  }

  /** Backed-up events left after a loss of group g. */
  function Reclaimed(c: Config, backup: map<nat, Event>, g: nat): map<nat, Event> {
    map k | k in backup && !Affects(c, g, k) :: backup[k]
  }

  // ---- one event ----------------------------------------------------------------------------------

  function Lose(c: Config, s: State, e: Event): State
    requires Group(c, e.ins) < |s.lost|
  {
    var g := Group(c, e.ins);
    var v := Sweep(s.lost[g], e.time);
    s.(lost := s.lost[g := v.rest], backup := if v.reclaim then Reclaimed(c, s.backup, g) else s.backup)
  }

  /** multi_trace_tryto_call_two: report the pair with the backed-up event of the same key and drop that event. */
  function CallTwo(c: Config, s: State, e: Event): State {
    if e.key !in s.backup then s
    else
      var prev := s.backup[e.key];
      var called := (prev.tp, e.tp) in c.paired && prev.time < e.time;
      s.(backup := s.backup - {e.key}, pairs := if called then s.pairs + [(prev, e)] else s.pairs)
  }

  /** multi_trace_tryto_backup: the latest event of a key is the one backed up. */
  function Keep(s: State, e: Event): State {
    if e.key in s.backup && e.time < s.backup[e.key].time then s else s.(backup := s.backup[e.key := e])
  }

  /** The matcher without a timeline on one traced event. */
  function Handle(c: Config, s: State, e: Event): State
    requires Group(c, e.ins) < |s.lost|
  {
    var v := Sweep(s.lost[Group(c, e.ins)], e.time);
    var s1 := Lose(c, s, e);
    var s2 := if e.find && v.find then CallTwo(c, s1, e) else s1;
    if e.keep && v.keep then Keep(s2, e) else s2
  }

  function Numbered(s: State, e: Event): Event { e.(id := s.handled) }

  function Step(c: Config, s: State, i: Input): (r: State)
    requires |s.lost| == Groups(c) && GoodInput(c, i)
    ensures |r.lost| == Groups(c)
  {
    match i
    case Sample(e) =>
      var s' := s.(handled := s.handled + 1);
      if e.untraced then s' else Handle(c, s', Numbered(s, e))
    case Lost(ins, start, end) =>
      var g := Group(c, ins);
      s.(lost := s.lost[g := Register(c, s.lost[g], Loss(start, end, false))])
  }

  function Run(c: Config, inputs: seq<Input>): (r: State)
    requires forall k :: 0 <= k < |inputs| ==> GoodInput(c, inputs[k])
    ensures |r.lost| == Groups(c)
  {
    if inputs == [] then Init(c) else Step(c, Run(c, inputs[..|inputs| - 1]), inputs[|inputs| - 1])
  }

  // ---- loss safety --------------------------------------------------------------------------------

  /** A traced sample that losses of group g concern. */
  predicate Concerns(c: Config, i: Input, g: nat) {
    i.Sample? && !i.event.untraced && Group(c, i.event.ins) == g
  }

  predicate LostIn(c: Config, i: Input, g: nat) { i.Lost? && Group(c, i.ins) == g }

  /**
   * For every group: its samples arrive in time order, each lost range is registered before any sample
   * later than its start, and ranges kept per instance are registered in the order of their starts.
   */
  predicate Timely(c: Config, inputs: seq<Input>) {
    forall g, j, k :: 0 <= g < Groups(c) && 0 <= j < k < |inputs| ==>
      && (Concerns(c, inputs[j], g) && Concerns(c, inputs[k], g) ==> inputs[j].event.time <= inputs[k].event.time)
      && (Concerns(c, inputs[j], g) && LostIn(c, inputs[k], g) ==> inputs[j].event.time <= inputs[k].start)
      && (c.perIns && LostIn(c, inputs[j], g) && LostIn(c, inputs[k], g) ==> inputs[j].start <= inputs[k].start)
  }

  /** What the guarantees ask of the inputs. */
  predicate AllGood(c: Config, inputs: seq<Input>) {
    GoodConfig(c) && Timely(c, inputs) && forall k :: 0 <= k < |inputs| ==> GoodInput(c, inputs[k])
  }

  /** Time of the latest sample of group g. */
  function Now(c: Config, inputs: seq<Input>, g: nat): nat {
    if inputs == [] then 0
    else
      var i := inputs[|inputs| - 1];
      if Concerns(c, i, g) then i.event.time else Now(c, inputs[..|inputs| - 1], g)
  }

  /** The pair does not span the range: B is not after its start, or A not before its end. */
  predicate Outside(pair: (Event, Event), start: nat, end: nat) {
    pair.1.time <= start || pair.0.time >= end
  }

  /** No backed-up event is affected by losses of group g. */
  predicate Clear(c: Config, backup: map<nat, Event>, g: nat) {
    forall k :: k in backup ==> !Affects(c, g, k)
  }

  /** Only the first range can have been reclaimed. */
  predicate OneReclaimed(list: seq<Loss>, now: nat) {
    && (forall k :: 0 < k < |list| ==> !list[k].reclaimed)
    && (list != [] && list[0].reclaimed ==> list[0].start < now)
  }

  /** The state of group g after its samples up to `now`. */
  predicate GroupSafe(c: Config, s: State, g: nat, now: nat) {
    && g < |s.lost| && SortedLoss(s.lost[g]) && OneReclaimed(s.lost[g], now)
    && (s.lost[g] != [] && s.lost[g][0].start < now ==> Clear(c, s.backup, g))
    && (forall p :: p in s.pairs && Affects(c, g, p.1.key) ==> p.1.time <= now)
  }

  /** Range (start, end) is still listed. */
  predicate Listed(list: seq<Loss>, start: nat, end: nat) {
    exists k :: 0 <= k < |list| && list[k].start == start && list[k].end == end
  }

  /** What holds for one registered range: pairs stay outside, and once it is gone so do backed-up events. */
  predicate Respected(c: Config, s: State, g: nat, now: nat, start: nat, end: nat) {
    && g < |s.lost|
    && (forall p :: p in s.pairs && Affects(c, g, p.1.key) ==> Outside(p, start, end))
    && (Listed(s.lost[g], start, end) ||
        (end <= now && forall k :: k in s.backup && Affects(c, g, k) ==> s.backup[k].time >= end))
  }

  /** The verdict on an event at t: ranges behind it are gone, a range around it blocks it. */
  lemma {:induction false} SweepFacts(list: seq<Loss>, t: nat, now: nat)
    requires SortedLoss(list) && OneReclaimed(list, now) && now <= t
    ensures var v := Sweep(list, t);
            && SortedLoss(v.rest) && OneReclaimed(v.rest, t)
            && (v.rest != [] && v.rest[0].start < t ==> !v.find && !v.keep && list != [] && list[0].start < t)
            && (v.find ==> forall k :: 0 <= k < |v.rest| ==> t <= v.rest[k].start)
            && (!v.reclaim && list != [] && list[0].start < t ==> list[0].reclaimed)
    ensures forall start: nat, end: nat :: Listed(list, start, end) ==>
              Listed(Sweep(list, t).rest, start, end) || (start < t && end <= t && list[0].start < t)
    decreases |list|
  {
    if list == [] || t <= list[0].start {
    } else if t < list[0].end {
      var rest := Sweep(list, t).rest;
      assert forall k :: 0 <= k < |list| ==> rest[k].start == list[k].start && rest[k].end == list[k].end;
      assert forall k :: 0 < k < |list| ==> rest[k] == list[k];
    } else {
      SweepFacts(list[1..], t, now);
      forall start: nat, end: nat | Listed(list, start, end)
        ensures Listed(Sweep(list, t).rest, start, end) || (start < t && end <= t)
      {
        var k :| 0 <= k < |list| && list[k].start == start && list[k].end == end;
        if k > 0 {
          assert list[1..][k - 1] == list[k];
        }
      }
    }
  }

  /** After the lost ranges have been looked at, nothing affected is backed up from before a passed start. */
  lemma LoseClears(c: Config, s: State, e: Event, now: nat)
    requires Group(c, e.ins) < |s.lost| && GroupSafe(c, s, Group(c, e.ins), now) && now <= e.time
    ensures var g := Group(c, e.ins);
            s.lost[g] != [] && s.lost[g][0].start < e.time ==> Clear(c, Lose(c, s, e).backup, g)
  {
    SweepFacts(s.lost[Group(c, e.ins)], e.time, now);
  }

  lemma HandleGroup(c: Config, s: State, e: Event, now: nat)
    requires GoodConfig(c) && GoodEvent(c, e) && !e.untraced && Group(c, e.ins) < |s.lost|
    requires GroupSafe(c, s, Group(c, e.ins), now) && now <= e.time
    ensures GroupSafe(c, Handle(c, s, e), Group(c, e.ins), e.time)
  {
    hide Sweep;
    SweepFacts(s.lost[Group(c, e.ins)], e.time, now);
    LoseClears(c, s, e, now);
  }

  lemma HandleRange(c: Config, s: State, e: Event, now: nat, start: nat, end: nat)
    requires GoodConfig(c) && GoodEvent(c, e) && !e.untraced && Group(c, e.ins) < |s.lost|
    requires GroupSafe(c, s, Group(c, e.ins), now) && now <= e.time
    requires Respected(c, s, Group(c, e.ins), now, start, end)
    ensures Respected(c, Handle(c, s, e), Group(c, e.ins), e.time, start, end)
  {
    hide Sweep, SortedLoss, OneReclaimed;
    var g := Group(c, e.ins);
    var v := Sweep(s.lost[g], e.time);
    SweepFacts(s.lost[g], e.time, now);
    LoseClears(c, s, e, now);
    if Listed(v.rest, start, end) && v.find {
      assert e.time <= start;
    }
  }

  /** Events of one instance leave the other instances alone. */
  lemma HandleElsewhere(c: Config, s: State, e: Event, g: nat, now: nat, start: nat, end: nat)
    requires GoodConfig(c) && GoodEvent(c, e) && !e.untraced && |s.lost| == Groups(c)
    requires g < Groups(c) && g != Group(c, e.ins)
    ensures GroupSafe(c, s, g, now) ==> GroupSafe(c, Handle(c, s, e), g, now)
    ensures Respected(c, s, g, now, start, end) ==> Respected(c, Handle(c, s, e), g, now, start, end)
  {
    hide Sweep, SortedLoss, OneReclaimed;
  }

  // ---- registering a range --------------------------------------------------------------------------

  lemma {:induction false} InsertFacts(list: seq<Loss>, l: Loss, now: nat)
    requires SortedLoss(list) && OneReclaimed(list, now) && !l.reclaimed && now <= l.start
    ensures SortedLoss(Insert(list, l)) && OneReclaimed(Insert(list, l), now)
    ensures Insert(list, l)[0].start < now ==> list != [] && list[0].start < now
    ensures Insert(list, l)[0] == (if list == [] || list[0].start > l.start then l else list[0])
    decreases |list|
  {
    var r := Insert(list, l);
    if list == [] || list[0].start > l.start {
      assert r[0] == l && r[1..] == list;
      assert forall k :: 0 <= k < |list| ==> r[k + 1] == list[k];
    } else {
      InsertFacts(list[1..], l, now);
      assert r[0] == list[0] && r[1..] == Insert(list[1..], l);
      assert forall k :: 0 < k < |r| ==> r[k] == r[1..][k - 1];
      assert forall k :: 0 < k < |list| ==> list[k] == list[1..][k - 1];
      InsertLater(list[1..], l, list[0].start);
      InsertFresh(list[1..], l);
    }
  }

  lemma {:induction false} InsertListed(list: seq<Loss>, l: Loss, start: nat, end: nat)
    ensures Listed(Insert(list, l), start, end) <==> Listed(list, start, end) || (l.start == start && l.end == end)
    decreases |list|
  {
    var r := Insert(list, l);
    if list == [] || list[0].start > l.start {
      ListedHead(r, start, end);
    } else {
      InsertListed(list[1..], l, start, end);
      ListedHead(list, start, end);
      ListedHead(r, start, end);
    }
  }

  lemma ListedHead(list: seq<Loss>, start: nat, end: nat)
    requires list != []
    ensures Listed(list, start, end) <==> (list[0].start == start && list[0].end == end) || Listed(list[1..], start, end)
  {
    if k :| 0 < k < |list| && list[k].start == start && list[k].end == end {
      assert list[1..][k - 1] == list[k];
    }
    if k :| 0 <= k < |list[1..]| && list[1..][k].start == start && list[1..][k].end == end {
      assert list[k + 1] == list[1..][k];
    }
  }

  lemma {:induction false} InsertLater(list: seq<Loss>, l: Loss, bound: nat)
    requires l.start >= bound && forall k :: 0 <= k < |list| ==> list[k].start >= bound
    ensures forall k :: 0 <= k < |Insert(list, l)| ==> Insert(list, l)[k].start >= bound
    decreases |list|
  {
    if list != [] && list[0].start <= l.start {
      InsertLater(list[1..], l, bound);
    }
  }

  lemma {:induction false} InsertFresh(list: seq<Loss>, l: Loss)
    requires !l.reclaimed && forall k :: 0 <= k < |list| ==> !list[k].reclaimed
    ensures forall k :: 0 <= k < |Insert(list, l)| ==> !Insert(list, l)[k].reclaimed
    decreases |list|
  {
    if list != [] && list[0].start <= l.start {
      InsertFresh(list[1..], l);
    }
  }

  /** Appending is inserting when the range starts no earlier than the listed ones. */
  lemma {:induction false} AppendIsInsert(list: seq<Loss>, l: Loss)
    requires forall k :: 0 <= k < |list| ==> list[k].start <= l.start
    ensures Insert(list, l) == list + [l]
    decreases |list|
  {
    if list != [] {
      AppendIsInsert(list[1..], l);
      assert list + [l] == [list[0]] + (list[1..] + [l]);
    }
  }

  lemma RegisterGroup(c: Config, s: State, g: nat, now: nat, start: nat, end: nat)
    requires GroupSafe(c, s, g, now) && now <= start
    requires c.perIns ==> forall k :: 0 <= k < |s.lost[g]| ==> s.lost[g][k].start <= start
    ensures var s' := s.(lost := s.lost[g := Register(c, s.lost[g], Loss(start, end, false))]);
            GroupSafe(c, s', g, now) && Respected(c, s', g, now, start, end)
    ensures var s' := s.(lost := s.lost[g := Register(c, s.lost[g], Loss(start, end, false))]);
            forall a: nat, b: nat :: Respected(c, s, g, now, a, b) ==> Respected(c, s', g, now, a, b)
  {
    hide SortedLoss, OneReclaimed, Insert;
    var l := Loss(start, end, false);
    if c.perIns {
      AppendIsInsert(s.lost[g], l);
    }
    InsertFacts(s.lost[g], l, now);
    InsertListed(s.lost[g], l, start, end);
    forall a: nat, b: nat
      ensures Listed(s.lost[g], a, b) ==> Listed(Insert(s.lost[g], l), a, b)
    {
      InsertListed(s.lost[g], l, a, b);
    }
  }

  /** Latest start of the ranges registered for group g. */
  function Latest(c: Config, inputs: seq<Input>, g: nat): nat {
    if inputs == [] then 0
    else
      var before, i := Latest(c, inputs[..|inputs| - 1], g), inputs[|inputs| - 1];
      if LostIn(c, i, g) && i.start > before then i.start else before
  }

  predicate StartsBy(list: seq<Loss>, last: nat) {
    forall k :: 0 <= k < |list| ==> list[k].start <= last
  }

  lemma {:induction false} SweepStartsBy(list: seq<Loss>, t: nat, last: nat)
    requires StartsBy(list, last)
    ensures StartsBy(Sweep(list, t).rest, last)
    decreases |list|
  {
    if list != [] && t > list[0].start && t >= list[0].end {
      SweepStartsBy(list[1..], t, last);
    }
  }

  lemma {:induction false} InsertStartsBy(list: seq<Loss>, l: Loss, last: nat)
    requires StartsBy(list, last) && l.start <= last
    ensures StartsBy(Insert(list, l), last)
    decreases |list|
  {
    if list != [] && list[0].start <= l.start {
      InsertStartsBy(list[1..], l, last);
    }
  }

  /** Timely input puts the last input behind what came before. */
  lemma {:induction false} NothingLater(c: Config, inputs: seq<Input>, n: nat, g: nat)
    requires n < |inputs| && Timely(c, inputs) && g < Groups(c)
    ensures Concerns(c, inputs[n], g) ==>
              forall m :: 0 <= m <= n ==> Now(c, inputs[..m], g) <= inputs[n].event.time
    ensures LostIn(c, inputs[n], g) ==>
              forall m :: 0 <= m <= n ==> Now(c, inputs[..m], g) <= inputs[n].start
    ensures c.perIns && LostIn(c, inputs[n], g) ==>
              forall m :: 0 <= m <= n ==> Latest(c, inputs[..m], g) <= inputs[n].start
  {
    var m := 0;
    while m < n
      invariant 0 <= m <= n
      invariant Concerns(c, inputs[n], g) ==> forall k :: 0 <= k <= m ==> Now(c, inputs[..k], g) <= inputs[n].event.time
      invariant LostIn(c, inputs[n], g) ==> forall k :: 0 <= k <= m ==> Now(c, inputs[..k], g) <= inputs[n].start
      invariant c.perIns && LostIn(c, inputs[n], g) ==> forall k :: 0 <= k <= m ==> Latest(c, inputs[..k], g) <= inputs[n].start
    {
      assert inputs[..m + 1][..m] == inputs[..m];
      assert inputs[..m + 1][m] == inputs[m];
      m := m + 1;
    }
  }

  /** What group g has guaranteed after a list of inputs. */
  predicate Guaranteed(c: Config, s: State, inputs: seq<Input>, g: nat) {
    && GroupSafe(c, s, g, Now(c, inputs, g)) && StartsBy(s.lost[g], Latest(c, inputs, g))
    && (forall k :: 0 <= k < |inputs| && LostIn(c, inputs[k], g) ==>
          Respected(c, s, g, Now(c, inputs, g), inputs[k].start, inputs[k].end))
  }

  lemma Snoc(c: Config, inputs: seq<Input>, i: Input, g: nat)
    ensures Now(c, inputs + [i], g) == if Concerns(c, i, g) then i.event.time else Now(c, inputs, g)
    ensures Latest(c, inputs + [i], g) ==
            if LostIn(c, i, g) && i.start > Latest(c, inputs, g) then i.start else Latest(c, inputs, g)
  {
    assert (inputs + [i])[..|inputs|] == inputs;
  }

  lemma GuaranteedSample(c: Config, s: State, inputs: seq<Input>, e: Event, g: nat)
    requires GoodConfig(c) && GoodEvent(c, e) && |s.lost| == Groups(c) && g < Groups(c)
    requires Guaranteed(c, s, inputs, g)
    requires Concerns(c, Sample(e), g) ==> Now(c, inputs, g) <= e.time
    ensures Guaranteed(c, Step(c, s, Sample(e)), inputs + [Sample(e)], g)
  {
    hide GroupSafe, Respected, Handle, Sweep, Now, Latest, StartsBy;
    var all, s', n := inputs + [Sample(e)], s.(handled := s.handled + 1), Numbered(s, e);
    Snoc(c, inputs, Sample(e), g);
    var now := Now(c, inputs, g);
    SampleGroup(c, s, e, g, now);
    if !e.untraced {
      KeepsStarts(c, s', n, g, Latest(c, inputs, g));
    }
    forall k | 0 <= k < |all| && LostIn(c, all[k], g)
      ensures Respected(c, Step(c, s, Sample(e)), g, Now(c, all, g), all[k].start, all[k].end)
    {
      assert all[k] == inputs[k];
      SampleRange(c, s, e, g, now, all[k].start, all[k].end);
    }
  }

  lemma SampleGroup(c: Config, s: State, e: Event, g: nat, now: nat)
    requires GoodConfig(c) && GoodEvent(c, e) && |s.lost| == Groups(c) && g < Groups(c) && GroupSafe(c, s, g, now)
    requires Concerns(c, Sample(e), g) ==> now <= e.time
    ensures GroupSafe(c, Step(c, s, Sample(e)), g, if Concerns(c, Sample(e), g) then e.time else now)
  {
    hide GroupSafe, Respected, Handle, Sweep;
    var s', n := s.(handled := s.handled + 1), Numbered(s, e);
    SameGroup(c, s, s', g, now, now, now);
    if !e.untraced {
      if Group(c, e.ins) == g {
        HandleGroup(c, s', n, now);
      } else {
        HandleElsewhere(c, s', n, g, now, now, now);
      }
    }
  }

  lemma SampleRange(c: Config, s: State, e: Event, g: nat, now: nat, start: nat, end: nat)
    requires GoodConfig(c) && GoodEvent(c, e) && |s.lost| == Groups(c) && g < Groups(c)
    requires GroupSafe(c, s, g, now) && Respected(c, s, g, now, start, end)
    requires Concerns(c, Sample(e), g) ==> now <= e.time
    ensures Respected(c, Step(c, s, Sample(e)), g, if Concerns(c, Sample(e), g) then e.time else now, start, end)
  {
    hide GroupSafe, Respected, Handle, Sweep;
    var s', n := s.(handled := s.handled + 1), Numbered(s, e);
    SameGroup(c, s, s', g, now, start, end);
    if !e.untraced {
      if Group(c, e.ins) == g {
        HandleRange(c, s', n, now, start, end);
      } else {
        HandleElsewhere(c, s', n, g, now, start, end);
      }
    }
  }

  lemma SameGroup(c: Config, s: State, s': State, g: nat, now: nat, start: nat, end: nat)
    requires s' == s.(handled := s'.handled)
    ensures GroupSafe(c, s, g, now) ==> GroupSafe(c, s', g, now)
    ensures Respected(c, s, g, now, start, end) ==> Respected(c, s', g, now, start, end)
  {
  }

  lemma KeepsStarts(c: Config, s: State, e: Event, g: nat, last: nat)
    requires Group(c, e.ins) < |s.lost| && g < |s.lost| && StartsBy(s.lost[g], last)
    ensures |Handle(c, s, e).lost| == |s.lost| && StartsBy(Handle(c, s, e).lost[g], last)
  {
    hide Sweep;
    if Group(c, e.ins) == g {
      SweepStartsBy(s.lost[g], e.time, last);
    }
  }

  lemma GuaranteedLost(c: Config, s: State, inputs: seq<Input>, i: Input, g: nat)
    requires GoodConfig(c) && GoodInput(c, i) && i.Lost? && |s.lost| == Groups(c) && g < Groups(c)
    requires Guaranteed(c, s, inputs, g)
    requires LostIn(c, i, g) ==> Now(c, inputs, g) <= i.start && (c.perIns ==> Latest(c, inputs, g) <= i.start)
    ensures Guaranteed(c, Step(c, s, i), inputs + [i], g)
  {
    hide GroupSafe, Respected, Sweep, Insert;
    var all := inputs + [i];
    assert all[..|inputs|] == inputs;
    var s', now := Step(c, s, i), Now(c, inputs, g);
    if LostIn(c, i, g) {
      RegisterGroup(c, s, g, now, i.start, i.end);
      if c.perIns {
        AppendIsInsert(s.lost[g], Loss(i.start, i.end, false));
      }
      InsertStartsBy(s.lost[g], Loss(i.start, i.end, false), Latest(c, all, g));
    } else {
      OtherList(c, s, s', g, now, now, now);
    }
    forall k | 0 <= k < |all| && LostIn(c, all[k], g)
      ensures Respected(c, s', g, now, all[k].start, all[k].end)
    {
      if k < |inputs| {
        assert all[k] == inputs[k];
        if !LostIn(c, i, g) {
          OtherList(c, s, s', g, now, all[k].start, all[k].end);
        }
      }
    }
  }

  lemma OtherList(c: Config, s: State, s': State, g: nat, now: nat, start: nat, end: nat)
    requires g < |s.lost| == |s'.lost| && s'.lost[g] == s.lost[g] && s' == s.(lost := s'.lost)
    ensures GroupSafe(c, s, g, now) ==> GroupSafe(c, s', g, now)
    ensures Respected(c, s, g, now, start, end) ==> Respected(c, s', g, now, start, end)
  {
  }

  lemma {:induction false} RunGuarantees(c: Config, inputs: seq<Input>, g: nat)
    requires AllGood(c, inputs) && g < Groups(c)
    ensures Guaranteed(c, Run(c, inputs), inputs, g)
    decreases |inputs|
  {
    if inputs != [] {
      hide Guaranteed, Step;
      var n := |inputs| - 1;
      var before, i := inputs[..n], inputs[n];
      assert inputs == before + [i];
      RunGuarantees(c, before, g);
      NothingLater(c, inputs, n, g);
      assert inputs[..n] == before;
      if i.Sample? {
        GuaranteedSample(c, Run(c, before), before, i.event, g);
      } else {
        GuaranteedLost(c, Run(c, before), before, i, g);
      }
    }
  }

  /** Loss safety: no pair ever reported spans a lost range that concerns it. */
  lemma LossSafety(c: Config, inputs: seq<Input>, k: nat, p: (Event, Event))
    requires AllGood(c, inputs) && k < |inputs| && inputs[k].Lost?
    ensures p in Run(c, inputs).pairs && Affects(c, Group(c, inputs[k].ins), p.1.key) ==>
              p.1.time <= inputs[k].start || p.0.time >= inputs[k].end
  {
    RunGuarantees(c, inputs, Group(c, inputs[k].ins));
  }
}
