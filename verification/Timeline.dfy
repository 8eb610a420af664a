/** multi-trace.c with a timeline: every event is kept until nothing can need it any more. */
module Timeline {
  import opened Common
  import opened Matcher
  import opened MatcherDeferred
  import opened MatcherDelayed
  import opened TimelineNodes

  /** The loop of multi_trace_event_lost over one lost list. */
  method SweepLosses(list: seq<Loss>, t: nat) returns (v: Verdict)
    ensures v == Sweep(list, t)
  {
    var rest, reclaim := list, false;
    while rest != [] && rest[0].start < t
      invariant Sweep(list, t) == (var w := Sweep(rest, t); w.(reclaim := w.reclaim || reclaim))
      decreases |rest|
    {
      reclaim := reclaim || !rest[0].reclaimed;
      if t < rest[0].end {
        return Verdict([rest[0].(reclaimed := true)] + rest[1..], reclaim, false, false);
      }
      rest := rest[1..];
    }
    v := Verdict(rest, reclaim, true, rest == [] || rest[0].start != t);
  }

  class Tracer {
    const c: Config
    const before1: nat
    const after2: nat
    var nodes: Nodes
    var timeline: seq<nat>
    var pending: seq<nat>
    var needed: seq<nat>
    var backup: map<nat, nat>
    var stat: Stat
    var lost: seq<seq<Loss>>
    var pairs: seq<(Event, Event)>
    var handled: nat
    /** Number of "BUG" messages and safety removals in timeline_free_unneeded and timeline_node_delete. */
    var bugs: int
    /** Nodes taken from the pending list and not yet decided. */
    ghost var cur: seq<nat>
    /** Everything the tracer has been given. */
    ghost var inputs: seq<Input>
    ghost var now: nat
    /** Events no longer on the timeline. */
    ghost var gone: map<nat, Event>
    /** Whether all events so far were later than before1. */
    ghost var late: bool

    /** Everything needed, in time order: backed-up nodes, the one in hand, pending ones. */
    ghost function Queue(): seq<nat>
      reads `needed, `cur, `pending
    {
      needed + cur + pending
    }

    /** The nodes, queues and counters, at every point between the list operations. */
    ghost predicate Good()
      reads `nodes, `timeline, `pending, `needed, `cur, `backup, `stat, `handled, `now, `lost, `bugs
    {
      && Indexed(nodes, timeline) && Placed(nodes, Queue()) && Backed(nodes, needed, backup)
      && Counted(nodes, timeline, pending, stat) && Known(c, nodes, Queue(), handled, now)
      && Undecided(nodes, pending) && |lost| == Groups(c) && bugs == 0
    }

    /** The matcher's state, whatever the timeline. */
    ghost function Abs(): State
      reads `lost, `nodes, `backup, `pairs, `handled
    {
      State(lost, AbsBackup(nodes, backup), pairs, handled)
    }

    /** The same with the events that wait. */
    ghost function Delayed(): Delay
      reads `lost, `nodes, `backup, `pairs, `handled, `pending
    {
      Delay(Abs(), EventsOf(nodes, pending))
    }

    /** rblist__remove_node on the backup: the node becomes unneeded. */
    method Unback(key: nat)
      requires Good() && key in backup
      modifies this`nodes, this`needed, this`backup, this`stat
      ensures Good() && SameEvents(old(nodes), nodes) && backup == old(backup) - {key}
      ensures AbsBackup(nodes, backup) == old(AbsBackup(nodes, backup)) - {key}
      ensures Reduced(old(nodes), old(Queue()), nodes, Queue())
    {
      hide Indexed, Placed, Counted, Known, AbsBackup, Total, NoDup;
      var id := backup[key];
      var i :| 0 <= i < |needed| && needed[i] == id;
      var n := nodes[id].(unneeded := true);
      ghost var queue := needed + cur + pending;
      NeededFirst(nodes, needed, cur, pending, i);
      CountMark(nodes, timeline, pending, stat, id, n);
      PlacedMark(nodes, queue, i, n);
      BackedRemove(nodes, needed, backup, key, i, n);
      BackedRemoveAbs(nodes, needed, backup, key, n);
      UndecidedStays(nodes, pending, id, n);
      var rest := needed[..i] + needed[i + 1..];
      Shrink(c, nodes, queue, nodes[id := n], rest + cur + pending, map[], 0, handled, now);
      Strike(key, id, n, rest, Marked(stat, n.event.size));
    }

    /** The fields without the backup of one key. */
    method Strike(key: nat, id: nat, n: Node, rest: seq<nat>, s: Stat)
      requires Indexed(nodes[id := n], timeline) && Placed(nodes[id := n], rest + cur + pending)
      requires Backed(nodes[id := n], rest, backup - {key}) && Counted(nodes[id := n], timeline, pending, s)
      requires Known(c, nodes[id := n], rest + cur + pending, handled, now) && Undecided(nodes[id := n], pending)
      requires |lost| == Groups(c) && bugs == 0
      modifies this`nodes, this`needed, this`backup, this`stat
      ensures Good() && nodes == old(nodes)[id := n] && needed == rest && backup == old(backup) - {key}
    {
      hide Indexed, Placed, Counted, Known, Backed, Undecided;
      nodes, needed, backup, stat := nodes[id := n], rest, backup - {key}, s;
    }

    /** lost_reclaim: the backed-up events a loss affects are dropped. */
    method Reclaim(g: nat)
      requires Good() && g < Groups(c)
      modifies this`nodes, this`needed, this`backup, this`stat
      ensures Good() && SameEvents(old(nodes), nodes)
      ensures AbsBackup(nodes, backup) == Reclaimed(c, old(AbsBackup(nodes, backup)), g)
      ensures Reduced(old(nodes), old(Queue()), nodes, Queue())
    {
      hide Indexed, Placed, Counted, Known, AbsBackup, Backed, Reduced;
      AbsKeys(nodes, needed, backup);
      if c.perIns {
        ReducedSelf(nodes, Queue());
        if c.insKey[g] in backup {
          Unback(c.insKey[g]);
        }
      } else {
        ReclaimAll();
      }
    }

    /** rblist__exit(&ctx->backup) */
    method ReclaimAll()
      requires Good()
      modifies this`nodes, this`needed, this`backup, this`stat
      ensures Good() && SameEvents(old(nodes), nodes) && backup == map[] && AbsBackup(nodes, backup) == map[]
      ensures Reduced(old(nodes), old(Queue()), nodes, Queue())
    {
      hide Indexed, Placed, Counted, Known, Undecided, AbsBackup, Backed, Reduced, NoDup, Total;
      ReducedSelf(nodes, Queue());
      while backup != map[]
        invariant Good() && SameEvents(old(nodes), nodes)
        invariant Reduced(old(nodes), old(Queue()), nodes, Queue())
        decreases |backup|
      {
        var key :| key in backup;
        ghost var nodes1, queue1 := nodes, Queue();
        Unback(key);
        ReducedTrans(old(nodes), old(Queue()), nodes1, queue1, nodes, Queue());
      }
      AbsKeys(nodes, needed, backup);
    }

    /** multi_trace_first_pending: takes the first pending node in hand unless its time has not come. */
    method FirstPending(tail: Option<nat>) returns (r: Option<nat>)
      requires Good() && now < U64
      modifies this`nodes, this`pending, this`stat, this`cur
      ensures Good() && Reduced(old(nodes), old(Queue()), nodes, Queue())
      ensures AbsBackup(nodes, backup) == old(AbsBackup(nodes, backup))
      ensures r.None? ==> nodes == old(nodes) && pending == old(pending) && cur == old(cur)
      ensures r.None? ==> pending == [] || (after2 > 0 && tail.Some? && EventOf(nodes, pending[0]).time > Deadline(after2, tail))
      ensures r.Some? ==> EventOf(old(nodes), r.value).time <= Deadline(after2, tail)
      ensures r.Some? ==> old(pending) != [] && r.value == old(pending)[0] && pending == old(pending)[1..] && Taken(r.value, old(nodes), old(cur))
    {
      hide Indexed, Counted, AbsBackup, Backed, Total, Reduced, Placed, Known, Undecided;
      ReducedSelf(nodes, Queue());
      if pending == [] { return None; }
      PendingFirst(nodes, needed, cur, pending);
      KnownTime(c, nodes, Queue(), handled, now, pending[0]);
      var deadline := Deadline(after2, tail);
      if nodes[pending[0]].event.time > deadline { return None; }
      r := Some(pending[0]);
      TakeFirst();
    }

    method TakeFirst()
      requires Good() && pending != []
      modifies this`nodes, this`pending, this`stat, this`cur
      ensures Good() && Reduced(old(nodes), old(Queue()), nodes, Queue())
      ensures AbsBackup(nodes, backup) == old(AbsBackup(nodes, backup))
      ensures pending == old(pending)[1..] && Taken(old(pending)[0], old(nodes), old(cur))
    {
      hide Indexed, Counted, AbsBackup, Backed, Total, Reduced, Placed, Known, Undecided;
      PendingFirst(nodes, needed, cur, pending);
      var id := pending[0];
      ghost var queue, nodes0 := Queue(), nodes;
      var n := nodes[id].(unneeded := !nodes[id].keep);
      CountTake(nodes, timeline, pending, stat);
      UndecidedTail(nodes, pending);
      pending := pending[1..];
      UndecidedStays(nodes, pending, id, n);
      stat := stat.(pending := stat.pending - 1, pendingBytes := stat.pendingBytes - n.event.size);
      if n.unneeded {
        CountMark(nodes, timeline, pending, stat, id, n);
        PlacedMark(nodes, queue, |needed| + |cur|, n);
        BackedDecide(nodes, needed, backup, id, n);
        stat := Marked(stat, n.event.size);
        nodes := nodes[id := n];
      } else {
        cur := cur + [id];
      }
      assert nodes == nodes0[id := n];
      Subqueue(nodes0, queue, nodes, Queue());
      Reduction(c, nodes0, queue, nodes, Queue(), handled, now);
    }

    /** The node id has just been taken from the pending list of a tracer with these nodes. */
    ghost predicate Taken(id: nat, nodes0: Nodes, cur0: seq<nat>)
      reads this
    {
      && id in nodes0 && nodes == nodes0[id := nodes0[id].(unneeded := !nodes0[id].keep)]
      && cur == if nodes0[id].keep then cur0 + [id] else cur0
    }

    /** The node id is being handled: in hand while it is to be backed up, else unneeded. */
    ghost predicate Held(id: nat)
      reads this
    {
      && id in nodes && cur == (if nodes[id].keep then [id] else []) && (!nodes[id].keep ==> nodes[id].unneeded)
      && !nodes[id].event.untraced && GoodEvent(c, nodes[id].event)
    }

    /** Decides against backing up the node in hand. */
    method Discard(id: nat, find: bool)
      requires Good() && Held(id) && nodes[id].keep
      modifies this`nodes, this`stat, this`cur
      ensures Good() && Held(id) && Reduced(old(nodes), old(Queue()), nodes, Queue())
      ensures nodes == old(nodes)[id := Node(old(nodes)[id].event, find, false, true)]
      ensures AbsBackup(nodes, backup) == old(AbsBackup(nodes, backup))
    {
      hide Indexed, Counted, AbsBackup, Backed, Total, Placed, Known, Undecided, Reduced;
      ghost var queue, nodes0 := Queue(), nodes;
      var n := Node(nodes[id].event, find, false, true);
      InHand(nodes, needed, pending, id);
      HeldNotPending(nodes, needed, cur, pending, id);
      UndecidedStays(nodes, pending, id, n);
      CountMark(nodes, timeline, pending, stat, id, n);
      PlacedMark(nodes, queue, |needed|, n);
      BackedDecide(nodes, needed, backup, id, n);
      nodes := nodes[id := n];
      stat := Marked(stat, n.event.size);
      cur := [];
      Subqueue(nodes0, queue, nodes, Queue());
      Reduction(c, nodes0, queue, nodes, Queue(), handled, now);
    }

    /** Sets whether the node looks for an earlier event. */
    method Decide(id: nat, find: bool)
      requires Good() && Held(id)
      modifies this`nodes
      ensures Good() && Held(id) && Reduced(old(nodes), old(Queue()), nodes, Queue())
      ensures nodes == old(nodes)[id := old(nodes)[id].(find := find)]
      ensures AbsBackup(nodes, backup) == old(AbsBackup(nodes, backup))
    {
      hide Indexed, Counted, AbsBackup, Backed, Total, Placed, Known, Undecided;
      var n := nodes[id].(find := find);
      HeldNotPending(nodes, needed, cur, pending, id);
      UndecidedStays(nodes, pending, id, n);
      CountDecide(nodes, timeline, pending, stat, id, n);
      PlacedDecide(nodes, Queue(), id, n);
      BackedDecide(nodes, needed, backup, id, n);
      Reduction(c, nodes, Queue(), nodes[id := n], Queue(), handled, now) by { Subqueue(nodes, Queue(), nodes[id := n], Queue()); }
      Subqueue(nodes, Queue(), nodes[id := n], Queue());
      nodes := nodes[id := n];
    }

    /** multi_trace_event_lost on the node in hand. */
    method EventLost(id: nat)
      requires Good() && Held(id)
      modifies this`nodes, this`needed, this`backup, this`stat, this`cur, this`lost
      ensures Good() && Held(id) && Reduced(old(nodes), old(Queue()), nodes, Queue())
      ensures Abs() == Lose(c, old(Abs()), old(nodes)[id].event)
      ensures var v := Sweep(old(lost)[Group(c, old(nodes)[id].event.ins)], old(nodes)[id].event.time);
              nodes[id].find == (old(nodes)[id].find && v.find) && nodes[id].keep == (old(nodes)[id].keep && v.keep)
    {
      hide Indexed, Counted, AbsBackup, Backed, Total, Placed, Known, Undecided, Sweep, Reduced;
      var e := nodes[id].event;
      var g := Group(c, e.ins);
      var v := SweepLosses(lost[g], e.time);
      lost := lost[g := v.rest];
      ReducedSelf(nodes, Queue());
      if v.reclaim {
        Reclaim(g);
      }
      ghost var nodes1, queue1 := nodes, Queue();
      if nodes[id].keep && !v.keep {
        Discard(id, nodes[id].find && v.find);
      } else {
        Decide(id, nodes[id].find && v.find);
      }
      ReducedTrans(old(nodes), old(Queue()), nodes1, queue1, nodes, Queue());
    }

    /** multi_trace_tryto_call_two */
    method TryCallTwo(id: nat) returns (free: bool)
      requires Good() && Held(id)
      modifies this`nodes, this`needed, this`backup, this`stat, this`pairs
      ensures Good() && Held(id) && Reduced(old(nodes), old(Queue()), nodes, Queue()) && SameEvents(old(nodes), nodes)
      ensures Abs() == if old(nodes)[id].find then CallTwo(c, old(Abs()), old(nodes)[id].event) else old(Abs())
      ensures pairs != old(pairs) ==> free
    {
      hide Indexed, Counted, AbsBackup, Backed, Total, Placed, Known, Undecided, Reduced;
      AbsKeys(nodes, needed, backup);
      ReducedSelf(nodes, Queue());
      var e := nodes[id].event;
      free := nodes[id].find && e.key in backup;
      if free {
        var prev := nodes[backup[e.key]].event;
        if (prev.tp, e.tp) in c.paired && prev.time < e.time {
          pairs := pairs + [(prev, e)];
        }
        Unback(e.key);
      }
    }

    /** multi_trace_tryto_backup */
    method TryBackup(id: nat) returns (free: bool)
      requires Good() && Held(id)
      modifies this`nodes, this`needed, this`backup, this`stat, this`cur
      ensures Good() && cur == [] && Reduced(old(nodes), old(Queue()), nodes, Queue())
      ensures Abs() == if old(nodes)[id].keep then Keep(old(Abs()), old(nodes)[id].event) else old(Abs())
    {
      hide Indexed, Counted, AbsBackup, Backed, Total, Placed, Known, Undecided, Reduced, NoDup, Good;
      ReducedSelf(nodes, Queue());
      if !nodes[id].keep { return true; }
      GoodBackup();
      var key := nodes[id].event.key;
      free := key in backup;
      if free {
        if nodes[id].event.time < nodes[backup[key]].event.time {
          Discard(id, nodes[id].find);
          return;
        }
        Unback(key);
      }
      PutInBackup(id);
    }

    /** rblist__findnew on the backup, with perf_event_backup_node_new. */
    method PutInBackup(id: nat)
      requires Good() && Held(id) && nodes[id].keep && nodes[id].event.key !in backup
      modifies this`needed, this`backup, this`cur
      ensures Good() && cur == [] && Queue() == old(Queue()) && backup == old(backup)[nodes[id].event.key := id]
      ensures AbsBackup(nodes, backup) == old(AbsBackup(nodes, backup))[nodes[id].event.key := nodes[id].event]
    {
      hide Indexed, Counted, AbsBackup, Backed, Total, Placed, Known, Undecided;
      BackedAdd(nodes, needed, backup, id);
      assert needed + [id] + [] + pending == needed + [id] + pending;
      backup, needed, cur := backup[nodes[id].event.key := id], needed + [id], [];
    }

    /** One pending event, as the matcher without a timeline would handle it. */
    method Process(id: nat) returns (free: bool)
      requires Good() && Held(id) && nodes[id].find == nodes[id].event.find && nodes[id].keep == nodes[id].event.keep
      modifies this`nodes, this`needed, this`backup, this`stat, this`cur, this`lost, this`pairs
      ensures Good() && cur == [] && Reduced(old(nodes), old(Queue()), nodes, Queue())
      ensures Abs() == Handle(c, old(Abs()), old(nodes)[id].event)
      ensures pairs != old(pairs) ==> free
    {
      hide Good, Sweep, AbsBackup;
      GoodLists();
      EventLost(id);
      ghost var nodes1, queue1 := nodes, Queue();
      var free1 := TryCallTwo(id);
      ghost var nodes2, queue2 := nodes, Queue();
      var free2 := TryBackup(id);
      free := free1 || free2;
      ReducedTrans(nodes1, queue1, nodes2, queue2, nodes, Queue());
      ReducedTrans(old(nodes), old(Queue()), nodes1, queue1, nodes, Queue());
    }

    lemma GoodBackup()
      requires Good()
      ensures AbsBackup(nodes, backup).Keys == backup.Keys
      ensures forall key :: key in backup ==> backup[key] in nodes && AbsBackup(nodes, backup)[key] == nodes[backup[key]].event
    {
      AbsKeys(nodes, needed, backup);
    }

    lemma GoodLists()
      requires Good()
      ensures |lost| == Groups(c)
    {
    }

    /** Every event handled is on the timeline or gone, and what is gone lies before the window of what is needed. */
    ghost predicate Accounted()
      reads `nodes, `gone, `handled, `late, `needed, `cur, `pending, `now
    {
      && Tracked(nodes, gone, handled)
      && (late ==> Later(nodes, before1) && Window(nodes, Queue(), gone, before1, now))
    }

    /** Finds the place of an event in the timeline. */
    method Place(e: Event) returns (pos: nat)
      requires Indexed(nodes, timeline) && e.id !in nodes
      ensures pos <= |timeline|
      ensures forall k :: 0 <= k < pos ==> timeline[k] in nodes && Before(nodes[timeline[k]].event, e)
      ensures forall k :: pos <= k < |timeline| ==> timeline[k] in nodes && Before(e, nodes[timeline[k]].event)
    {
      hide Before;
      pos := 0;
      while pos < |timeline| && Before(nodes[timeline[pos]].event, e)
        invariant 0 <= pos <= |timeline|
        invariant forall k :: 0 <= k < pos ==> Before(nodes[timeline[k]].event, e)
      {
        pos := pos + 1;
      }
      Position(nodes, timeline, e, pos);
    }

    method PlaceOf(n: Node) returns (pos: nat)
      requires Indexed(nodes, timeline) && n.event.id !in nodes
      ensures pos <= |timeline| && Indexed(nodes[n.event.id := n], timeline[..pos] + [n.event.id] + timeline[pos..])
    {
      hide Indexed, Before;
      pos := Place(n.event);
      IndexedAdd(nodes, timeline, pos, n);
    }

    /** rblist__add_node on the timeline, with timeline_node_new. */
    method Add(e: Event)
      requires Good() && Accounted() && cur == [] && e.id == handled && now <= e.time && GoodEvent(c, e)
      requires late ==> e.time > before1
      modifies this`nodes, this`timeline, this`pending, this`stat, this`handled, this`now
      ensures Good() && Accounted() && now == e.time && Abs() == old(Abs()).(handled := old(handled) + 1)
      ensures nodes == old(nodes)[e.id := Node(e, e.find, e.keep, e.untraced)]
      ensures pending == Queued(old(pending), e.id, !e.untraced)
    {
      hide Indexed, Counted, AbsBackup, Backed, Total, Placed, Before, Known, Window, Undecided, Tracked, Later, NoDup, Queued, Added, GoodEvent;
      var n := Node(e, e.find, e.keep, e.untraced);
      ghost var queue := Queue();
      AddFacts(c, nodes, queue, n, gone, before1, handled, now, late);
      var pos := PlaceOf(n);
      CountAdd(nodes, timeline, pending, stat, pos, n, !e.untraced);
      BackedNew(nodes, needed, backup, e.id, n);
      UndecidedAdd(nodes, pending, e);
      QueuedBehind(needed + cur, pending, e.id, !e.untraced);
      List(n, timeline[..pos] + [e.id] + timeline[pos..], Added(stat, e.size, !e.untraced));
    }

    /** The fields with one more node. */
    method List(n: Node, list: seq<nat>, s: Stat)
      requires cur == [] && Indexed(nodes[n.event.id := n], list) && Backed(nodes[n.event.id := n], needed, backup)
      requires Placed(nodes[n.event.id := n], needed + cur + Queued(pending, n.event.id, !n.unneeded))
      requires Counted(nodes[n.event.id := n], list, Queued(pending, n.event.id, !n.unneeded), s)
      requires Known(c, nodes[n.event.id := n], needed + cur + Queued(pending, n.event.id, !n.unneeded), handled + 1, n.event.time)
      requires Undecided(nodes[n.event.id := n], Queued(pending, n.event.id, !n.unneeded)) && |lost| == Groups(c) && bugs == 0
      modifies this`nodes, this`timeline, this`pending, this`stat, this`handled, this`now
      ensures Good() && nodes == old(nodes)[n.event.id := n] && now == n.event.time && handled == old(handled) + 1
      ensures pending == Queued(old(pending), n.event.id, !n.unneeded)
    {
      hide Indexed, Counted, Backed, Placed, Known, Undecided, Queued;
      nodes := nodes[n.event.id := n];
      timeline, stat, handled, now := list, s, handled + 1, n.event.time;
      pending := Queued(pending, n.event.id, !n.unneeded);
    }

    /** rblist__remove_node on the first node of the timeline, with timeline_node_delete. */
    method DeleteFirst()
      requires Good() && timeline != [] && timeline[0] in nodes && nodes[timeline[0]].unneeded
      modifies this`nodes, this`timeline, this`stat, this`bugs, this`gone
      ensures Good() && timeline == old(timeline)[1..] && nodes == old(nodes) - {old(timeline)[0]}
      ensures AbsBackup(nodes, backup) == old(AbsBackup(nodes, backup)) && EventsOf(nodes, pending) == old(EventsOf(nodes, pending))
      ensures gone == old(gone)[old(timeline)[0] := old(nodes)[old(timeline)[0]].event]
      ensures old(Tracked(nodes, gone, handled)) ==> Tracked(nodes, gone, handled)
    {
      hide Indexed, Counted, AbsBackup, Backed, Total, Placed, Known, Undecided;
      var id := timeline[0];
      var n := nodes[id];
      NotQueued(nodes, needed, cur, pending, id);
      EventsLeft(nodes, pending, id);
      bugs := bugs + if id in pending || id in needed then 1 else 0;
      CountDelete(nodes, timeline, pending, stat);
      PlacedDelete(nodes, Queue(), id);
      BackedDelete(nodes, needed, backup, id);
      KnownDelete(c, nodes, Queue(), handled, now, id);
      UndecidedDelete(nodes, pending, id);
      stat := stat.(deleted := stat.deleted + 1, bytes := stat.bytes - n.event.size,
                    unneeded := stat.unneeded - (if n.unneeded then 1 else 0),
                    unneededBytes := stat.unneededBytes - (if n.unneeded then n.event.size else 0));
      nodes, timeline := nodes - {id}, timeline[1..];
      gone := gone[id := n.event];
    }

    /** The first event that is needed or pending, or else the last one. */
    ghost function First(): nat
      requires timeline != []
      reads `timeline, `needed, `pending
    {
      if needed != [] then needed[0] else if pending != [] then pending[0] else timeline[|timeline| - 1]
    }

    /** Nothing unneeded is in front, or nothing before the window of the first event that is needed. */
    ghost predicate Tidy()
      reads `timeline, `nodes, `needed, `pending
    {
      timeline != [] ==>
        timeline[0] in nodes &&
        if before1 == 0 then !nodes[timeline[0]].unneeded
        else First() in nodes && nodes[First()].event.time <= nodes[timeline[0]].event.time + before1
    }

    lemma FirstIn()
      requires Good() && cur == [] && timeline != []
      ensures First() in nodes
    {
      FirstPlaced(nodes, timeline, needed, pending, First());
    }

    /** The time before which timeline_free_unneeded frees everything; 0 if it frees only leading unneeded nodes. */
    method FreeBound() returns (bound: nat)
      requires Good() && cur == []
      ensures bound > 0 ==> Ahead(nodes, Queue(), bound, before1, now)
      ensures bound > 0 && Queue() != [] ==> Queue()[0] in nodes && bound <= nodes[Queue()[0]].event.time
      ensures before1 > 0 && Later(nodes, before1) && timeline != [] ==> bound > 0
      ensures before1 == 0 ==> bound == 0
      ensures before1 > 0 && timeline != [] ==> First() in nodes && nodes[First()].event.time <= bound + before1
    {
      hide Counted, Backed, Total, Before;
      bound := 0;
      if before1 > 0 && timeline != [] {
        var first := if needed != [] then needed[0] else if pending != [] then pending[0] else timeline[|timeline| - 1];
        assert Queue() != [] ==> first == Queue()[0];
        if nodes[first].event.time > before1 {
          bound := nodes[first].event.time - before1;
          FirstAhead(nodes, Queue(), nodes[first].event.time, before1, now);
        }
      }
    }

    /** timeline_free_unneeded: nothing needed is freed, nor anything in the window before it. */
    method FreeUnneeded()
      requires Good() && Accounted() && cur == []
      modifies this`nodes, this`timeline, this`stat, this`bugs, this`gone
      ensures Good() && Accounted() && AbsBackup(nodes, backup) == old(AbsBackup(nodes, backup))
      ensures EventsOf(nodes, pending) == old(EventsOf(nodes, pending))
      ensures Tidy()
    {
      hide Indexed, Counted, AbsBackup, Backed, Total, Placed, Known, Undecided, Window, Tracked, Later;
      var bound := FreeBound();
      while timeline != [] && MayFree(timeline[0], bound)
        invariant Good() && Accounted() && AbsBackup(nodes, backup) == old(AbsBackup(nodes, backup))
        invariant EventsOf(nodes, pending) == old(EventsOf(nodes, pending))
        invariant bound > 0 ==> Ahead(nodes, Queue(), bound, before1, now) && (Queue() != [] ==> Queue()[0] in nodes && bound <= nodes[Queue()[0]].event.time)
        invariant late && before1 > 0 && timeline != [] ==> bound > 0
        invariant before1 > 0 && timeline != [] ==> First() in nodes && nodes[First()].event.time <= bound + before1
        decreases |timeline|
      {
        FreeOne(bound);
        if timeline != [] {
          FirstIn();
        }
      }
      if timeline != [] {
        FirstListed(nodes, timeline);
      }
    }

    predicate MayFree(id: nat, bound: nat)
      reads this
    {
      id in nodes && ((bound == 0 && nodes[id].unneeded) || nodes[id].event.time < bound)
    }

    method FreeOne(bound: nat)
      requires Good() && Accounted() && cur == [] && timeline != [] && MayFree(timeline[0], bound)
      requires bound > 0 ==> Ahead(nodes, Queue(), bound, before1, now) && (Queue() != [] ==> Queue()[0] in nodes && bound <= nodes[Queue()[0]].event.time)
      requires late && before1 > 0 ==> bound > 0
      modifies this`nodes, this`timeline, this`stat, this`bugs, this`gone
      ensures Good() && Accounted() && AbsBackup(nodes, backup) == old(AbsBackup(nodes, backup))
      ensures EventsOf(nodes, pending) == old(EventsOf(nodes, pending))
      ensures bound > 0 ==> Ahead(nodes, Queue(), bound, before1, now) && (Queue() != [] ==> Queue()[0] in nodes && bound <= nodes[Queue()[0]].event.time)
      ensures timeline == old(timeline)[1..] && nodes == old(nodes) - {old(timeline)[0]}
    {
      hide Indexed, Counted, AbsBackup, Backed, Total, Placed, Known, Undecided, Window, Tracked, Later;
      var id := timeline[0];
      if bound > 0 {
        BehindBound(nodes, Queue(), id, bound);
        AheadDelete(nodes, Queue(), bound, before1, now, id);
      }
      bugs := bugs + if nodes[id].unneeded then 0 else 1;
      FreeFacts(c, nodes, timeline, Queue(), gone, before1, handled, now, bound, late);
      DeleteFirst();
    }

    /**
     * Between samples: the timeline splits into backed-up, pending and unneeded nodes, the counters are
     * right, no BUG message was printed; without a delay after event2 the pairs are those of the
     * matcher without a timeline, and with one those of the delayed matcher.
     */
    ghost predicate Valid()
      reads this
    {
      && Good() && Accounted() && cur == [] && now < U64 && GoodInputs(c, inputs)
      && (after2 == 0 ==> pending == [] && Follows(c, Abs(), inputs, now))
      && (after2 > 0 ==> Delayed() == DelayRun(c, after2, inputs))
    }

    /** Nothing has been seen yet. */
    ghost predicate Empty()
      reads this
    {
      && nodes == map[] && timeline == [] && pending == [] && needed == [] && backup == map[] && bugs == 0
      && stat == Stat(0, 0, 0, 0, 0, 0, 0) && lost == Init(c).lost && pairs == [] && handled == 0
      && cur == [] && inputs == [] && now == 0 && gone == map[] && late
    }

    constructor (c: Config, before1: nat, after2: nat)
      ensures this.c == c && this.before1 == before1 && this.after2 == after2 && Empty()
    {
      this.c, this.before1, this.after2 := c, before1, after2;
      nodes, timeline, pending, needed, backup := map[], [], [], [], map[];
      stat := Stat(0, 0, 0, 0, 0, 0, 0);
      lost := Init(c).lost;
      pairs, handled, bugs := [], 0, 0;
      cur, inputs, now, gone, late := [], [], 0, map[], true;
    }

    lemma StartsValid()
      requires GoodConfig(c) && Empty()
      ensures Valid()
    {
      hide Follows, Indexed, Placed, Backed, Counted, Known, Undecided, Tracked, Later, Window, AbsBackup, Init, GoodConfig;
      assert Queue() == [];
      NothingYet(c, before1, nodes, timeline, backup, gone, stat, handled);
      NothingRun(c);
      assert Abs() == Init(c);
      NothingDelayed(c, after2, inputs);
    }

    /** Takes pending events in hand while their time has come; event `last` has just been added. */
    method ProcessPending(last: Event) returns (free: bool)
      requires Good() && Accounted() && cur == [] && now < U64
      modifies this`nodes, this`pending, this`needed, this`backup, this`stat, this`cur, this`lost, this`pairs
      ensures Good() && Accounted() && cur == [] && (after2 == 0 ==> pending == [])
      ensures GoodDelay(c, old(Delayed())) && Delayed() == Release(c, old(Delayed()), Deadline(after2, Some(last.time)))
      ensures pairs != old(pairs) ==> free
    {
      hide Indexed, Counted, AbsBackup, Backed, Total, Placed, Known, Undecided, Window, Tracked, Later, Handle, Reduced, Release, EventsOf, GoodDelay;
      free := false;
      ReducedSelf(nodes, Queue());
      ghost var deadline := Deadline(after2, Some(last.time));
      DelayedGood(c, Abs(), nodes, needed, pending, handled, now);
      while true
        invariant Good() && cur == [] && Reduced(old(nodes), old(Queue()), nodes, Queue())
        invariant GoodDelay(c, old(Delayed())) && GoodDelay(c, Delayed())
        invariant Release(c, Delayed(), deadline) == Release(c, old(Delayed()), deadline)
        invariant pairs != old(pairs) ==> free
        decreases |pending|
      {
        var more, freed := ProcessOne(last.time, old(nodes), old(Queue()));
        free := free || freed;
        if !more { break; }
      }
      AccountedReduced(c, old(nodes), old(Queue()), nodes, Queue(), gone, before1, handled, now, late);
    }

    /** One turn of the loop. */
    method ProcessOne(last: nat, ghost nodes0: Nodes, ghost queue0: seq<nat>) returns (more: bool, free: bool)
      requires Good() && cur == [] && now < U64 && Reduced(nodes0, queue0, nodes, Queue()) && GoodDelay(c, Delayed())
      modifies this`nodes, this`pending, this`needed, this`backup, this`stat, this`cur, this`lost, this`pairs
      ensures Good() && cur == [] && Reduced(nodes0, queue0, nodes, Queue()) && GoodDelay(c, Delayed())
      ensures Release(c, Delayed(), Deadline(after2, Some(last))) == old(Release(c, Delayed(), Deadline(after2, Some(last))))
      ensures if more then |pending| < |old(pending)|
              else Delayed() == Release(c, Delayed(), Deadline(after2, Some(last))) && (after2 == 0 ==> pending == [])
      ensures pairs != old(pairs) ==> free
    {
      hide Indexed, Counted, AbsBackup, Backed, Total, Placed, Known, Undecided, Handle, Reduced, Release, EventsOf, GoodDelay;
      ghost var d, deadline := Delayed(), Deadline(after2, Some(last));
      EventsFirst(nodes, pending);
      var first := FirstPending(Some(last));
      free, more := false, first.Some?;
      if first.None? {
        ReleaseStops(c, d, deadline);
        return;
      }
      TakenHeld(c, old(nodes), needed, old(pending), handled, now);
      ghost var nodes2, queue2 := nodes, Queue();
      free := Process(first.value);
      ReducedTrans(old(nodes), old(Queue()), nodes2, queue2, nodes, Queue());
      ReducedTrans(nodes0, queue0, old(nodes), old(Queue()), nodes, Queue());
      EventsKept(old(nodes), old(Queue()), nodes, Queue(), pending);
      ReleaseTurn(c, d, deadline);
    }

    /** An event nothing waits for, on an empty timeline, is not even looked at. */
    method Skip(e: Event)
      requires Good() && Accounted() && cur == [] && timeline == [] && e.id == handled && now <= e.time && before1 == 0
      modifies this`handled, this`now, this`gone
      ensures Good() && Accounted() && now == e.time && Abs() == old(Abs()).(handled := old(handled) + 1)
      ensures AbsBackup(nodes, backup) == map[] && pending == []
    {
      hide Indexed, Placed, Backed, Counted, Total, Undecided, Before, Known, Window, Tracked, Later, NoDup, AbsBackup;
      NothingListed(nodes, timeline, Queue(), needed, backup);
      SkipFacts(c, nodes, Queue(), gone, before1, handled, now, e);
      gone := gone[handled := e];
      handled, now := handled + 1, e.time;
    }

    /** The event is added, pending events whose time has come are handled, and what is unneeded is freed. */
    method PutOnTimeline(e: Event, free: bool)
      requires Good() && Accounted() && cur == [] && e.id == handled && now <= e.time < U64 && GoodEvent(c, e)
      requires late ==> e.time > before1
      requires after2 == 0 ==> pending == []
      modifies this`nodes, this`timeline, this`pending, this`needed, this`backup, this`stat, this`cur, this`lost, this`pairs
      modifies this`handled, this`now, this`bugs, this`gone
      ensures Good() && Accounted() && cur == [] && now == e.time
      ensures GoodDelay(c, Arrive(old(Delayed()), e))
      ensures Delayed() == Release(c, Arrive(old(Delayed()), e), Deadline(after2, Some(e.time)))
      ensures free || pairs != old(pairs) ==> Tidy()
      ensures after2 == 0 ==> pending == [] && Group(c, e.ins) < |old(lost)|
      ensures after2 == 0 ==>
                Abs() == if e.untraced then Bumped(old(Abs())) else Handle(c, Bumped(old(Abs())), e)
    {
      hide Indexed, Counted, AbsBackup, Backed, Total, Placed, Known, Undecided, Window, Tracked, Later, Handle, Release, EventsOf, GoodDelay;
      NewEvent(c, nodes, needed, pending, handled, now);
      Add(e);
      EventsQueued(old(nodes), old(pending), e, nodes);
      assert Delayed() == Arrive(old(Delayed()), e);
      var freed := ProcessPending(e);
      if free || freed {
        FreeUnneeded();
      }
      if after2 == 0 {
        ReleaseAtOnce(c, old(Delayed()), e);
      }
    }

    /** What the matcher has made of the inputs, one event later. */
    method Take(ghost event: Event, e: Event, free: bool)
      requires Good() && Accounted() && cur == [] && e == event.(id := handled) && now <= e.time < U64 && GoodEvent(c, e)
      requires (late ==> e.time > before1) && GoodInputs(c, inputs) && GoodInputs(c, inputs + [Input.Sample(event)])
      requires after2 == 0 ==> pending == [] && Follows(c, Abs(), inputs, now)
      requires after2 > 0 ==> Delayed() == DelayRun(c, after2, inputs)
      modifies this`nodes, this`timeline, this`pending, this`needed, this`backup, this`stat, this`cur, this`lost, this`pairs
      modifies this`handled, this`now, this`bugs, this`gone
      ensures Good() && Accounted() && cur == [] && now == e.time
      ensures after2 == 0 ==> pending == [] && Follows(c, Abs(), inputs + [Input.Sample(event)], now)
      ensures after2 > 0 ==> Delayed() == DelayRun(c, after2, inputs + [Input.Sample(event)])
      ensures free || pairs != old(pairs) ==> Tidy()
    {
      hide Good, Accounted, Handle, Follows, GoodDelay, Release, EventsOf, Arrive, DelayRun, Tidy;
      ghost var s := Abs();
      PutOnTimeline(e, free);
      if after2 == 0 {
        if e.untraced {
          FollowsSkipped(c, s, inputs, old(now), event);
        } else {
          FollowsHandled(c, s, inputs, old(now), event);
        }
      } else {
        DelaySample(c, after2, old(Delayed()), inputs, event, e);
      }
    }

    /** multi_trace_sample in timeline mode. */
    method Sample(event: Event)
      requires Valid() && GoodEvent(c, event) && now <= event.time < U64
      modifies this
      ensures Valid() && inputs == old(inputs) + [Input.Sample(event)] && now == event.time
      ensures late == (old(late) && event.time > before1)
      ensures !event.keep || event.untraced || pairs != old(pairs) ==> Tidy()
    {
      hide Indexed, Counted, AbsBackup, Backed, Total, Placed, Known, Undecided, Window, Tracked, Later, Handle, Follows, GoodInputs, GoodDelay, Release, EventsOf, Arrive, DelayRun, Good;
      var e := event.(id := handled);
      var free := !e.keep || e.untraced;
      ghost var s := Abs();
      late := late && e.time > before1;
      Grown(c, inputs, Input.Sample(event));
      if timeline == [] && free && before1 == 0 && after2 == 0 {
        Skip(e);
        FollowsSkipped(c, s, inputs, old(now), event);
      } else {
        Take(event, e, free);
      }
      inputs := inputs + [Input.Sample(event)];
    }

    /** multi_trace_lost with time-ordered delivery: the range is listed and looked at later. */
    method Lost(ins: nat, start: nat, end: nat)
      requires Valid() && ins < |c.insKey| && (c.perIns ==> Latest(c, inputs, ins) <= start)
      modifies this`lost, this`inputs
      ensures Valid() && inputs == old(inputs) + [Input.Lost(ins, start, end)]
      ensures Abs() == Step(c, old(Abs()), Input.Lost(ins, start, end))
    {
      hide Indexed, Counted, AbsBackup, Backed, Total, Placed, Known, Undecided, Window, Tracked, Later, Follows, GoodInputs, Insert;
      var g := Group(c, ins);
      var l := Loss(start, end, false);
      ghost var s := Abs();
      if c.perIns {
        lost := lost[g := lost[g] + [l]];
      } else {
        var list := InsertLoss(lost[g], l);
        lost := lost[g := list];
      }
      Grown(c, inputs, Input.Lost(ins, start, end));
      if after2 == 0 {
        FollowsLost(c, s, inputs, now, Input.Lost(ins, start, end));
      } else {
        DelaySnoc(c, after2, inputs, Input.Lost(ins, start, end));
      }
      inputs := inputs + [Input.Lost(ins, start, end)];
    }

    method Feed(i: Input)
      requires Valid() && GoodInput(c, i) && (i.Sample? ==> now <= i.event.time < U64)
      requires i.Lost? && c.perIns ==> Latest(c, inputs, i.ins) <= i.start
      modifies this
      ensures Valid() && inputs == old(inputs) + [i] && now == if i.Sample? then i.event.time else old(now)
    {
      hide Valid;
      match i
      case Sample(e) => Sample(e);
      case Lost(ins, start, end) => Lost(ins, start, end);
    }

    /** Every node is in exactly one place. */
    lemma Partition(id: nat)
      requires Valid() && id in nodes
      ensures id in pending ==> id !in needed && !nodes[id].unneeded
      ensures id in needed <==> nodes[id].event.key in backup && backup[nodes[id].event.key] == id
      ensures id in needed ==> !nodes[id].unneeded
      ensures id in pending || id in needed || nodes[id].unneeded
    {
      var q := needed + [] + pending;
      assert Queue() == q;
      Apart(needed, [], pending);
    }

    /** Whatever has left the timeline lies before the window of every backed-up event. */
    lemma WindowKept(a: nat, x: nat)
      requires Valid() && late && a in needed && x < handled
      ensures a in nodes && (x in nodes || (x in gone && gone[x].time + before1 <= nodes[a].event.time))
    {
      var k :| 0 <= k < |needed| && needed[k] == a;
      assert Queue()[k] == a;
    }

    lemma DelayedSame()
      requires Valid() && after2 > 0
      ensures pairs == DelayRun(c, after2, inputs).s.pairs && EventsOf(nodes, pending) == DelayRun(c, after2, inputs).wait
    {
    }

    lemma SamePairs()
      requires Valid() && after2 == 0
      ensures pairs == Run(c, inputs).pairs
    {
    }

    /** The pending list is emptied without looking for pairs, then the backup is. */
    method Drain()
      requires Good() && cur == [] && now < U64
      modifies this`nodes, this`pending, this`needed, this`backup, this`stat, this`cur
      ensures Good() && pending == [] && needed == []
    {
      hide Indexed, Counted, AbsBackup, Total, Placed, Known, Undecided, Reduced;
      while true
        invariant Good()
        decreases |pending|
      {
        var first := FirstPending(None);
        if first.None? { break; }
      }
      while backup != map[]
        invariant Good() && pending == []
        decreases |backup|
      {
        var key :| key in backup;
        Unback(key);
      }
      NoneNeeded(nodes, needed, backup);
    }

    /** multi_trace_flush at the end: every gauge returns to 0. */
    method Flush()
      requires Valid()
      modifies this
      ensures nodes == map[] && timeline == [] && pending == [] && needed == [] && backup == map[] && bugs == 0
      ensures stat.unneeded == 0 && stat.pending == 0 && stat.bytes == 0 && stat.unneededBytes == 0 && stat.pendingBytes == 0
      ensures stat.added == stat.deleted && pairs == old(pairs)
    {
      hide Indexed, Counted, AbsBackup, Backed, Total, Placed, Known, Undecided, Window, Tracked, Later, Follows, GoodInputs;
      Drain();
      AbsKeys(nodes, needed, backup);
      assert backup == map[] by { NothingBacked(nodes, needed, backup); }
      while timeline != []
        invariant Indexed(nodes, timeline) && Counted(nodes, timeline, pending, stat) && bugs == 0 && pending == [] && needed == []
        invariant backup == map[] && pairs == old(pairs)
        decreases |timeline|
      {
        FirstListed(nodes, timeline);
        var id := timeline[0];
        var n := nodes[id];
        bugs := bugs + if id in pending || id in needed then 1 else 0;
        CountDelete(nodes, timeline, pending, stat);
        stat := stat.(deleted := stat.deleted + 1, bytes := stat.bytes - n.event.size,
                      unneeded := stat.unneeded - (if n.unneeded then 1 else 0),
                      unneededBytes := stat.unneededBytes - (if n.unneeded then n.event.size else 0));
        nodes, timeline := nodes - {id}, timeline[1..];
      }
      NothingCounted(nodes, timeline, pending, stat);
    }
  }

  /** list_for_each_entry to the first range that starts later. */
  method InsertLoss(list: seq<Loss>, l: Loss) returns (r: seq<Loss>)
    ensures r == Insert(list, l)
  {
    var pos := 0;
    while pos < |list| && list[pos].start <= l.start
      invariant 0 <= pos <= |list|
      invariant Insert(list, l) == list[..pos] + Insert(list[pos..], l)
    {
      InsertPast(list, l, pos);
      pos := pos + 1;
    }
    InsertHere(list, l, pos);
    r := list[..pos] + [l] + list[pos..];
  }

  lemma InsertPast(list: seq<Loss>, l: Loss, pos: nat)
    requires pos < |list| && list[pos].start <= l.start
    ensures list[..pos] + Insert(list[pos..], l) == list[..pos + 1] + Insert(list[pos + 1..], l)
  {
    var rest := Insert(list[pos + 1..], l);
    assert list[pos..][1..] == list[pos + 1..];
    assert Insert(list[pos..], l) == [list[pos]] + rest;
    hide Insert;
    assert list[..pos + 1] == list[..pos] + [list[pos]];
    assert list[..pos] + ([list[pos]] + rest) == list[..pos] + [list[pos]] + rest;
  }

  lemma InsertHere(list: seq<Loss>, l: Loss, pos: nat)
    requires pos <= |list| && (pos < |list| ==> list[pos].start > l.start)
    ensures list[..pos] + Insert(list[pos..], l) == list[..pos] + [l] + list[pos..]
  {
    var rest := list[pos..];
    assert Insert(rest, l) == [l] + rest;
    hide Insert;
    assert list[..pos] + ([l] + rest) == list[..pos] + [l] + rest;
  }

  lemma Grown(c: Config, inputs: seq<Input>, i: Input)
    requires GoodInputs(c, inputs) && GoodInput(c, i)
    ensures GoodInputs(c, inputs + [i])
  {
  }

  lemma NothingBacked(nodes: Nodes, needed: seq<nat>, backup: map<nat, nat>)
    requires Backed(nodes, needed, backup) && needed == []
    ensures backup == map[]
  {
  }

  lemma FirstPlaced(nodes: Nodes, timeline: seq<nat>, needed: seq<nat>, pending: seq<nat>, first: nat)
    requires Indexed(nodes, timeline) && Placed(nodes, needed + [] + pending) && timeline != []
    requires first == if needed != [] then needed[0] else if pending != [] then pending[0] else timeline[|timeline| - 1]
    ensures first in nodes
  {
    var q := needed + [] + pending;
    if q != [] {
      assert first == q[0];
    }
  }

  lemma FirstListed(nodes: Nodes, timeline: seq<nat>)
    requires Indexed(nodes, timeline) && timeline != []
    ensures timeline[0] in nodes
  {
  }

  lemma NothingCounted(nodes: Nodes, timeline: seq<nat>, pending: seq<nat>, stat: Stat)
    requires Indexed(nodes, timeline) && Counted(nodes, timeline, pending, stat) && timeline == [] && pending == []
    ensures nodes == map[] && stat == Stat(stat.added, stat.added, 0, 0, 0, 0, 0)
  {
  }

  /** Samples in time order within 64 bits; per-instance ranges in the order of their starts. */
  predicate Playable(c: Config, inputs: seq<Input>) {
    && GoodInputs(c, inputs)
    && (forall j :: 0 <= j < |inputs| && inputs[j].Sample? ==> inputs[j].event.time < U64)
    && (forall j, k :: 0 <= j < k < |inputs| && inputs[j].Sample? && inputs[k].Sample? ==>
          inputs[j].event.time <= inputs[k].event.time)
    && (forall j, k :: 0 <= j < k < |inputs| && inputs[j].Lost? && inputs[k].Lost? && c.perIns && inputs[j].ins == inputs[k].ins ==>
          inputs[j].start <= inputs[k].start)
  }

  lemma {:induction false} LatestBound(c: Config, inputs: seq<Input>, n: nat, ins: nat, bound: nat)
    requires n <= |inputs| && c.perIns
    requires forall j :: 0 <= j < n && inputs[j].Lost? && inputs[j].ins == ins ==> inputs[j].start <= bound
    ensures Latest(c, inputs[..n], ins) <= bound
  {
    if n > 0 {
      LatestBound(c, inputs, n - 1, ins, bound);
      assert inputs[..n][..n - 1] == inputs[..n - 1];
    }
  }

  /** Timeline mode makes the same two(A, B) calls, in the same order, as the mode without a timeline. */
  method PlayTimeline(c: Config, before1: nat, inputs: seq<Input>) returns (t: Tracer)
    requires Playable(c, inputs)
    ensures fresh(t) && t.Valid() && t.inputs == inputs && t.pairs == Run(c, inputs).pairs
  {
    hide *;
    t := new Tracer(c, before1, 0);
    StartPlaying(c, inputs);
    t.StartsValid();
    PlayFrom(t, inputs);
    t.SamePairs();
  }

  /** With a delay it makes those of the delayed matcher, and the same events wait. */
  method PlayDelayed(c: Config, before1: nat, after2: nat, inputs: seq<Input>) returns (t: Tracer)
    requires Playable(c, inputs) && after2 > 0
    ensures fresh(t) && t.Valid() && t.inputs == inputs
    ensures t.pairs == DelayRun(c, after2, inputs).s.pairs && EventsOf(t.nodes, t.pending) == DelayRun(c, after2, inputs).wait
  {
    hide *;
    t := new Tracer(c, before1, after2);
    StartPlaying(c, inputs);
    t.StartsValid();
    PlayFrom(t, inputs);
    t.DelayedSame();
  }

  lemma StartPlaying(c: Config, inputs: seq<Input>)
    requires Playable(c, inputs)
    ensures GoodConfig(c) && forall k :: 0 <= k < |inputs| ==> GoodInput(c, inputs[k])
  {
  }

  method PlayFrom(t: Tracer, inputs: seq<Input>)
    requires t.Valid() && t.inputs == [] && t.now == 0 && Playable(t.c, inputs)
    modifies t
    ensures t.Valid() && t.inputs == inputs
  {
    hide *;
    for k := 0 to |inputs|
      invariant t.Valid() && t.inputs == inputs[..k]
      invariant forall m :: k <= m < |inputs| && inputs[m].Sample? ==> t.now <= inputs[m].event.time
    {
      assert inputs[..k + 1] == inputs[..k] + [inputs[k]];
      PlayableAt(t.c, inputs, k);
      t.Feed(inputs[k]);
    }
    assert inputs[..|inputs|] == inputs;
  }

  lemma PlayableAt(c: Config, inputs: seq<Input>, k: nat)
    requires Playable(c, inputs) && k < |inputs|
    ensures GoodInput(c, inputs[k]) && (inputs[k].Sample? ==> inputs[k].event.time < U64)
    ensures inputs[k].Lost? && c.perIns ==> Latest(c, inputs[..k], inputs[k].ins) <= inputs[k].start
    ensures inputs[k].Sample? ==> forall m :: k < m < |inputs| && inputs[m].Sample? ==> inputs[k].event.time <= inputs[m].event.time
  {
    if inputs[k].Lost? && c.perIns {
      LatestBound(c, inputs, k, inputs[k].ins, inputs[k].start);
    }
  }

  lemma InHand(nodes: Nodes, needed: seq<nat>, pending: seq<nat>, id: nat)
    requires Placed(nodes, needed + [id] + pending)
    ensures var q := needed + [id] + pending;
            q[|needed|] == id && needed + [] + pending == q[..|needed|] + q[|needed| + 1..]
    ensures id in nodes && !nodes[id].unneeded
  {
    var q := needed + [id] + pending;
    assert q[|needed|] == id;
  }

  lemma NothingYet(c: Config, before: nat, nodes: Nodes, q: seq<nat>, backup: map<nat, nat>, gone: map<nat, Event>, stat: Stat, zero: nat)
    requires nodes == map[] && q == [] && backup == map[] && gone == map[] && zero == 0
    requires stat == Stat(0, 0, 0, 0, 0, 0, 0)
    ensures Indexed(nodes, q) && Placed(nodes, q) && Backed(nodes, q, backup) && Undecided(nodes, q)
    ensures Counted(nodes, q, q, stat) && Known(c, nodes, q, zero, zero)
    ensures Tracked(nodes, gone, zero) && Later(nodes, before) && Window(nodes, q, gone, before, zero)
    ensures AbsBackup(nodes, backup) == map[]
  {
  }

  lemma NothingRun(c: Config)
    requires GoodConfig(c)
    ensures GoodInputs(c, []) && |Init(c).lost| == Groups(c)
    ensures Init(c) == State(Init(c).lost, map[], [], 0)
    ensures Follows(c, Init(c), [], 0)
  {
    assert Run(c, []) == Init(c);
  }

  lemma AccountedReduced(c: Config, a: Nodes, q: seq<nat>, b: Nodes, r: seq<nat>, gone: map<nat, Event>, before: nat,
                         handled: nat, now: nat, late: bool)
    requires Reduced(a, q, b, r) && Tracked(a, gone, handled) && (late ==> Later(a, before) && Window(a, q, gone, before, now))
    ensures Tracked(b, gone, handled) && (late ==> Later(b, before) && Window(b, r, gone, before, now))
  {
    hide Window;
    Shrink(c, a, q, b, r, gone, before, handled, now);
  }

  /** The parts of a queue without repetitions have nothing in common. */
  lemma Apart(needed: seq<nat>, cur: seq<nat>, pending: seq<nat>)
    requires NoDup(needed + cur + pending)
    ensures forall j, k :: 0 <= j < |needed| && 0 <= k < |pending| ==> needed[j] != pending[k]
    ensures forall j, k :: 0 <= j < |cur| && 0 <= k < |pending| ==> cur[j] != pending[k]
  {
    var q := needed + cur + pending;
    forall j, k | 0 <= j < |needed| && 0 <= k < |pending|
      ensures needed[j] != pending[k]
    {
      assert q[j] != q[|needed| + |cur| + k];
    }
    forall j, k | 0 <= j < |cur| && 0 <= k < |pending|
      ensures cur[j] != pending[k]
    {
      assert q[|needed| + j] != q[|needed| + |cur| + k];
    }
  }

  lemma NothingListed(nodes: Nodes, timeline: seq<nat>, q: seq<nat>, needed: seq<nat>, backup: map<nat, nat>)
    requires Indexed(nodes, timeline) && timeline == [] && Placed(nodes, q) && Backed(nodes, needed, backup)
    ensures nodes == map[] && q == [] && AbsBackup(nodes, backup) == map[]
  {
    NoneQueued(nodes, q);
  }

  /** An event that goes past an empty timeline. */
  lemma SkipFacts(c: Config, nodes: Nodes, q: seq<nat>, gone: map<nat, Event>, before: nat, handled: nat, now: nat, e: Event)
    requires nodes == map[] && q == [] && Tracked(nodes, gone, handled) && before == 0 && now <= e.time
    ensures Known(c, nodes, q, handled + 1, e.time) && Tracked(nodes, gone[handled := e], handled + 1)
    ensures Later(nodes, before)
    ensures Window(nodes, q, gone, before, now) ==> Window(nodes, q, gone[handled := e], before, e.time)
  {
  }

  lemma NoneQueued(nodes: Nodes, q: seq<nat>)
    requires Placed(nodes, q)
    ensures nodes == map[] ==> q == []
  {
    if q != [] {
      assert q[0] in nodes;
    }
  }

  lemma NoneNeeded(nodes: Nodes, needed: seq<nat>, backup: map<nat, nat>)
    requires Backed(nodes, needed, backup)
    ensures backup == map[] ==> needed == []
  {
    if needed != [] {
      assert nodes[needed[0]].event.key in backup;
    }
  }

  lemma HeldNotPending(nodes: Nodes, needed: seq<nat>, cur: seq<nat>, pending: seq<nat>, id: nat)
    requires Placed(nodes, needed + cur + pending) && id in nodes && (id in cur || nodes[id].unneeded)
    ensures id !in pending
  {
    Apart(needed, cur, pending);
  }

  /** A pending node is traced and its decisions stand. */
  lemma TakenHeld(c: Config, nodes: Nodes, needed: seq<nat>, pending: seq<nat>, handled: nat, now: nat)
    requires Known(c, nodes, needed + [] + pending, handled, now) && Undecided(nodes, pending) && pending != []
    ensures var id := pending[0];
            && id in nodes && !nodes[id].event.untraced && GoodEvent(c, nodes[id].event)
            && nodes[id].find == nodes[id].event.find && nodes[id].keep == nodes[id].event.keep
  {
    assert (needed + [] + pending)[|needed|] == pending[0];
  }

  lemma NotQueued(nodes: Nodes, needed: seq<nat>, cur: seq<nat>, pending: seq<nat>, id: nat)
    requires Placed(nodes, needed + cur + pending) && id in nodes && nodes[id].unneeded
    ensures id !in needed && id !in pending && id !in needed + cur + pending
  {
  }

  lemma KnownDelete(c: Config, nodes: Nodes, q: seq<nat>, handled: nat, now: nat, id: nat)
    requires Known(c, nodes, q, handled, now) && id !in q
    ensures Known(c, nodes - {id}, q, handled, now)
  {
  }

  /** Freeing the first node keeps the window of everything needed. */
  lemma FreeFacts(c: Config, nodes: Nodes, timeline: seq<nat>, q: seq<nat>, gone: map<nat, Event>, before: nat,
                  handled: nat, now: nat, bound: nat, late: bool)
    requires Indexed(nodes, timeline) && timeline != [] && Placed(nodes, q) && Known(c, nodes, q, handled, now)
    requires nodes[timeline[0]].unneeded && Tracked(nodes, gone, handled)
    requires late ==> Later(nodes, before) && Window(nodes, q, gone, before, now) && (before > 0 ==> bound > 0)
    requires bound > 0 ==> Ahead(nodes, q, bound, before, now) && nodes[timeline[0]].event.time < bound
    ensures var id := timeline[0];
            late ==> Later(nodes - {id}, before) && Window(nodes - {id}, q, gone[id := nodes[id].event], before, now)
    ensures q != [] ==> q[0] in nodes - {timeline[0]}
  {
    hide Before;
    var id := timeline[0];
    NotQueued(nodes, q, [], [], id) by { assert q + [] + [] == q; }
    assert q + [] + [] == q;
    assert q != [] ==> q[0] in q;
    if late {
      forall k | 0 <= k < |q|
        ensures nodes[id].event.time + before <= nodes[q[k]].event.time
      {
        FirstIsEarliest(nodes, timeline, q[k]);
      }
      Free(c, nodes, timeline, q, gone, before, handled, now);
    }
  }

  lemma AddFacts(c: Config, nodes: Nodes, q: seq<nat>, n: Node, gone: map<nat, Event>, before: nat, handled: nat, now: nat, late: bool)
    requires Known(c, nodes, q, handled, now) && Placed(nodes, q) && Tracked(nodes, gone, handled)
    requires late ==> Later(nodes, before) && Window(nodes, q, gone, before, now) && n.event.time > before
    requires n.event.id == handled && now <= n.event.time && GoodEvent(c, n.event) && n.unneeded == n.event.untraced
    ensures var q' := Queued(q, handled, !n.unneeded);
            && handled !in nodes && Known(c, nodes[handled := n], q', handled + 1, n.event.time) && Placed(nodes[handled := n], q')
            && Tracked(nodes[handled := n], gone, handled + 1)
            && (late ==> Later(nodes[handled := n], before) && Window(nodes[handled := n], q', gone, before, n.event.time))
  {
    hide Window, Placed;
    PlacedAdd(nodes, q, n) by { PlacedIn(nodes, q); }
    Grow(c, nodes, q, n, map[], before, handled, now) by { NothingGone(nodes, q, before, now); }
    if late {
      Grow(c, nodes, q, n, gone, before, handled, now);
    }
  }

  lemma PlacedIn(nodes: Nodes, q: seq<nat>)
    requires Placed(nodes, q)
    ensures forall k :: 0 <= k < |q| ==> q[k] in nodes
  {
  }

  lemma NothingGone(nodes: Nodes, q: seq<nat>, before: nat, now: nat)
    ensures Window(nodes, q, map[], before, now)
  {
  }

  lemma Subqueue(a: Nodes, q: seq<nat>, b: Nodes, r: seq<nat>)
    requires a.Keys == b.Keys && forall id :: id in a ==> a[id].event == b[id].event
    requires r == q || exists i :: 0 <= i < |q| && r == q[..i] + q[i + 1..]
    ensures Reduced(a, q, b, r)
  {
    assert forall k :: 0 <= k < |r| ==> r[k] in q;
  }

  lemma KnownTime(c: Config, nodes: Nodes, queue: seq<nat>, handled: nat, now: nat, id: nat)
    requires Known(c, nodes, queue, handled, now) && id in nodes
    ensures nodes[id].event.time <= now
  {
  }

  lemma Reduction(c: Config, a: Nodes, q: seq<nat>, b: Nodes, r: seq<nat>, handled: nat, now: nat)
    requires Reduced(a, q, b, r) && Known(c, a, q, handled, now)
    ensures Known(c, b, r, handled, now)
  {
    Shrink(c, a, q, b, r, map[], 0, handled, now);
  }

  lemma PendingFirst(nodes: Nodes, needed: seq<nat>, cur: seq<nat>, pending: seq<nat>)
    requires Placed(nodes, needed + cur + pending) && pending != []
    ensures var q, k := needed + cur + pending, |needed| + |cur|;
            q[k] == pending[0] && needed + cur + pending[1..] == q[..k] + q[k + 1..] && needed + (cur + [pending[0]]) + pending[1..] == q
    ensures pending[0] in nodes && !nodes[pending[0]].unneeded
  {
    var q, k := needed + cur + pending, |needed| + |cur|;
    FrontOut(needed + cur, pending);
    Grouping(needed, cur, [pending[0]]);
    assert q[k] in q;
  }

  lemma FrontOut(a: seq<nat>, b: seq<nat>)
    requires b != []
    ensures (a + b)[|a|] == b[0] && (a + b)[..|a|] == a && (a + b)[|a| + 1..] == b[1..]
    ensures a + [b[0]] + b[1..] == a + b
  {
  }

  lemma Grouping(a: seq<nat>, b: seq<nat>, d: seq<nat>)
    ensures a + (b + d) == a + b + d
  {
  }

  lemma NeededFirst(nodes: Nodes, needed: seq<nat>, cur: seq<nat>, pending: seq<nat>, i: nat)
    requires Placed(nodes, needed + cur + pending) && i < |needed|
    ensures NoDup(needed) && needed[i] in nodes && !nodes[needed[i]].unneeded
    ensures (needed + cur + pending)[i] == needed[i]
    ensures var q := needed + cur + pending;
            needed[..i] + needed[i + 1..] + cur + pending == q[..i] + q[i + 1..]
    ensures Within(needed[..i] + needed[i + 1..] + cur + pending, needed + cur + pending)
  {
    var q := needed + cur + pending;
    assert forall k :: 0 <= k < |needed| ==> needed[k] == q[k];
  }

  /** multi_trace_sample and multi_trace_lost without a timeline. */
  class Light {
    const c: Config
    var lost: seq<seq<Loss>>
    var backup: map<nat, Event>
    var pairs: seq<(Event, Event)>
    var handled: nat
    /** backup_stat */
    var created: int
    var deleted: int

    ghost predicate Valid()
      reads this
    {
      |lost| == Groups(c) && created - deleted == |backup|
    }

    ghost function Abs(): State
      reads this
    {
      State(lost, backup, pairs, handled)
    }

    constructor (c: Config)
      ensures Valid() && this.c == c && Abs() == Init(c)
    {
      this.c := c;
      lost, backup, pairs, handled, created, deleted := Init(c).lost, map[], [], 0, 0, 0;
    }

    method Remove(key: nat)
      requires Valid() && key in backup
      modifies this`backup, this`deleted
      ensures Valid() && backup == old(backup) - {key}
    {
      assert backup.Keys == (backup - {key}).Keys + {key};
      backup, deleted := backup - {key}, deleted + 1;
    }

    method Reclaim(g: nat)
      requires Valid() && g < Groups(c)
      modifies this`backup, this`deleted
      ensures Valid() && backup == Reclaimed(c, old(backup), g)
    {
      if c.perIns {
        if c.insKey[g] in backup {
          Remove(c.insKey[g]);
        }
      } else {
        while backup != map[]
          invariant Valid()
          decreases |backup|
        {
          var key :| key in backup;
          Remove(key);
        }
      }
    }

    method Sample(event: Event)
      requires Valid() && GoodEvent(c, event)
      modifies this
      ensures Valid() && Abs() == Step(c, old(Abs()), Input.Sample(event))
    {
      hide Lose, CallTwo, Keep, Sweep;
      var e := event.(id := handled);
      handled := handled + 1;
      if e.untraced { return; }
      var find, keep := EventLost(e);
      if e.find && find {
        TryCallTwo(e);
      }
      if e.keep && keep {
        TryBackup(e);
      }
    }

    method EventLost(e: Event) returns (find: bool, keep: bool)
      requires Valid() && GoodEvent(c, e)
      modifies this`lost, this`backup, this`deleted
      ensures Valid() && Abs() == Lose(c, old(Abs()), e)
      ensures var v := Sweep(old(lost)[Group(c, e.ins)], e.time); find == v.find && keep == v.keep
    {
      hide Sweep;
      var g := Group(c, e.ins);
      var v := SweepLosses(lost[g], e.time);
      lost, find, keep := lost[g := v.rest], v.find, v.keep;
      if v.reclaim {
        Reclaim(g);
      }
    }

    method TryCallTwo(e: Event)
      requires Valid()
      modifies this`backup, this`deleted, this`pairs
      ensures Valid() && Abs() == CallTwo(c, old(Abs()), e)
    {
      if e.key in backup {
        var prev := backup[e.key];
        if (prev.tp, e.tp) in c.paired && prev.time < e.time {
          pairs := pairs + [(prev, e)];
        }
        Remove(e.key);
      }
    }

    method TryBackup(e: Event)
      requires Valid()
      modifies this`backup, this`deleted, this`created
      ensures Valid() && Abs() == Keep(old(Abs()), e)
    {
      if e.key in backup {
        if e.time < backup[e.key].time { return; }
        Remove(e.key);
      }
      assert backup[e.key := e].Keys == backup.Keys + {e.key};
      backup, created := backup[e.key := e], created + 1;
    }

    method Lost(ins: nat, start: nat, end: nat)
      requires Valid() && ins < |c.insKey|
      modifies this`lost
      ensures Valid() && Abs() == Step(c, old(Abs()), Input.Lost(ins, start, end))
    {
      var g := Group(c, ins);
      if c.perIns {
        lost := lost[g := lost[g] + [Loss(start, end, false)]];
      } else {
        var list := InsertLoss(lost[g], Loss(start, end, false));
        lost := lost[g := list];
      }
    }
  }

  /** The mode without a timeline is the matcher. */
  method PlayLight(c: Config, inputs: seq<Input>) returns (t: Light)
    requires GoodInputs(c, inputs)
    ensures fresh(t) && t.Valid() && t.Abs() == Run(c, inputs)
  {
    hide Step;
    t := new Light(c);
    for k := 0 to |inputs|
      invariant fresh(t) && t.Valid() && t.c == c && t.Abs() == Run(c, inputs[..k])
    {
      assert inputs[..k + 1][..k] == inputs[..k];
      match inputs[k]
      case Sample(e) => t.Sample(e);
      case Lost(ins, start, end) => t.Lost(ins, start, end);
    }
    assert inputs[..|inputs|] == inputs;
  }

  // ---- the events that wait ------------------------------------------------------------------------------

  function EventOf(nodes: Nodes, id: nat): Event {
    if id in nodes then nodes[id].event else Event(0, 0, 0, false, false, true, 0, 0, 0)
  }

  function EventsOf(nodes: Nodes, ids: seq<nat>): (es: seq<Event>)
    ensures |es| == |ids| && forall k :: 0 <= k < |ids| ==> es[k] == EventOf(nodes, ids[k])
  {
    seq(|ids|, k requires 0 <= k < |ids| => EventOf(nodes, ids[k]))
  }

  lemma EventsFirst(nodes: Nodes, ids: seq<nat>)
    ensures ids != [] ==> EventsOf(nodes, ids)[1..] == EventsOf(nodes, ids[1..])
  {
  }

  lemma EventsLeft(nodes: Nodes, ids: seq<nat>, id: nat)
    requires id !in ids
    ensures EventsOf(nodes - {id}, ids) == EventsOf(nodes, ids)
  {
  }

  lemma EventsKept(a: Nodes, q: seq<nat>, b: Nodes, r: seq<nat>, ids: seq<nat>)
    requires Reduced(a, q, b, r)
    ensures EventsOf(b, ids) == EventsOf(a, ids)
  {
  }

  lemma EventsQueued(a: Nodes, ids: seq<nat>, e: Event, b: Nodes)
    requires e.id !in a && b == a[e.id := Node(e, e.find, e.keep, e.untraced)] && forall k :: 0 <= k < |ids| ==> ids[k] in a
    ensures EventsOf(b, Queued(ids, e.id, !e.untraced)) == EventsOf(a, ids) + if e.untraced then [] else [e]
  {
  }

  /** The next event has no node yet, and those that wait have one. */
  lemma NewEvent(c: Config, nodes: Nodes, needed: seq<nat>, pending: seq<nat>, handled: nat, now: nat)
    requires Known(c, nodes, needed + [] + pending, handled, now)
    ensures handled !in nodes && forall k :: 0 <= k < |pending| ==> pending[k] in nodes
  {
    forall k | 0 <= k < |pending|
      ensures pending[k] in nodes
    {
      assert (needed + [] + pending)[|needed| + k] == pending[k];
    }
  }

  lemma DelayedGood(c: Config, s: State, nodes: Nodes, needed: seq<nat>, pending: seq<nat>, handled: nat, now: nat)
    requires |s.lost| == Groups(c) && Known(c, nodes, needed + [] + pending, handled, now)
    ensures GoodDelay(c, Delay(s, EventsOf(nodes, pending)))
  {
    forall k | 0 <= k < |pending|
      ensures pending[k] in nodes && GoodEvent(c, nodes[pending[k]].event)
    {
      assert (needed + [] + pending)[|needed| + k] == pending[k];
    }
  }

  /** Without a delay an event is handled at once. */
  lemma ReleaseAtOnce(c: Config, d: Delay, e: Event)
    requires GoodDelay(c, Arrive(d, e)) && d.wait == [] && e.time < U64 && e.id == d.s.handled
    ensures Group(c, e.ins) < |d.s.lost| || e.untraced
    ensures Release(c, Arrive(d, e), U64 - 1) == Delay(if e.untraced then Bumped(d.s) else Handle(c, Bumped(d.s), e), [])
  {
    hide Handle;
    if !e.untraced {
      assert Arrive(d, e).wait == [e];
      ReleaseTurn(c, Arrive(d, e), U64 - 1);
      assert Arrive(d, e).wait[1..] == [];
    }
  }

  lemma DelaySnoc(c: Config, after2: nat, inputs: seq<Input>, i: Input)
    requires GoodInputs(c, inputs) && GoodInput(c, i)
    ensures GoodInputs(c, inputs + [i]) && DelayRun(c, after2, inputs + [i]) == DelayStep(c, after2, DelayRun(c, after2, inputs), i)
  {
    assert (inputs + [i])[..|inputs|] == inputs;
  }

  lemma NothingDelayed(c: Config, after2: nat, inputs: seq<Input>)
    requires inputs == []
    ensures DelayRun(c, after2, inputs) == Delay(Init(c), [])
  {
  }

  lemma DelaySample(c: Config, after2: nat, d: Delay, inputs: seq<Input>, event: Event, e: Event)
    requires GoodInputs(c, inputs) && GoodEvent(c, event) && d == DelayRun(c, after2, inputs) && e == event.(id := d.s.handled)
    ensures GoodInputs(c, inputs + [Sample(event)]) && GoodDelay(c, Arrive(d, e))
    ensures DelayRun(c, after2, inputs + [Sample(event)]) == Release(c, Arrive(d, e), Deadline(after2, Some(e.time)))
  {
    hide Release, DelayRun;
    DelaySnoc(c, after2, inputs, Sample(event));
    assert Arrive(d, event) == Arrive(d, e);
  }
}
