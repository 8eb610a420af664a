/** The nodes of multi-trace.c's timeline, the queues they wait in, and the counters kept about them. */
module TimelineNodes {
  import opened Common
  import opened Matcher

  /** A timeline_node: the event, its two decisions as they stand, and whether it may be freed. */
  datatype Node = Node(event: Event, find: bool, keep: bool, unneeded: bool)

  type Nodes = map<nat, Node>

  /** struct timeline_stat */
  datatype Stat = Stat(added: int, deleted: int, unneeded: int, pending: int, bytes: int, unneededBytes: int, pendingBytes: int)

  /** timeline_node_cmp */
  predicate Before(a: Event, b: Event) {
    a.time < b.time || (a.time == b.time && (a.key < b.key || (a.key == b.key && a.id < b.id)))
  }

  /** The timeline lists every node once, in order. */
  predicate Indexed(nodes: Nodes, timeline: seq<nat>) {
    && (forall id :: id in nodes ==> nodes[id].event.id == id)
    && (forall k :: 0 <= k < |timeline| ==> timeline[k] in nodes)
    && (forall id :: id in nodes ==> id in timeline)
    && (forall i, j :: 0 <= i < j < |timeline| ==> Before(nodes[timeline[i]].event, nodes[timeline[j]].event))
  }

  /** A node is needed exactly when it is in the queue: backed-up nodes, the one in hand, then pending ones, in time order. */
  predicate Placed(nodes: Nodes, queue: seq<nat>) {
    && NoDup(queue) && (forall k :: 0 <= k < |queue| ==> queue[k] in nodes)
    && (forall id :: id in nodes ==> (nodes[id].unneeded <==> id !in queue))
    && (forall i, j :: 0 <= i < j < |queue| ==> nodes[queue[i]].event.time <= nodes[queue[j]].event.time)
  }

  /** The backup tree holds exactly the nodes of the needed list, each under its key. */
  predicate Backed(nodes: Nodes, needed: seq<nat>, backup: map<nat, nat>) {
    && (forall k :: 0 <= k < |needed| ==>
          needed[k] in nodes && nodes[needed[k]].event.key in backup && backup[nodes[needed[k]].event.key] == needed[k])
    && (forall key :: key in backup ==> backup[key] in needed && backup[key] in nodes && nodes[backup[key]].event.key == key)
  }

  function AbsBackup(nodes: Nodes, backup: map<nat, nat>): map<nat, Event> {
    map key | key in backup && backup[key] in nodes :: nodes[backup[key]].event
  }

  // ---- sums over nodes ---------------------------------------------------------------------------

  /** What a sum adds up: all nodes or the unneeded ones, their number or their bytes. */
  datatype What = What(onlyUnneeded: bool, bytes: bool)

  function Weight(n: Node, w: What): nat {
    if w.onlyUnneeded && !n.unneeded then 0 else if w.bytes then n.event.size else 1
  }

  function Total(nodes: Nodes, ids: seq<nat>, w: What): nat
    requires forall k :: 0 <= k < |ids| ==> ids[k] in nodes
  {
    if ids == [] then 0 else Weight(nodes[ids[0]], w) + Total(nodes, ids[1..], w)
  }

  lemma {:induction false} TotalConcat(nodes: Nodes, a: seq<nat>, b: seq<nat>, w: What)
    requires (forall k :: 0 <= k < |a| ==> a[k] in nodes) && forall k :: 0 <= k < |b| ==> b[k] in nodes
    ensures Total(nodes, a + b, w) == Total(nodes, a, w) + Total(nodes, b, w)
    decreases |a|
  {
    if a == [] {
      assert a + b == b;
    } else {
      TotalConcat(nodes, a[1..], b, w);
      assert (a + b)[1..] == a[1..] + b;
    }
  }

  lemma {:induction false} TotalSame(nodes: Nodes, nodes': Nodes, ids: seq<nat>, w: What)
    requires forall k :: 0 <= k < |ids| ==> ids[k] in nodes && ids[k] in nodes' && Weight(nodes[ids[k]], w) == Weight(nodes'[ids[k]], w)
    ensures Total(nodes, ids, w) == Total(nodes', ids, w)
    decreases |ids|
  {
    if ids != [] {
      TotalSame(nodes, nodes', ids[1..], w);
    }
  }

  /** Replacing one node changes the sum by the difference of its weights. */
  lemma TotalReplace(nodes: Nodes, ids: seq<nat>, id: nat, n: Node, w: What)
    requires NoDup(ids) && id in ids && forall k :: 0 <= k < |ids| ==> ids[k] in nodes
    ensures Total(nodes[id := n], ids, w) == Total(nodes, ids, w) - Weight(nodes[id], w) + Weight(n, w)
  {
    hide Total;
    var i :| 0 <= i < |ids| && ids[i] == id;
    TotalSplit(nodes, ids, i, w);
    TotalSplit(nodes[id := n], ids, i, w);
    TotalSame(nodes, nodes[id := n], ids[..i], w);
    TotalSame(nodes, nodes[id := n], ids[i + 1..], w);
  }

  lemma TotalSplit(nodes: Nodes, ids: seq<nat>, i: nat, w: What)
    requires i < |ids| && forall k :: 0 <= k < |ids| ==> ids[k] in nodes
    ensures Total(nodes, ids, w) == Total(nodes, ids[..i], w) + Weight(nodes[ids[i]], w) + Total(nodes, ids[i + 1..], w)
  {
    hide Total, Weight;
    var a, b := ids[..i], ids[i + 1..];
    assert ids == a + ([ids[i]] + b);
    TotalHead(nodes, ids[i], b, w);
    TotalConcat(nodes, a, [ids[i]] + b, w);
  }

  lemma TotalHead(nodes: Nodes, id: nat, b: seq<nat>, w: What)
    requires id in nodes && forall k :: 0 <= k < |b| ==> b[k] in nodes
    ensures Total(nodes, [id] + b, w) == Weight(nodes[id], w) + Total(nodes, b, w)
  {
    assert ([id] + b)[1..] == b;
  }

  /** Every counter equals the real count. */
  predicate Counted(nodes: Nodes, timeline: seq<nat>, pending: seq<nat>, stat: Stat) {
    && (forall k :: 0 <= k < |timeline| ==> timeline[k] in nodes) && (forall k :: 0 <= k < |pending| ==> pending[k] in nodes)
    && stat.added - stat.deleted == |timeline| && stat.pending == |pending|
    && stat.unneeded == Total(nodes, timeline, What(true, false))
    && stat.unneededBytes == Total(nodes, timeline, What(true, true))
    && stat.bytes == Total(nodes, timeline, What(false, true))
    && stat.pendingBytes == Total(nodes, pending, What(false, true))
  }

  lemma IndexedNoDup(nodes: Nodes, timeline: seq<nat>)
    requires Indexed(nodes, timeline)
    ensures NoDup(timeline)
  {
  }

  // ---- steps --------------------------------------------------------------------------------------

  function Marked(stat: Stat, size: nat): Stat {
    stat.(unneeded := stat.unneeded + 1, unneededBytes := stat.unneededBytes + size)
  }

  /** A node is added, pending if `hold`. */
  function Added(stat: Stat, size: nat, hold: bool): Stat {
    Stat(stat.added + 1, stat.deleted, stat.unneeded + (if hold then 0 else 1), stat.pending + (if hold then 1 else 0),
         stat.bytes + size, stat.unneededBytes + (if hold then 0 else size), stat.pendingBytes + (if hold then size else 0))
  }

  /** Marking a needed node unneeded, and counting it. */
  lemma CountMark(nodes: Nodes, timeline: seq<nat>, pending: seq<nat>, stat: Stat, id: nat, n: Node)
    requires Indexed(nodes, timeline) && Counted(nodes, timeline, pending, stat) && id in nodes
    requires n.event == nodes[id].event && n.unneeded && !nodes[id].unneeded
    ensures Indexed(nodes[id := n], timeline) && Counted(nodes[id := n], timeline, pending, Marked(stat, n.event.size))
  {
    hide Before;
    IndexedNoDup(nodes, timeline);
    TotalReplace(nodes, timeline, id, n, What(true, false));
    TotalReplace(nodes, timeline, id, n, What(true, true));
    TotalReplace(nodes, timeline, id, n, What(false, true));
    TotalSame(nodes, nodes[id := n], pending, What(false, true));
  }

  /** Changing only the decisions of a node. */
  lemma CountDecide(nodes: Nodes, timeline: seq<nat>, pending: seq<nat>, stat: Stat, id: nat, n: Node)
    requires Indexed(nodes, timeline) && Counted(nodes, timeline, pending, stat) && id in nodes
    requires n.event == nodes[id].event && n.unneeded == nodes[id].unneeded
    ensures Indexed(nodes[id := n], timeline) && Counted(nodes[id := n], timeline, pending, stat)
  {
    hide Before, Total;
    TotalSame(nodes, nodes[id := n], timeline, What(true, false));
    TotalSame(nodes, nodes[id := n], timeline, What(true, true));
    TotalSame(nodes, nodes[id := n], timeline, What(false, true));
    TotalSame(nodes, nodes[id := n], pending, What(false, true));
  }

  /** Taking the first pending node in hand. */
  lemma CountTake(nodes: Nodes, timeline: seq<nat>, pending: seq<nat>, stat: Stat)
    requires Counted(nodes, timeline, pending, stat) && pending != []
    ensures Counted(nodes, timeline, pending[1..],
                    stat.(pending := stat.pending - 1, pendingBytes := stat.pendingBytes - nodes[pending[0]].event.size))
  {
  }

  /** A queue with id at its end, if it is to be held. */
  function Queued(queue: seq<nat>, id: nat, hold: bool): seq<nat> { if hold then queue + [id] else queue }

  lemma QueuedBehind(a: seq<nat>, b: seq<nat>, id: nat, hold: bool)
    ensures a + Queued(b, id, hold) == Queued(a + b, id, hold)
  {
    assert a + (b + [id]) == a + b + [id];
  }

  lemma CountAdd(nodes: Nodes, timeline: seq<nat>, pending: seq<nat>, stat: Stat, pos: nat, n: Node, hold: bool)
    requires Counted(nodes, timeline, pending, stat) && pos <= |timeline| && n.event.id !in nodes && hold == !n.unneeded
    ensures var size := n.event.size;
            Counted(nodes[n.event.id := n], timeline[..pos] + [n.event.id] + timeline[pos..],
                    Queued(pending, n.event.id, hold), Added(stat, size, hold))
  {
    var id, nodes' := n.event.id, nodes[n.event.id := n];
    TotalAdd(nodes, timeline, pos, n, What(true, false));
    TotalAdd(nodes, timeline, pos, n, What(true, true));
    TotalAdd(nodes, timeline, pos, n, What(false, true));
    TotalAdd(nodes, pending, |pending|, n, What(false, true));
    assert pending[..|pending|] + [id] + pending[|pending|..] == pending + [id];
    TotalSame(nodes, nodes', pending, What(false, true));
  }

  lemma TotalAdd(nodes: Nodes, ids: seq<nat>, pos: nat, n: Node, w: What)
    requires pos <= |ids| && n.event.id !in nodes && forall k :: 0 <= k < |ids| ==> ids[k] in nodes
    ensures Total(nodes[n.event.id := n], ids[..pos] + [n.event.id] + ids[pos..], w) == Total(nodes, ids, w) + Weight(n, w)
  {
    var nodes', a, b := nodes[n.event.id := n], ids[..pos], ids[pos..];
    assert ids == a + b;
    TotalConcat(nodes, a, b, w);
    assert a + [n.event.id] + b == a + ([n.event.id] + b);
    TotalConcat(nodes', a, [n.event.id] + b, w);
    TotalSame(nodes, nodes', a, w);
    TotalSame(nodes, nodes', b, w);
    assert ([n.event.id] + b)[1..] == b;
  }

  /** Deleting the first node of the timeline. */
  lemma CountDelete(nodes: Nodes, timeline: seq<nat>, pending: seq<nat>, stat: Stat)
    requires Indexed(nodes, timeline) && Counted(nodes, timeline, pending, stat) && timeline != [] && timeline[0] !in pending
    ensures var n := nodes[timeline[0]];
            var size := n.event.size;
            Counted(nodes - {timeline[0]}, timeline[1..], pending,
                    stat.(deleted := stat.deleted + 1, bytes := stat.bytes - size,
                          unneeded := stat.unneeded - (if n.unneeded then 1 else 0),
                          unneededBytes := stat.unneededBytes - (if n.unneeded then size else 0)))
    ensures Indexed(nodes - {timeline[0]}, timeline[1..])
  {
    hide Indexed, Total, Weight;
    IndexedDelete(nodes, timeline);
    var id := timeline[0];
    var nodes', rest := nodes - {id}, timeline[1..];
    TotalFirst(nodes, timeline, What(true, false));
    TotalFirst(nodes, timeline, What(true, true));
    TotalFirst(nodes, timeline, What(false, true));
    WeightOf(nodes[id]);
    TotalSame(nodes, nodes', rest, What(true, false));
    TotalSame(nodes, nodes', rest, What(true, true));
    TotalSame(nodes, nodes', rest, What(false, true));
    TotalSame(nodes, nodes', pending, What(false, true));
  }

  lemma IndexedDelete(nodes: Nodes, timeline: seq<nat>)
    requires Indexed(nodes, timeline) && timeline != []
    ensures timeline[0] in nodes && Indexed(nodes - {timeline[0]}, timeline[1..])
    ensures forall k :: 0 <= k < |timeline[1..]| ==> timeline[1..][k] in nodes - {timeline[0]}
  {
    hide Before;
    IndexedNoDup(nodes, timeline);
    var id := timeline[0];
    var nodes', rest := nodes - {id}, timeline[1..];
    assert forall k :: 0 <= k < |rest| ==> rest[k] == timeline[k + 1];
    assert forall k :: 0 <= k < |rest| ==> rest[k] in nodes';
    forall i | i in nodes'
      ensures i in rest
    {
      var k :| 0 <= k < |timeline| && timeline[k] == i;
      assert rest[k - 1] == i;
    }
  }

  lemma TotalFirst(nodes: Nodes, ids: seq<nat>, w: What)
    requires ids != [] && forall k :: 0 <= k < |ids| ==> ids[k] in nodes
    ensures Total(nodes, ids, w) == Weight(nodes[ids[0]], w) + Total(nodes, ids[1..], w)
  {
  }

  lemma WeightOf(n: Node)
    ensures Weight(n, What(false, true)) == n.event.size
    ensures Weight(n, What(true, false)) == if n.unneeded then 1 else 0
    ensures Weight(n, What(true, true)) == if n.unneeded then n.event.size else 0
  {
  }

  /** Taking a node out of the queue and marking it unneeded. */
  lemma PlacedMark(nodes: Nodes, queue: seq<nat>, i: nat, n: Node)
    requires Placed(nodes, queue) && i < |queue| && n.event == nodes[queue[i]].event && n.unneeded
    ensures Placed(nodes[queue[i] := n], queue[..i] + queue[i + 1..])
  {
    var q := queue[..i] + queue[i + 1..];
    assert forall k :: 0 <= k < |q| ==> q[k] == queue[if k < i then k else k + 1];
    forall id | id in nodes && id != queue[i] && id in queue
      ensures id in q
    {
      var k :| 0 <= k < |queue| && queue[k] == id;
      assert q[if k < i then k else k - 1] == id;
    }
  }

  lemma PlacedDecide(nodes: Nodes, queue: seq<nat>, id: nat, n: Node)
    requires Placed(nodes, queue) && id in nodes && n.event == nodes[id].event && n.unneeded == nodes[id].unneeded
    ensures Placed(nodes[id := n], queue)
  {
  }

  lemma PlacedAdd(nodes: Nodes, queue: seq<nat>, n: Node)
    requires Placed(nodes, queue) && n.event.id !in nodes
    requires forall k :: 0 <= k < |queue| ==> nodes[queue[k]].event.time <= n.event.time
    ensures Placed(nodes[n.event.id := n], if n.unneeded then queue else queue + [n.event.id])
  {
  }

  lemma PlacedDelete(nodes: Nodes, queue: seq<nat>, id: nat)
    requires Placed(nodes, queue) && id in nodes && nodes[id].unneeded
    ensures Placed(nodes - {id}, queue)
  {
  }

  /** The node under a key leaves the backup. */
  lemma BackedRemove(nodes: Nodes, needed: seq<nat>, backup: map<nat, nat>, key: nat, i: nat, n: Node)
    requires Backed(nodes, needed, backup) && NoDup(needed) && key in backup && i < |needed| && needed[i] == backup[key]
    requires n.event == nodes[backup[key]].event
    ensures Backed(nodes[backup[key] := n], needed[..i] + needed[i + 1..], backup - {key})
  {
    hide NoDup;
    var rest := needed[..i] + needed[i + 1..];
    LeftOver(needed, i);
    forall k | 0 <= k < |rest|
      ensures rest[k] in needed && rest[k] != needed[i]
    {
      assert rest[k] in rest;
    }
  }

  /** Dropping one position of a list without repeats. */
  lemma LeftOver(s: seq<nat>, i: nat)
    requires NoDup(s) && i < |s|
    ensures forall x :: x in s[..i] + s[i + 1..] <==> x in s && x != s[i]
  {
    var rest := s[..i] + s[i + 1..];
    assert s == s[..i] + [s[i]] + s[i + 1..];
    forall k | 0 <= k < |rest|
      ensures rest[k] != s[i]
    {
      assert rest[k] == s[if k < i then k else k + 1];
    }
  }

  lemma BackedRemoveAbs(nodes: Nodes, needed: seq<nat>, backup: map<nat, nat>, key: nat, n: Node)
    requires Backed(nodes, needed, backup) && key in backup && n.event == nodes[backup[key]].event
    ensures AbsBackup(nodes[backup[key] := n], backup - {key}) == AbsBackup(nodes, backup) - {key}
  {
  }

  lemma BackedDecide(nodes: Nodes, needed: seq<nat>, backup: map<nat, nat>, id: nat, n: Node)
    requires Backed(nodes, needed, backup) && id in nodes && n.event == nodes[id].event
    ensures Backed(nodes[id := n], needed, backup) && AbsBackup(nodes[id := n], backup) == AbsBackup(nodes, backup)
  {
  }

  lemma BackedNew(nodes: Nodes, needed: seq<nat>, backup: map<nat, nat>, id: nat, n: Node)
    requires Backed(nodes, needed, backup) && id !in nodes
    ensures Backed(nodes[id := n], needed, backup) && AbsBackup(nodes[id := n], backup) == AbsBackup(nodes, backup)
  {
  }

  lemma BackedAdd(nodes: Nodes, needed: seq<nat>, backup: map<nat, nat>, id: nat)
    requires Backed(nodes, needed, backup) && id in nodes && nodes[id].event.key !in backup
    ensures Backed(nodes, needed + [id], backup[nodes[id].event.key := id])
    ensures AbsBackup(nodes, backup[nodes[id].event.key := id]) == AbsBackup(nodes, backup)[nodes[id].event.key := nodes[id].event]
  {
  }

  lemma BackedDelete(nodes: Nodes, needed: seq<nat>, backup: map<nat, nat>, id: nat)
    requires Backed(nodes, needed, backup) && id !in needed
    ensures Backed(nodes - {id}, needed, backup) && AbsBackup(nodes - {id}, backup) == AbsBackup(nodes, backup)
  {
  }

  /** Adding a node at its place in the timeline. */
  lemma IndexedAdd(nodes: Nodes, timeline: seq<nat>, pos: nat, n: Node)
    requires Indexed(nodes, timeline) && pos <= |timeline| && n.event.id !in nodes
    requires forall k :: 0 <= k < pos ==> Before(nodes[timeline[k]].event, n.event)
    requires forall k :: pos <= k < |timeline| ==> Before(n.event, nodes[timeline[k]].event)
    ensures Indexed(nodes[n.event.id := n], timeline[..pos] + [n.event.id] + timeline[pos..])
  {
    hide Before;
    var id := n.event.id;
    var all := timeline[..pos] + [id] + timeline[pos..];
    Spliced(timeline, pos, id);
    forall i, j | 0 <= i < j < |all|
      ensures Before(nodes[id := n][all[i]].event, nodes[id := n][all[j]].event)
    {
      if j < pos {
        assert Before(nodes[timeline[i]].event, nodes[timeline[j]].event);
      } else if i > pos {
        assert Before(nodes[timeline[i - 1]].event, nodes[timeline[j - 1]].event);
      } else if i < pos && j > pos {
        assert Before(nodes[timeline[i]].event, nodes[timeline[j - 1]].event);
      }
    }
  }

  /** One more entry at pos. */
  lemma Spliced(s: seq<nat>, pos: nat, id: nat)
    requires pos <= |s|
    ensures var all := s[..pos] + [id] + s[pos..];
            && |all| == |s| + 1 && (forall k :: 0 <= k < |all| ==> all[k] == if k < pos then s[k] else if k == pos then id else s[k - 1])
            && forall x :: x in all <==> x in s || x == id
  {
    assert s == s[..pos] + s[pos..];
  }

  // ---- what has been freed ------------------------------------------------------------------------

  /** Only the unneeded flags differ. */
  predicate SameEvents(a: Nodes, b: Nodes) {
    a.Keys == b.Keys && forall id :: id in a ==>
      b[id] == a[id].(unneeded := b[id].unneeded) && (a[id].unneeded ==> b[id].unneeded)
  }

  /** The events exist, are numbered below `handled`, not later than now, and those queued are traced. */
  predicate Known(c: Config, nodes: Nodes, queue: seq<nat>, handled: nat, now: nat) {
    && (forall id :: id in nodes ==> id < handled && nodes[id].event.time <= now && GoodEvent(c, nodes[id].event))
    && (forall k :: 0 <= k < |queue| ==> queue[k] in nodes && !nodes[queue[k]].event.untraced)
  }

  /** Every event handled so far is on the timeline or gone. */
  ghost predicate Tracked(nodes: Nodes, gone: map<nat, Event>, handled: nat) {
    forall id :: (id in nodes || id in gone) <==> 0 <= id < handled
  }

  /** What is gone lies at least `before` ahead of everything needed. */
  predicate Window(nodes: Nodes, queue: seq<nat>, gone: map<nat, Event>, before: nat, now: nat) {
    && (forall x :: x in gone ==> gone[x].time + before <= now)
    && (forall x, k :: x in gone && 0 <= k < |queue| && queue[k] in nodes ==>
          gone[x].time + before <= nodes[queue[k]].event.time)
  }

  predicate Within(r: seq<nat>, q: seq<nat>) { forall k :: 0 <= k < |r| ==> r[k] in q }

  lemma Shrink(c: Config, a: Nodes, q: seq<nat>, b: Nodes, r: seq<nat>, gone: map<nat, Event>, before: nat, handled: nat, now: nat)
    requires a.Keys == b.Keys && (forall id :: id in a ==> a[id].event == b[id].event) && Within(r, q)
    ensures Window(a, q, gone, before, now) ==> Window(b, r, gone, before, now)
    ensures Known(c, a, q, handled, now) ==> Known(c, b, r, handled, now)
  {
    if Window(a, q, gone, before, now) {
      forall x, k | x in gone && 0 <= k < |r| && r[k] in b
        ensures gone[x].time + before <= b[r[k]].event.time
      {
        assert r[k] in q;
        var j :| 0 <= j < |q| && q[j] == r[k];
      }
    }
    if Known(c, a, q, handled, now) {
      forall k | 0 <= k < |r|
        ensures r[k] in b && !b[r[k]].event.untraced
      {
        assert r[k] in q;
        var j :| 0 <= j < |q| && q[j] == r[k];
      }
    }
  }

  lemma Grow(c: Config, nodes: Nodes, q: seq<nat>, n: Node, gone: map<nat, Event>, before: nat, handled: nat, now: nat)
    requires Known(c, nodes, q, handled, now) && Window(nodes, q, gone, before, now)
    requires n.event.id == handled && now <= n.event.time && GoodEvent(c, n.event) && (n.event.untraced ==> n.unneeded)
    ensures var q' := if n.unneeded then q else q + [handled];
            Known(c, nodes[handled := n], q', handled + 1, n.event.time) && Window(nodes[handled := n], q', gone, before, n.event.time)
  {
  }

  /** Freeing the first node of the timeline. */
  lemma Free(c: Config, nodes: Nodes, timeline: seq<nat>, q: seq<nat>, gone: map<nat, Event>, before: nat, handled: nat, now: nat)
    requires Indexed(nodes, timeline) && timeline != [] && timeline[0] !in q
    requires Known(c, nodes, q, handled, now) && Tracked(nodes, gone, handled)
    ensures var id := timeline[0];
            Known(c, nodes - {id}, q, handled, now) && Tracked(nodes - {id}, gone[id := nodes[id].event], handled)
    ensures var e := nodes[timeline[0]].event;
            Window(nodes, q, gone, before, now) && e.time + before <= now
            && (forall k :: 0 <= k < |q| ==> e.time + before <= nodes[q[k]].event.time) ==>
              Window(nodes - {timeline[0]}, q, gone[timeline[0] := e], before, now)
  {
  }

  /** The first node of the timeline is the earliest. */
  lemma FirstIsEarliest(nodes: Nodes, timeline: seq<nat>, id: nat)
    requires Indexed(nodes, timeline) && timeline != [] && id in nodes
    ensures nodes[timeline[0]].event.time <= nodes[id].event.time
  {
    var k :| 0 <= k < |timeline| && timeline[k] == id;
  }

  /** From a to b events stay and the queue only loses nodes. */
  predicate Reduced(a: Nodes, q: seq<nat>, b: Nodes, r: seq<nat>) {
    a.Keys == b.Keys && (forall id :: id in a ==> a[id].event == b[id].event) && Within(r, q)
  }

  lemma ReducedTrans(a: Nodes, q: seq<nat>, b: Nodes, r: seq<nat>, d: Nodes, t: seq<nat>)
    requires Reduced(a, q, b, r) && Reduced(b, r, d, t)
    ensures Reduced(a, q, d, t)
  {
    forall k | 0 <= k < |t|
      ensures t[k] in q
    {
      var j :| 0 <= j < |r| && r[j] == t[k];
    }
  }

  lemma ReducedSelf(a: Nodes, q: seq<nat>)
    ensures Reduced(a, q, a, q)
  {
  }

  lemma AbsKeys(nodes: Nodes, needed: seq<nat>, backup: map<nat, nat>)
    requires Backed(nodes, needed, backup)
    ensures AbsBackup(nodes, backup).Keys == backup.Keys
    ensures forall key :: key in backup ==> backup[key] in nodes && AbsBackup(nodes, backup)[key] == nodes[backup[key]].event
  {
  }

  lemma BeforeTrans(a: Event, b: Event, d: Event)
    requires Before(a, b) && Before(b, d)
    ensures Before(a, d)
  {
  }

  /** Where an event numbered after all others goes in the timeline. */
  lemma Position(nodes: Nodes, timeline: seq<nat>, e: Event, pos: nat)
    requires Indexed(nodes, timeline) && pos <= |timeline| && e.id !in nodes
    requires pos < |timeline| ==> !Before(nodes[timeline[pos]].event, e)
    ensures forall k :: pos <= k < |timeline| ==> Before(e, nodes[timeline[k]].event)
  {
    forall k | pos <= k < |timeline|
      ensures Before(e, nodes[timeline[k]].event)
    {
      assert Before(e, nodes[timeline[pos]].event);
      if pos < k {
        BeforeTrans(e, nodes[timeline[pos]].event, nodes[timeline[k]].event);
      }
    }
  }

  /** All events on the timeline are later than b. */
  predicate Later(nodes: Nodes, b: nat) { forall id :: id in nodes ==> nodes[id].event.time > b }

  /** Nothing needed lies before a bound that the first needed node does not precede. */
  lemma BehindBound(nodes: Nodes, queue: seq<nat>, id: nat, bound: nat)
    requires Placed(nodes, queue) && id in nodes && nodes[id].event.time < bound
    requires queue != [] ==> bound <= nodes[queue[0]].event.time
    ensures nodes[id].unneeded
  {
    forall k | 0 <= k < |queue|
      ensures queue[k] != id
    {
      assert nodes[queue[0]].event.time <= nodes[queue[k]].event.time;
    }
  }

  /** The bound lies `before` ahead of everything needed. */
  predicate Ahead(nodes: Nodes, queue: seq<nat>, bound: nat, before: nat, now: nat) {
    bound + before <= now && forall k :: 0 <= k < |queue| && queue[k] in nodes ==> bound + before <= nodes[queue[k]].event.time
  }

  lemma FirstAhead(nodes: Nodes, queue: seq<nat>, t: nat, before: nat, now: nat)
    requires Placed(nodes, queue) && before <= t <= now && (queue != [] ==> t == nodes[queue[0]].event.time)
    ensures Ahead(nodes, queue, t - before, before, now)
  {
  }

  lemma AheadDelete(nodes: Nodes, queue: seq<nat>, bound: nat, before: nat, now: nat, id: nat)
    requires Ahead(nodes, queue, bound, before, now)
    ensures Ahead(nodes - {id}, queue, bound, before, now)
  {
  }

  /** Pending events still stand as their tracepoint and role decided. */
  predicate Undecided(nodes: Nodes, pending: seq<nat>) {
    forall k :: 0 <= k < |pending| ==>
      && pending[k] in nodes && nodes[pending[k]].find == nodes[pending[k]].event.find
      && nodes[pending[k]].keep == nodes[pending[k]].event.keep
  }

  /** Changing flags of one node, or decisions of one that is not pending. */
  lemma UndecidedStays(nodes: Nodes, pending: seq<nat>, id: nat, n: Node)
    requires Undecided(nodes, pending) && id in nodes && n.event == nodes[id].event
    requires id !in pending || n == nodes[id].(unneeded := n.unneeded)
    ensures Undecided(nodes[id := n], pending)
  {
  }

  lemma UndecidedTail(nodes: Nodes, pending: seq<nat>)
    requires Undecided(nodes, pending) && pending != []
    ensures Undecided(nodes, pending[1..])
  {
  }

  lemma UndecidedDelete(nodes: Nodes, pending: seq<nat>, id: nat)
    requires Undecided(nodes, pending) && id !in pending
    ensures Undecided(nodes - {id}, pending)
  {
  }

  lemma UndecidedAdd(nodes: Nodes, pending: seq<nat>, e: Event)
    requires Undecided(nodes, pending) && e.id !in nodes
    ensures Undecided(nodes[e.id := Node(e, e.find, e.keep, e.untraced)], Queued(pending, e.id, !e.untraced))
  {
  }
}
