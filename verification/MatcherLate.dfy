/**
 * Lost ranges registered at any moment, however late: exactly the pairs reported before a range was
 * registered may span it. One list for all instances, samples in time order.
 */
module MatcherLate {
  import opened Matcher

  /** Traced samples arrive in time order. */
  predicate InTime(inputs: seq<Input>) {
    forall j, k :: 0 <= j < k < |inputs| && IsTraced(inputs[j]) && IsTraced(inputs[k]) ==>
      inputs[j].event.time <= inputs[k].event.time
  }

  /** One list, samples in time order; nothing is asked of the ranges. */
  predicate LateGood(c: Config, inputs: seq<Input>) {
    !c.perIns && InTime(inputs) && forall k :: 0 <= k < |inputs| ==> GoodInput(c, inputs[k])
  }

  predicate SomeReclaimed(list: seq<Loss>) { exists k :: 0 <= k < |list| && list[k].reclaimed }

  /** Reclaimed ranges began before now. */
  predicate ReclaimedBy(list: seq<Loss>, now: nat) { forall k :: 0 <= k < |list| && list[k].reclaimed ==> list[k].start < now }

  /** A reclaimed range means an empty backup; pairs end by now. */
  predicate LateSafe(s: State, now: nat) {
    && |s.lost| == 1 && SortedLoss(s.lost[0]) && ReclaimedBy(s.lost[0], now)
    && (SomeReclaimed(s.lost[0]) ==> forall key :: key !in s.backup)
    && (forall pair :: pair in s.pairs ==> pair.1.time <= now)
  }

  /** Pairs other than the earlier ones do not span the range; once it is gone, backed-up events are not older than its end. */
  predicate Guarded(s: State, earlier: seq<(Event, Event)>, now: nat, start: nat, end: nat) {
    && |s.lost| == 1 && (forall p :: p in s.pairs ==> p in earlier || Outside(p, start, end))
    && (Listed(s.lost[0], start, end) || (end <= now && forall key :: key in s.backup ==> s.backup[key].time >= end))
  }

  /** Looking at the ranges: one is left, and lets nothing look across it, or is gone, and then the backup is to be empty. */
  lemma {:induction false} SweepLate(list: seq<Loss>, t: nat, now: nat)
    requires SortedLoss(list) && ReclaimedBy(list, now) && now <= t
    ensures var v := Sweep(list, t);
            && SortedLoss(v.rest) && ReclaimedBy(v.rest, t) && (v.keep ==> v.find)
            && (v.find ==> !SomeReclaimed(v.rest) && forall k :: 0 <= k < |v.rest| ==> t <= v.rest[k].start)
            && (SomeReclaimed(v.rest) ==> v.reclaim || SomeReclaimed(list))
    ensures var v := Sweep(list, t);
            forall start: nat, end: nat :: Listed(list, start, end) ==>
              Listed(v.rest, start, end) || (end <= t && (v.reclaim || SomeReclaimed(list)))
    decreases |list|
  {
    if list == [] || t <= list[0].start {
      NoneReclaimed(list, t, now);
    } else if t < list[0].end {
      var rest := Sweep(list, t).rest;
      assert forall k :: 0 <= k < |list| ==> rest[k].start == list[k].start && rest[k].end == list[k].end;
      assert forall k :: 0 < k < |list| ==> rest[k] == list[k];
      assert !list[0].reclaimed || SomeReclaimed(list);
    } else {
      var rest := list[1..];
      assert forall k :: 0 <= k < |rest| ==> rest[k] == list[k + 1];
      SweepLate(rest, t, now);
      assert !list[0].reclaimed || SomeReclaimed(list);
      assert SomeReclaimed(rest) ==> SomeReclaimed(list);
      forall start: nat, end: nat | Listed(list, start, end)
        ensures Listed(Sweep(list, t).rest, start, end) || (end <= t && (Sweep(list, t).reclaim || SomeReclaimed(list)))
      {
        ListedHead(list, start, end);
      }
    }
  }

  /** No range that begins at t or later is reclaimed. */
  lemma NoneReclaimed(list: seq<Loss>, t: nat, now: nat)
    requires SortedLoss(list) && ReclaimedBy(list, now) && now <= t && (list != [] ==> t <= list[0].start)
    ensures !SomeReclaimed(list)
  {
  }

  /** With one list a loss affects the whole backup. */
  lemma AllReclaimed(c: Config, s: State, e: Event)
    requires !c.perIns && |s.lost| == 1
    ensures var v := Sweep(s.lost[0], e.time);
            && Lose(c, s, e).lost == [v.rest] && Lose(c, s, e).pairs == s.pairs
            && Lose(c, s, e).backup == if v.reclaim then map[] else s.backup
  {
    hide Sweep;
    var v := Sweep(s.lost[0], e.time);
    assert s.lost[0 := v.rest] == [v.rest];
    assert Reclaimed(c, s.backup, 0) == map[];
  }

  lemma HandleLate(c: Config, s: State, e: Event, now: nat)
    requires !c.perIns && LateSafe(s, now) && now <= e.time
    ensures LateSafe(Handle(c, s, e), e.time)
  {
    hide Sweep, SortedLoss, ReclaimedBy, SomeReclaimed;
    SweepLate(s.lost[0], e.time, now);
    AllReclaimed(c, s, e);
  }

  lemma HandleGuarded(c: Config, s: State, e: Event, now: nat, earlier: seq<(Event, Event)>, start: nat, end: nat)
    requires !c.perIns && LateSafe(s, now) && now <= e.time && Guarded(s, earlier, now, start, end)
    ensures Guarded(Handle(c, s, e), earlier, e.time, start, end)
  {
    hide Sweep, SortedLoss, ReclaimedBy, SomeReclaimed;
    var v := Sweep(s.lost[0], e.time);
    SweepLate(s.lost[0], e.time, now);
    AllReclaimed(c, s, e);
    if Listed(v.rest, start, end) && v.find {
      assert e.time <= start;
    }
  }

  lemma RegisterLate(s: State, now: nat, l: Loss)
    requires LateSafe(s, now) && !l.reclaimed
    ensures LateSafe(s.(lost := s.lost[0 := Insert(s.lost[0], l)]), now)
    ensures forall start: nat, end: nat :: Listed(Insert(s.lost[0], l), start, end) <==>
              Listed(s.lost[0], start, end) || (l.start == start && l.end == end)
  {
    InsertSorted(s.lost[0], l);
    forall start: nat, end: nat
      ensures Listed(Insert(s.lost[0], l), start, end) <==> Listed(s.lost[0], start, end) || (l.start == start && l.end == end)
    {
      InsertListed(s.lost[0], l, start, end);
    }
  }

  lemma {:induction false} InsertSorted(list: seq<Loss>, l: Loss)
    requires SortedLoss(list) && !l.reclaimed
    ensures SortedLoss(Insert(list, l))
    ensures forall k :: 0 <= k < |Insert(list, l)| ==> Insert(list, l)[k] in list || Insert(list, l)[k] == l
    decreases |list|
  {
    var r := Insert(list, l);
    if list == [] || list[0].start > l.start {
      assert r[0] == l && r[1..] == list;
      assert forall k :: 0 < k < |r| ==> r[k] == list[k - 1];
    } else {
      var rest := list[1..];
      assert forall k :: 0 <= k < |rest| ==> rest[k] == list[k + 1];
      InsertSorted(rest, l);
      assert r[0] == list[0] && r[1..] == Insert(rest, l);
      assert forall k :: 0 < k < |r| ==> r[k] == Insert(rest, l)[k - 1];
      InsertLater(rest, l, list[0].start);
    }
  }

  // ---- whole runs ---------------------------------------------------------------------------------------

  /** Time of the latest traced sample. */
  function LastTraced(inputs: seq<Input>): nat {
    if inputs == [] then 0
    else if IsTraced(inputs[|inputs| - 1]) then inputs[|inputs| - 1].event.time
    else LastTraced(inputs[..|inputs| - 1])
  }

  lemma {:induction false} LastTracedBy(inputs: seq<Input>, n: nat)
    requires n < |inputs| && InTime(inputs) && IsTraced(inputs[n])
    ensures forall m :: 0 <= m <= n ==> LastTraced(inputs[..m]) <= inputs[n].event.time
  {
    var m := 0;
    while m < n
      invariant 0 <= m <= n && forall k :: 0 <= k <= m ==> LastTraced(inputs[..k]) <= inputs[n].event.time
    {
      assert inputs[..m + 1][..m] == inputs[..m] && inputs[..m + 1][m] == inputs[m];
      m := m + 1;
    }
  }

  /** One step keeps both. */
  lemma StepLate(c: Config, s: State, i: Input, now: nat, earlier: seq<(Event, Event)>, start: nat, end: nat)
    requires !c.perIns && GoodInput(c, i) && LateSafe(s, now) && (IsTraced(i) ==> now <= i.event.time)
    ensures var next := if IsTraced(i) then i.event.time else now;
            && LateSafe(Step(c, s, i), next)
            && (Guarded(s, earlier, now, start, end) ==> Guarded(Step(c, s, i), earlier, next, start, end))
  {
    hide SortedLoss, ReclaimedBy, SomeReclaimed, Handle;
    match i
    case Sample(e) =>
      var s' := s.(handled := s.handled + 1);
      if !e.untraced {
        HandleLate(c, s', Numbered(s, e), now);
        if Guarded(s, earlier, now, start, end) {
          HandleGuarded(c, s', Numbered(s, e), now, earlier, start, end);
        }
      }
    case Lost(_, a, b) => RegisterLate(s, now, Loss(a, b, false));
  }

  lemma {:induction false} RunLate(c: Config, inputs: seq<Input>)
    requires LateGood(c, inputs)
    ensures LateSafe(Run(c, inputs), LastTraced(inputs))
    decreases |inputs|
  {
    if inputs != [] {
      hide LateSafe, Step;
      var n := |inputs| - 1;
      RunLate(c, inputs[..n]);
      Passing(inputs, n);
      StepLate(c, Run(c, inputs[..n]), inputs[n], LastTraced(inputs[..n]), [], 0, 0);
    }
  }

  lemma Passing(inputs: seq<Input>, n: nat)
    requires n < |inputs| && InTime(inputs)
    ensures IsTraced(inputs[n]) ==> LastTraced(inputs[..n]) <= inputs[n].event.time
  {
    if IsTraced(inputs[n]) {
      LastTracedBy(inputs, n);
    }
  }

  /** From its registration on a range is guarded. */
  lemma {:induction false} RunGuarded(c: Config, inputs: seq<Input>, k: nat)
    requires LateGood(c, inputs) && k < |inputs| && inputs[k].Lost?
    ensures Guarded(Run(c, inputs), Run(c, inputs[..k]).pairs, LastTraced(inputs), inputs[k].start, inputs[k].end)
    decreases |inputs|
  {
    hide LateSafe, Step;
    var n := |inputs| - 1;
    RunLate(c, inputs[..n]);
    if k == n {
      Registered(c, Run(c, inputs[..n]), inputs[n], LastTraced(inputs[..n]));
    } else {
      assert inputs[..n][..k] == inputs[..k] && inputs[..n][k] == inputs[k];
      RunGuarded(c, inputs[..n], k);
      Passing(inputs, n);
      StepLate(c, Run(c, inputs[..n]), inputs[n], LastTraced(inputs[..n]), Run(c, inputs[..k]).pairs, inputs[k].start, inputs[k].end);
    }
  }

  lemma Registered(c: Config, s: State, i: Input, now: nat)
    requires !c.perIns && i.Lost? && GoodInput(c, i) && LateSafe(s, now)
    ensures Guarded(Step(c, s, i), s.pairs, now, i.start, i.end)
  {
    RegisterLate(s, now, Loss(i.start, i.end, false));
  }

  lemma {:induction false} PairsGrow(c: Config, inputs: seq<Input>, k: nat)
    requires k <= |inputs| && forall j :: 0 <= j < |inputs| ==> GoodInput(c, inputs[j])
    ensures Run(c, inputs[..k]).pairs <= Run(c, inputs).pairs
    decreases |inputs|
  {
    hide Sweep, Register;
    var n := |inputs| - 1;
    if k <= n {
      assert inputs[..n][..k] == inputs[..k];
      PairsGrow(c, inputs[..n], k);
    } else {
      assert inputs[..k] == inputs;
    }
  }

  /** The pair spans the range. */
  predicate Spans(p: (Event, Event), start: nat, end: nat) { !Outside(p, start, end) }

  /**
   * For ranges registered at any moment: a reported pair spans a range exactly if it spans it and had
   * already been reported when the range was registered.
   */
  lemma LateRanges(c: Config, inputs: seq<Input>, k: nat, p: (Event, Event))
    requires LateGood(c, inputs) && k < |inputs| && inputs[k].Lost?
    ensures p in Run(c, inputs).pairs && Spans(p, inputs[k].start, inputs[k].end) <==>
            p in Run(c, inputs[..k]).pairs && Spans(p, inputs[k].start, inputs[k].end)
  {
    hide Run, LastTraced;
    RunGuarded(c, inputs, k);
    PairsGrow(c, inputs, k);
  }
}
