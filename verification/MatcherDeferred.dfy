/**
 * Lost ranges looked at late: with a timeline, events that nothing waits for are skipped without
 * looking at the lost ranges. Two matchers that differ only in that stay in agreement.
 */
module MatcherDeferred {
  import opened Matcher

  /** The list as events up to t would leave it if none were in the way: ranges behind t dropped, started ones reclaimed. */
  function Norm(list: seq<Loss>, t: nat): seq<Loss> {
    if list == [] then []
    else if list[0].start < t && list[0].end <= t then Norm(list[1..], t)
    else [list[0].(reclaimed := list[0].reclaimed || list[0].start < t)] + Norm(list[1..], t)
  }

  lemma {:induction false} NormTwice(list: seq<Loss>, t: nat, u: nat)
    requires t <= u
    ensures Norm(Norm(list, t), u) == Norm(list, u)
    decreases |list|
  {
    if list != [] {
      NormTwice(list[1..], t, u);
      var head := list[0].(reclaimed := list[0].reclaimed || list[0].start < t);
      if !(list[0].start < t && list[0].end <= t) {
        assert ([head] + Norm(list[1..], t))[1..] == Norm(list[1..], t);
      }
    }
  }

  /** Ranges that have not started are left alone. */
  lemma {:induction false} NormAhead(list: seq<Loss>, t: nat)
    requires forall k :: 0 <= k < |list| ==> t <= list[k].start
    ensures Norm(list, t) == list
    decreases |list|
  {
    if list != [] {
      NormAhead(list[1..], t);
    }
  }

  /** The verdict on an event depends only on Norm, and an event that is not blocked leaves exactly Norm. */
  lemma {:induction false} SweepNorm(list: seq<Loss>, t: nat)
    requires SortedLoss(list)
    ensures var v, n := Sweep(list, t), Norm(list, t);
            && SortedLoss(v.rest) && Norm(v.rest, t) == n
            && (v.find <==> n == [] || n[0].start >= t)
            && (v.keep <==> n == [] || n[0].start > t)
            && (v.find ==> v.rest == n)
    decreases |list|
  {
    if list == [] {
    } else if t <= list[0].start {
      NormAhead(list, t);
    } else if t < list[0].end {
      var rest := Sweep(list, t).rest;
      assert rest[1..] == list[1..];
      assert forall k :: 0 <= k < |list| ==> rest[k].start == list[k].start;
    } else {
      SweepNorm(list[1..], t);
    }
  }

  lemma {:induction false} NormStarts(list: seq<Loss>, t: nat, bound: nat)
    requires forall k :: 0 <= k < |list| ==> bound <= list[k].start
    ensures forall k :: 0 <= k < |Norm(list, t)| ==> bound <= Norm(list, t)[k].start
    decreases |list|
  {
    if list != [] {
      NormStarts(list[1..], t, bound);
    }
  }

  /** Registering a range commutes with Norm. */
  lemma {:induction false} NormInsert(list: seq<Loss>, l: Loss, t: nat)
    requires SortedLoss(list) && !l.reclaimed
    ensures Norm(Insert(list, l), t) ==
            if l.start < t && l.end <= t then Norm(list, t) else Insert(Norm(list, t), l.(reclaimed := l.start < t))
    decreases |list|
  {
    var r := Insert(list, l);
    if list == [] || list[0].start > l.start {
      assert r[1..] == list;
      if list != [] {
        NormStarts(list, t, list[0].start);
      }
    } else {
      NormInsert(list[1..], l, t);
      assert r[0] == list[0] && r[1..] == Insert(list[1..], l);
      var n := Norm(list, t);
      if !(list[0].start < t && list[0].end <= t) {
        assert n[1..] == Norm(list[1..], t) && n[0].start == list[0].start;
      }
    }
  }

  /** Lists a and b lead to the same verdicts: they are equal, or nothing affected is backed up and they have the same Norm. */
  predicate Agree(c: Config, a: seq<Loss>, b: seq<Loss>, backup: map<nat, Event>, g: nat, now: nat) {
    SortedLoss(a) && SortedLoss(b) && (a == b || (Clear(c, backup, g) && Norm(a, now) == Norm(b, now)))
  }

  /** Matchers s and l have reported the same pairs and will go on doing so. */
  predicate Similar(c: Config, s: State, l: State, now: nat) {
    && |s.lost| == |l.lost| == Groups(c)
    && s.backup == l.backup && s.pairs == l.pairs && s.handled == l.handled
    && (forall g :: 0 <= g < Groups(c) ==> Agree(c, s.lost[g], l.lost[g], l.backup, g, now))
  }

  lemma AgreeLater(c: Config, a: seq<Loss>, b: seq<Loss>, backup: map<nat, Event>, g: nat, now: nat, t: nat)
    requires Agree(c, a, b, backup, g, now) && now <= t
    ensures Agree(c, a, b, backup, g, t) && (a == b || Norm(a, t) == Norm(b, t))
  {
    NormTwice(a, now, t);
    NormTwice(b, now, t);
  }

  /** A skipped event: l looks at its lost ranges, s does not. */
  lemma AgreeSkip(c: Config, a: seq<Loss>, b: seq<Loss>, backup: map<nat, Event>, g: nat, now: nat, t: nat)
    requires Agree(c, a, b, backup, g, now) && now <= t && Clear(c, backup, g)
    ensures Agree(c, a, Sweep(b, t).rest, backup, g, t)
  {
    AgreeLater(c, a, b, backup, g, now, t);
    SweepNorm(b, t);
  }

  lemma ClearReclaims(c: Config, backup: map<nat, Event>, g: nat)
    requires Clear(c, backup, g)
    ensures Reclaimed(c, backup, g) == backup
  {
  }

  /** An event both look at: same verdict, and they stay in agreement. */
  lemma AgreeSweep(c: Config, a: seq<Loss>, b: seq<Loss>, backup: map<nat, Event>, g: nat, now: nat, t: nat)
    requires Agree(c, a, b, backup, g, now) && now <= t
    ensures var v, w := Sweep(a, t), Sweep(b, t);
            && SortedLoss(v.rest) && SortedLoss(w.rest) && v.find == w.find && v.keep == w.keep
            && (v.rest == w.rest || (!v.find && !v.keep && Clear(c, backup, g) && Norm(v.rest, t) == Norm(w.rest, t)))
            && (v.reclaim == w.reclaim || Clear(c, backup, g))
  {
    AgreeLater(c, a, b, backup, g, now, t);
    SweepNorm(a, t);
    SweepNorm(b, t);
  }

  lemma SimilarHandle(c: Config, s: State, l: State, now: nat, e: Event)
    requires GoodConfig(c) && GoodEvent(c, e) && !e.untraced && Similar(c, s, l, now) && now <= e.time
    ensures Similar(c, Handle(c, s, e), Handle(c, l, e), e.time)
  {
    hide Sweep, Norm, SortedLoss;
    var g := Group(c, e.ins);
    AgreeSweep(c, s.lost[g], l.lost[g], l.backup, g, now, e.time);
    if Clear(c, l.backup, g) {
      ClearReclaims(c, l.backup, g);
    }
    var s', l' := Handle(c, s, e), Handle(c, l, e);
    forall h | 0 <= h < Groups(c)
      ensures Agree(c, s'.lost[h], l'.lost[h], l'.backup, h, e.time)
    {
      AgreeLater(c, s.lost[h], l.lost[h], l.backup, h, now, e.time);
      if h != g {
        assert l'.backup.Keys <= l.backup.Keys + {e.key};
      }
    }
  }

  lemma SimilarSkip(c: Config, s: State, l: State, now: nat, e: Event)
    requires GoodEvent(c, e) && !e.untraced && !e.keep && Similar(c, s, l, now) && now <= e.time && l.backup == map[]
    ensures Similar(c, s, Handle(c, l, e), e.time)
  {
    hide Sweep, Norm, SortedLoss;
    var g := Group(c, e.ins);
    ClearReclaims(c, l.backup, g);
    AgreeSkip(c, s.lost[g], l.lost[g], l.backup, g, now, e.time);
    forall h | 0 <= h < Groups(c)
      ensures Agree(c, s.lost[h], Handle(c, l, e).lost[h], l.backup, h, e.time)
    {
      AgreeLater(c, s.lost[h], l.lost[h], l.backup, h, now, e.time);
    }
  }

  lemma SimilarLater(c: Config, s: State, l: State, now: nat, t: nat)
    requires Similar(c, s, l, now) && now <= t
    ensures Similar(c, s, l, t)
  {
    forall h | 0 <= h < Groups(c)
      ensures Agree(c, s.lost[h], l.lost[h], l.backup, h, t)
    {
      AgreeLater(c, s.lost[h], l.lost[h], l.backup, h, now, t);
    }
  }

  lemma {:induction false} InsertSorted(list: seq<Loss>, l: Loss)
    requires SortedLoss(list)
    ensures SortedLoss(Insert(list, l))
    decreases |list|
  {
    var r := Insert(list, l);
    if list == [] || list[0].start > l.start {
      assert forall k :: 0 <= k < |list| ==> r[k + 1] == list[k];
    } else {
      InsertSorted(list[1..], l);
      InsertLater(list[1..], l, list[0].start);
      assert forall k :: 0 < k < |r| ==> r[k] == Insert(list[1..], l)[k - 1];
    }
  }

  lemma SimilarLost(c: Config, s: State, l: State, now: nat, i: Input)
    requires GoodInput(c, i) && i.Lost? && Similar(c, s, l, now)
    requires c.perIns ==> StartsBy(s.lost[i.ins], i.start) && StartsBy(l.lost[i.ins], i.start)
    ensures Similar(c, Step(c, s, i), Step(c, l, i), now)
  {
    hide Norm, SortedLoss, Insert;
    var g := Group(c, i.ins);
    var r := Loss(i.start, i.end, false);
    if c.perIns {
      AppendIsInsert(s.lost[g], r);
      AppendIsInsert(l.lost[g], r);
    }
    InsertSorted(s.lost[g], r);
    InsertSorted(l.lost[g], r);
    NormInsert(s.lost[g], r, now);
    NormInsert(l.lost[g], r, now);
    assert Agree(c, s.lost[g], l.lost[g], l.backup, g, now);
  }

  // ---- whole runs ---------------------------------------------------------------------------------

  predicate GoodInputs(c: Config, inputs: seq<Input>) {
    GoodConfig(c) && forall k :: 0 <= k < |inputs| ==> GoodInput(c, inputs[k])
  }

  predicate AllStartBy(c: Config, lost: seq<seq<Loss>>, inputs: seq<Input>) {
    |lost| == Groups(c) && forall g :: 0 <= g < Groups(c) ==> StartsBy(lost[g], Latest(c, inputs, g))
  }

  /** State s agrees with what the matcher without a timeline has made of the inputs. */
  predicate Follows(c: Config, s: State, inputs: seq<Input>, now: nat)
    requires GoodInputs(c, inputs)
  {
    Similar(c, s, Run(c, inputs), now) && AllStartBy(c, s.lost, inputs) && AllStartBy(c, Run(c, inputs).lost, inputs)
  }

  lemma RunSnoc(c: Config, inputs: seq<Input>, i: Input)
    requires GoodInputs(c, inputs) && GoodInput(c, i)
    ensures GoodInputs(c, inputs + [i]) && Run(c, inputs + [i]) == Step(c, Run(c, inputs), i)
  {
    assert (inputs + [i])[..|inputs|] == inputs;
  }

  lemma HandleStartBy(c: Config, s: State, e: Event, inputs: seq<Input>, i: Input)
    requires GoodEvent(c, e) && AllStartBy(c, s.lost, inputs) && i.Sample?
    ensures AllStartBy(c, Handle(c, s, e).lost, inputs + [i]) && AllStartBy(c, s.lost, inputs + [i])
  {
    hide Handle, Latest, StartsBy;
    HandleLists(c, s, e);
    forall g | 0 <= g < Groups(c)
      ensures StartsBy(Handle(c, s, e).lost[g], Latest(c, inputs + [i], g)) && StartsBy(s.lost[g], Latest(c, inputs + [i], g))
    {
      KeepsStarts(c, s, e, g, Latest(c, inputs, g));
      Snoc(c, inputs, i, g);
    }
  }

  lemma HandleLists(c: Config, s: State, e: Event)
    requires Group(c, e.ins) < |s.lost|
    ensures |Handle(c, s, e).lost| == |s.lost|
  {
  }

  /** A state one event further in its numbering. */
  function Bumped(s: State): State { s.(handled := s.handled + 1) }

  lemma FollowsHandled(c: Config, s: State, inputs: seq<Input>, now: nat, e: Event)
    requires GoodInputs(c, inputs) && Follows(c, s, inputs, now) && GoodEvent(c, e) && !e.untraced && now <= e.time
    ensures GoodInputs(c, inputs + [Sample(e)])
    ensures Follows(c, Handle(c, Bumped(s), Numbered(s, e)), inputs + [Sample(e)], e.time)
  {
    hide Handle, Latest, AllStartBy, Similar;
    RunSnoc(c, inputs, Sample(e));
    var l, n := Run(c, inputs), Numbered(s, e);
    SimilarBumped(c, s, l, now);
    SimilarHandle(c, Bumped(s), Bumped(l), now, n);
    HandleStartBy(c, Bumped(s), n, inputs, Sample(e));
    HandleStartBy(c, Bumped(l), n, inputs, Sample(e));
  }

  lemma SimilarBumped(c: Config, s: State, l: State, now: nat)
    requires Similar(c, s, l, now)
    ensures Similar(c, Bumped(s), Bumped(l), now)
  {
  }

  lemma FollowsSkipped(c: Config, s: State, inputs: seq<Input>, now: nat, e: Event)
    requires GoodInputs(c, inputs) && Follows(c, s, inputs, now) && GoodEvent(c, e) && now <= e.time
    requires e.untraced || (!e.keep && s.backup == map[])
    ensures GoodInputs(c, inputs + [Sample(e)]) && Follows(c, Bumped(s), inputs + [Sample(e)], e.time)
  {
    hide Handle, Latest, AllStartBy, Similar;
    RunSnoc(c, inputs, Sample(e));
    var l, n := Run(c, inputs), Numbered(s, e);
    SimilarBumped(c, s, l, now);
    HandleStartBy(c, Bumped(s), n, inputs, Sample(e));
    HandleStartBy(c, Bumped(l), n, inputs, Sample(e));
    if e.untraced {
      SimilarLater(c, Bumped(s), Bumped(l), now, e.time);
    } else {
      SimilarSkip(c, Bumped(s), Bumped(l), now, n);
    }
  }

  lemma FollowsLost(c: Config, s: State, inputs: seq<Input>, now: nat, i: Input)
    requires GoodInputs(c, inputs) && Follows(c, s, inputs, now) && GoodInput(c, i) && i.Lost?
    requires c.perIns ==> Latest(c, inputs, i.ins) <= i.start
    ensures GoodInputs(c, inputs + [i]) && Follows(c, Step(c, s, i), inputs + [i], now)
  {
    hide Latest, Insert;
    RunSnoc(c, inputs, i);
    var l := Run(c, inputs);
    SimilarLost(c, s, l, now, i);
    StepStartBy(c, s, i, inputs);
    StepStartBy(c, l, i, inputs);
  }

  lemma StepStartBy(c: Config, s: State, i: Input, inputs: seq<Input>)
    requires GoodInputs(c, inputs) && GoodInput(c, i) && i.Lost? && AllStartBy(c, s.lost, inputs)
    requires c.perIns ==> Latest(c, inputs, i.ins) <= i.start
    ensures AllStartBy(c, Step(c, s, i).lost, inputs + [i])
  {
    hide Latest, Insert, StartsBy;
    var g, r := Group(c, i.ins), Loss(i.start, i.end, false);
    forall h | 0 <= h < Groups(c)
      ensures StartsBy(Step(c, s, i).lost[h], Latest(c, inputs + [i], h))
    {
      Snoc(c, inputs, i, h);
      StartsByMore(s.lost[h], Latest(c, inputs, h), Latest(c, inputs + [i], h));
      if h == g {
        if c.perIns {
          AppendIsInsert(s.lost[g], r) by { StartsByMore(s.lost[g], Latest(c, inputs, g), i.start); StartsByAll(s.lost[g], i.start); }
        }
        InsertStartsBy(s.lost[g], r, Latest(c, inputs + [i], g));
      }
    }
  }

  lemma StartsByMore(list: seq<Loss>, a: nat, b: nat)
    requires StartsBy(list, a) && a <= b
    ensures StartsBy(list, b)
  {
  }

  lemma StartsByAll(list: seq<Loss>, a: nat)
    requires StartsBy(list, a)
    ensures forall k :: 0 <= k < |list| ==> list[k].start <= a
  {
  }
}
