/**
 * The matcher with a delay: events wait until the time `after_event2` behind them has come. What it
 * reports, and when that is what the matcher without a delay makes of the events whose time has come.
 */
module MatcherDelayed {
  import opened Common
  import opened Matcher
  import opened MatcherDeferred

  const U64 := 0x1_0000_0000_0000_0000

  /** u64: nothing is held back when the deadline would lie before the clock's origin. */
  function Deadline(after2: nat, tail: Option<nat>): int {
    if after2 > 0 && tail.Some? then (tail.value - after2) % U64 else U64 - 1
  }

  /** The matcher's state, and the numbered events that wait. */
  datatype Delay = Delay(s: State, wait: seq<Event>)

  predicate GoodDelay(c: Config, d: Delay) {
    |d.s.lost| == Groups(c) && forall k :: 0 <= k < |d.wait| ==> GoodEvent(c, d.wait[k])
  }

  /** Waiting events are handled in turn as long as the first one's time has come. */
  function Release(c: Config, d: Delay, deadline: int): (r: Delay)
    requires GoodDelay(c, d)
    ensures GoodDelay(c, r)
    decreases |d.wait|
  {
    if d.wait == [] || d.wait[0].time > deadline then d
    else Release(c, Delay(Handle(c, d.s, d.wait[0]), d.wait[1..]), deadline)
  }

  function Arrive(d: Delay, e: Event): Delay {
    Delay(Bumped(d.s), if e.untraced then d.wait else d.wait + [Numbered(d.s, e)])
  }

  function DelayStep(c: Config, after2: nat, d: Delay, i: Input): (r: Delay)
    requires GoodDelay(c, d) && GoodInput(c, i)
    ensures GoodDelay(c, r)
  {
    match i
    case Sample(e) => Release(c, Arrive(d, e), Deadline(after2, Some(e.time)))
    case Lost(_, _, _) => d.(s := Step(c, d.s, i))
  }

  function DelayRun(c: Config, after2: nat, inputs: seq<Input>): (r: Delay)
    requires forall k :: 0 <= k < |inputs| ==> GoodInput(c, inputs[k])
    ensures GoodDelay(c, r)
  {
    if inputs == [] then Delay(Init(c), [])
    else DelayStep(c, after2, DelayRun(c, after2, inputs[..|inputs| - 1]), inputs[|inputs| - 1])
  }

  // ---- the events whose time has come -------------------------------------------------------------------

  /** The first position from j on of an event whose time has not come. */
  function Passed(inputs: seq<Input>, j: nat, deadline: int): (r: nat)
    requires j <= |inputs|
    ensures j <= r <= |inputs|
    ensures forall k :: j <= k < r && IsTraced(inputs[k]) ==> inputs[k].event.time <= deadline
    ensures r < |inputs| ==> IsTraced(inputs[r]) && inputs[r].event.time > deadline
    decreases |inputs| - j
  {
    if j == |inputs| || (IsTraced(inputs[j]) && inputs[j].event.time > deadline) then j else Passed(inputs, j + 1, deadline)
  }

  /** Inputs up to the first event whose time has never come yet. */
  function Due(after2: nat, inputs: seq<Input>): (j: nat)
    ensures j <= |inputs|
  {
    if inputs == [] then 0
    else
      var n := |inputs| - 1;
      var j := Due(after2, inputs[..n]);
      if inputs[n].Sample? then Passed(inputs, j, Deadline(after2, Some(inputs[n].event.time))) else j
  }

  function Mask(i: Input): Input { if i.Sample? then Sample(i.event.(untraced := true)) else i }

  /** Samples from position j on are not traced. */
  function Masked(inputs: seq<Input>, j: nat): (r: seq<Input>)
    ensures |r| == |inputs| && forall k :: 0 <= k < |r| ==> r[k] == if k < j then inputs[k] else Mask(inputs[k])
  {
    seq(|inputs|, k requires 0 <= k < |inputs| => if k < j then inputs[k] else Mask(inputs[k]))
  }

  function Samples(inputs: seq<Input>, n: nat): nat
    requires n <= |inputs|
  {
    if n == 0 then 0 else Samples(inputs, n - 1) + if inputs[n - 1].Sample? then 1 else 0
  }

  /** Traced samples from position j on, numbered. */
  function Waiting(inputs: seq<Input>, j: nat): seq<Event>
    requires j <= |inputs|
    decreases |inputs| - j
  {
    if j == |inputs| then []
    else (if IsTraced(inputs[j]) then [inputs[j].event.(id := Samples(inputs, j))] else []) + Waiting(inputs, j + 1)
  }

  /** Each lost range starts behind all samples that have come before it and that it concerns. */
  predicate RangesAhead(c: Config, inputs: seq<Input>) {
    forall j, k :: 0 <= j < k < |inputs| && IsTraced(inputs[j]) && inputs[k].Lost? ==>
      (Group(c, inputs[j].event.ins) == Group(c, inputs[k].ins) ==> inputs[j].event.time < inputs[k].start)
  }

  // ---- handling an event before or after a range is registered ----------------------------------------------

  lemma {:induction false} SweepInsert(list: seq<Loss>, l: Loss, t: nat)
    requires t < l.start
    ensures Sweep(Insert(list, l), t) == Sweep(list, t).(rest := Insert(Sweep(list, t).rest, l))
    decreases |list|
  {
    if list != [] && list[0].start <= l.start && t > list[0].start {
      if t >= list[0].end {
        SweepInsert(list[1..], l, t);
      }
    }
  }

  lemma {:induction false} SweepAppend(list: seq<Loss>, l: Loss, t: nat)
    requires t < l.start
    ensures Sweep(list + [l], t) == Sweep(list, t).(rest := Sweep(list, t).rest + [l])
    decreases |list|
  {
    if list == [] {
      assert [] + [l] == [l];
    } else {
      assert (list + [l])[1..] == list[1..] + [l];
      if t > list[0].start && t >= list[0].end {
        SweepAppend(list[1..], l, t);
      } else if t > list[0].start {
        assert [list[0].(reclaimed := true)] + (list[1..] + [l]) == [list[0].(reclaimed := true)] + list[1..] + [l];
      }
    }
  }

  /** A range that starts behind the event makes no difference to it. */
  lemma HandleRegister(c: Config, s: State, e: Event, i: Input)
    requires GoodEvent(c, e) && GoodInput(c, i) && i.Lost? && |s.lost| == Groups(c)
    requires Group(c, e.ins) == Group(c, i.ins) ==> e.time < i.start
    ensures |Handle(c, s, e).lost| == Groups(c) && Handle(c, Step(c, s, i), e) == Step(c, Handle(c, s, e), i)
  {
    hide Sweep, Insert;
    var g, h, l := Group(c, e.ins), Group(c, i.ins), Loss(i.start, i.end, false);
    if g == h {
      SweepInsert(s.lost[g], l, e.time);
      SweepAppend(s.lost[g], l, e.time);
    }
    LoseRegister(c, s, e, i);
  }

  lemma LoseRegister(c: Config, s: State, e: Event, i: Input)
    requires GoodEvent(c, e) && GoodInput(c, i) && i.Lost? && |s.lost| == Groups(c)
    requires var g, l := Group(c, e.ins), Loss(i.start, i.end, false);
             g == Group(c, i.ins) ==>
               var v := Sweep(s.lost[g], e.time);
               Sweep(Register(c, s.lost[g], l), e.time) == v.(rest := Register(c, v.rest, l))
    ensures Lose(c, Step(c, s, i), e) == Step(c, Lose(c, s, e), i)
    ensures var g := Group(c, e.ins);
            Sweep(Step(c, s, i).lost[g], e.time).find == Sweep(s.lost[g], e.time).find
            && Sweep(Step(c, s, i).lost[g], e.time).keep == Sweep(s.lost[g], e.time).keep
  {
    hide Sweep, Register, Reclaimed;
    var g, h, l := Group(c, e.ins), Group(c, i.ins), Loss(i.start, i.end, false);
    var v := Sweep(s.lost[g], e.time);
    var a, b := Lose(c, Step(c, s, i), e), Step(c, Lose(c, s, e), i);
    assert a.lost == b.lost;
  }

  // ---- what the delayed matcher makes of its inputs ---------------------------------------------------------

  predicate AllInputs(c: Config, inputs: seq<Input>) { forall k :: 0 <= k < |inputs| ==> GoodInput(c, inputs[k]) }

  lemma MaskedGood(c: Config, inputs: seq<Input>, j: nat)
    requires AllInputs(c, inputs)
    ensures AllInputs(c, Masked(inputs, j))
  {
  }

  lemma {:induction false} HandledIs(c: Config, inputs: seq<Input>, j: nat, m: nat)
    requires AllInputs(c, inputs) && m <= |inputs|
    ensures AllInputs(c, Masked(inputs, j)[..m]) && Run(c, Masked(inputs, j)[..m]).handled == Samples(inputs, m)
    decreases m
  {
    hide Handle;
    MaskedGood(c, inputs, j);
    if m > 0 {
      HandledIs(c, inputs, j, m - 1);
      assert Masked(inputs, j)[..m][..m - 1] == Masked(inputs, j)[..m - 1] && Masked(inputs, j)[..m][m - 1] == Masked(inputs, j)[m - 1];
      StepCount(c, Run(c, Masked(inputs, j)[..m - 1]), Masked(inputs, j)[m - 1]);
    }
  }

  lemma StepCount(c: Config, s: State, i: Input)
    requires |s.lost| == Groups(c) && GoodInput(c, i)
    ensures Step(c, s, i).handled == s.handled + if i.Sample? then 1 else 0
  {
    hide Sweep, Register;
  }

  lemma RunTo(c: Config, inputs: seq<Input>, m: nat)
    requires AllInputs(c, inputs) && 0 < m <= |inputs|
    ensures AllInputs(c, inputs[..m]) && AllInputs(c, inputs[..m - 1])
    ensures Run(c, inputs[..m]) == Step(c, Run(c, inputs[..m - 1]), inputs[m - 1])
  {
    assert inputs[..m][..m - 1] == inputs[..m - 1] && inputs[..m][m - 1] == inputs[m - 1];
  }

  /** Handling one more event, in its place, is handling it last: nothing behind it matters to it. */
  lemma {:induction false} Unmask(c: Config, inputs: seq<Input>, j: nat, m: nat)
    requires AllInputs(c, inputs) && RangesAhead(c, inputs) && j < m <= |inputs| && IsTraced(inputs[j])
    ensures AllInputs(c, Masked(inputs, j)[..m]) && AllInputs(c, Masked(inputs, j + 1)[..m])
    ensures Run(c, Masked(inputs, j + 1)[..m]) ==
            Handle(c, Run(c, Masked(inputs, j)[..m]), inputs[j].event.(id := Samples(inputs, j)))
    decreases m
  {
    hide Handle, Run, Step;
    MaskedGood(c, inputs, j);
    MaskedGood(c, inputs, j + 1);
    var a, b := Masked(inputs, j), Masked(inputs, j + 1);
    RunTo(c, a, m);
    RunTo(c, b, m);
    var f := inputs[j].event.(id := Samples(inputs, j));
    if m == j + 1 {
      assert a[..j] == b[..j];
      HandledIs(c, inputs, j, j);
      UnmaskHere(c, Run(c, a[..j]), inputs[j].event);
    } else {
      Unmask(c, inputs, j, m - 1);
      assert a[m - 1] == b[m - 1] == Mask(inputs[m - 1]);
      UnmaskBehind(c, Run(c, a[..m - 1]), f, Mask(inputs[m - 1]));
    }
  }

  lemma UnmaskHere(c: Config, s: State, e: Event)
    requires GoodEvent(c, e) && !e.untraced && |s.lost| == Groups(c)
    ensures Step(c, s, Sample(e)) == Handle(c, Step(c, s, Mask(Sample(e))), Numbered(s, e))
  {
    hide Handle;
  }

  lemma UnmaskBehind(c: Config, s: State, f: Event, i: Input)
    requires GoodEvent(c, f) && GoodInput(c, i) && |s.lost| == Groups(c) && (i.Sample? ==> i.event.untraced)
    requires i.Lost? && Group(c, f.ins) == Group(c, i.ins) ==> f.time < i.start
    ensures |Handle(c, s, f).lost| == Groups(c) && Step(c, Handle(c, s, f), i) == Handle(c, Step(c, s, i), f)
  {
    hide Handle;
    HandleCount(c, s, f);
    if i.Lost? {
      HandleRegister(c, s, f, i);
    } else {
      HandleBumped(c, s, f);
    }
  }

  lemma HandleCount(c: Config, s: State, e: Event)
    requires Group(c, e.ins) < |s.lost|
    ensures |Handle(c, s, e).lost| == |s.lost|
  {
  }

  /** The numbering does not matter to a numbered event. */
  lemma HandleBumped(c: Config, s: State, e: Event)
    requires Group(c, e.ins) < |s.lost|
    ensures Handle(c, Bumped(s), e) == Bumped(Handle(c, s, e))
  {
    hide Sweep, Reclaimed;
  }

  lemma ReleaseStops(c: Config, d: Delay, deadline: int)
    requires GoodDelay(c, d) && (d.wait == [] || d.wait[0].time > deadline)
    ensures Release(c, d, deadline) == d
  {
  }

  lemma ReleaseTurn(c: Config, d: Delay, deadline: int)
    requires GoodDelay(c, d) && d.wait != [] && d.wait[0].time <= deadline
    ensures var next := Delay(Handle(c, d.s, d.wait[0]), d.wait[1..]);
            GoodDelay(c, next) && Release(c, d, deadline) == Release(c, next, deadline)
  {
    hide Handle;
    HandleCount(c, d.s, d.wait[0]);
  }

  lemma WaitingHead(inputs: seq<Input>, j: nat)
    requires j < |inputs|
    ensures if IsTraced(inputs[j])
            then Waiting(inputs, j) != [] && Waiting(inputs, j)[0] == inputs[j].event.(id := Samples(inputs, j))
                 && Waiting(inputs, j)[1..] == Waiting(inputs, j + 1)
            else Waiting(inputs, j) == Waiting(inputs, j + 1) && Masked(inputs, j) == Masked(inputs, j + 1)
  {
    hide Samples;
  }

  /** Releasing what waits unmasks it. */
  lemma {:induction false} ReleaseIs(c: Config, inputs: seq<Input>, j: nat, deadline: int)
    requires AllInputs(c, inputs) && RangesAhead(c, inputs) && j <= |inputs|
    ensures AllInputs(c, Masked(inputs, j)) && GoodDelay(c, At(c, inputs, j))
    ensures Release(c, At(c, inputs, j), deadline) == At(c, inputs, Passed(inputs, j, deadline))
    decreases |inputs| - j
  {
    hide Handle, Run, Release, Masked, Waiting, Samples;
    AtGood(c, inputs, j);
    if j < |inputs| {
      WaitingHead(inputs, j);
      if !IsTraced(inputs[j]) {
        ReleaseIs(c, inputs, j + 1, deadline);
      } else if inputs[j].event.time <= deadline {
        UnmaskAll(c, inputs, j);
        ReleaseTurn(c, At(c, inputs, j), deadline);
        ReleaseIs(c, inputs, j + 1, deadline);
      } else {
        ReleaseStops(c, At(c, inputs, j), deadline);
      }
    } else {
      NoneWait(inputs);
      ReleaseStops(c, At(c, inputs, j), deadline);
    }
  }

  lemma NoneWait(inputs: seq<Input>)
    ensures Waiting(inputs, |inputs|) == []
  {
  }

  lemma AtGood(c: Config, inputs: seq<Input>, j: nat)
    requires AllInputs(c, inputs) && j <= |inputs|
    ensures AllInputs(c, Masked(inputs, j)) && GoodDelay(c, At(c, inputs, j))
  {
    MaskedGood(c, inputs, j);
    WaitingGood(c, inputs, j);
  }

  lemma UnmaskAll(c: Config, inputs: seq<Input>, j: nat)
    requires AllInputs(c, inputs) && RangesAhead(c, inputs) && j < |inputs| && IsTraced(inputs[j])
    ensures AllInputs(c, Masked(inputs, j)) && AllInputs(c, Masked(inputs, j + 1))
    ensures Group(c, inputs[j].event.ins) < |Run(c, Masked(inputs, j)).lost|
    ensures Run(c, Masked(inputs, j + 1)) == Handle(c, Run(c, Masked(inputs, j)), inputs[j].event.(id := Samples(inputs, j)))
  {
    hide Run, Handle;
    MaskedGood(c, inputs, j);
    MaskedGood(c, inputs, j + 1);
    Unmask(c, inputs, j, |inputs|);
    assert Masked(inputs, j)[..|inputs|] == Masked(inputs, j) && Masked(inputs, j + 1)[..|inputs|] == Masked(inputs, j + 1);
    assert GoodInput(c, inputs[j]);
  }

  /** The matcher without a delay has handled the first j inputs; the traced samples behind them wait. */
  function At(c: Config, inputs: seq<Input>, j: nat): Delay
    requires AllInputs(c, Masked(inputs, j)) && j <= |inputs|
  {
    Delay(Run(c, Masked(inputs, j)), Waiting(inputs, j))
  }

  lemma {:induction false} WaitingGood(c: Config, inputs: seq<Input>, j: nat)
    requires AllInputs(c, inputs) && j <= |inputs|
    ensures forall k :: 0 <= k < |Waiting(inputs, j)| ==> GoodEvent(c, Waiting(inputs, j)[k])
    decreases |inputs| - j
  {
    if j < |inputs| {
      WaitingGood(c, inputs, j + 1);
      assert GoodInput(c, inputs[j]);
    }
  }

  lemma {:induction false} SamplesPrefix(inputs: seq<Input>, i: Input, n: nat)
    requires n <= |inputs|
    ensures Samples(inputs + [i], n) == Samples(inputs, n)
    decreases n
  {
    if n > 0 {
      SamplesPrefix(inputs, i, n - 1);
    }
  }

  lemma {:induction false} WaitingSnoc(inputs: seq<Input>, i: Input, j: nat)
    requires j <= |inputs|
    ensures Waiting(inputs + [i], j) ==
            Waiting(inputs, j) + if IsTraced(i) then [i.event.(id := Samples(inputs, |inputs|))] else []
    decreases |inputs| - j
  {
    var all := inputs + [i];
    SamplesPrefix(inputs, i, j);
    if j < |inputs| {
      WaitingSnoc(inputs, i, j + 1);
      assert all[j] == inputs[j];
    } else {
      assert all[j] == i && Waiting(all, j + 1) == [];
    }
  }

  /**
   * Whatever the delay: the delayed matcher has reported the pairs, and keeps the backup, of the matcher
   * without a delay on the inputs up to the first event whose time has not come; events behind it wait.
   */
  lemma {:induction false} DelayedIs(c: Config, after2: nat, inputs: seq<Input>)
    requires AllInputs(c, inputs) && RangesAhead(c, inputs)
    ensures AllInputs(c, Masked(inputs, Due(after2, inputs)))
    ensures DelayRun(c, after2, inputs) == At(c, inputs, Due(after2, inputs))
    decreases |inputs|
  {
    MaskedGood(c, inputs, Due(after2, inputs));
    if inputs == [] {
      assert Masked(inputs, 0) == [];
    } else {
      hide Run, Release, Step;
      var n := |inputs| - 1;
      var before, i := inputs[..n], inputs[n];
      var j := Due(after2, before);
      assert inputs == before + [i];
      DelayedIs(c, after2, before);
      WaitingSnoc(before, i, j);
      MaskedSnoc(c, before, i, j);
      if i.Sample? {
        assert Arrive(At(c, before, j), i.event) == At(c, inputs, j);
        ReleaseIs(c, inputs, j, Deadline(after2, Some(i.event.time)));
      }
    }
  }

  lemma MaskedSnoc(c: Config, inputs: seq<Input>, i: Input, j: nat)
    requires AllInputs(c, inputs) && GoodInput(c, i) && j <= |inputs|
    ensures AllInputs(c, Masked(inputs, j)) && AllInputs(c, Masked(inputs + [i], j))
    ensures Run(c, Masked(inputs + [i], j)) == Step(c, Run(c, Masked(inputs, j)), Mask(i))
    ensures Run(c, Masked(inputs, j)).handled == Samples(inputs, |inputs|)
    ensures i.Sample? ==> Step(c, Run(c, Masked(inputs, j)), Mask(i)) == Bumped(Run(c, Masked(inputs, j)))
  {
    hide Handle;
    var n := |inputs|;
    MaskedGood(c, inputs, j);
    MaskedGood(c, inputs + [i], j);
    assert Masked(inputs + [i], j)[..n] == Masked(inputs, j) && Masked(inputs + [i], j)[n] == Mask(i);
    HandledIs(c, inputs, j, n);
    assert Masked(inputs, j)[..n] == Masked(inputs, j);
  }

  /** Samples in time order, none before the clock has run for the delay, all within 64 bits. */
  predicate Clocked(after2: nat, inputs: seq<Input>) {
    && (forall k :: 0 <= k < |inputs| && inputs[k].Sample? ==> after2 <= inputs[k].event.time < U64)
    && (forall j, k :: 0 <= j < k < |inputs| && inputs[j].Sample? && inputs[k].Sample? ==> inputs[j].event.time <= inputs[k].event.time)
  }

  /** Time of the last sample. */
  function LastSample(inputs: seq<Input>): nat {
    if inputs == [] then 0
    else if inputs[|inputs| - 1].Sample? then inputs[|inputs| - 1].event.time
    else LastSample(inputs[..|inputs| - 1])
  }

  lemma {:induction false} LastSampleBy(inputs: seq<Input>, t: nat)
    requires forall k :: 0 <= k < |inputs| && inputs[k].Sample? ==> inputs[k].event.time <= t
    ensures LastSample(inputs) <= t
    decreases |inputs|
  {
    if inputs != [] {
      LastSampleBy(inputs[..|inputs| - 1], t);
    }
  }

  /** Then the time of a traced sample has come exactly if the last sample is the delay or more behind it. */
  lemma {:induction false} DueIs(after2: nat, inputs: seq<Input>)
    requires Clocked(after2, inputs) && after2 > 0
    ensures forall k :: 0 <= k < |inputs| && IsTraced(inputs[k]) ==>
              (k < Due(after2, inputs) <==> inputs[k].event.time + after2 <= LastSample(inputs))
    decreases |inputs|
  {
    hide Due, LastSample;
    if inputs != [] {
      var n := |inputs| - 1;
      var before := inputs[..n];
      assert forall k :: 0 <= k < n ==> before[k] == inputs[k];
      DueIs(after2, before);
      DueLast(after2, inputs);
      if inputs[n].Sample? {
        var t := inputs[n].event.time;
        LastSampleBy(before, t);
        var j := Due(after2, before);
        var r := Passed(inputs, j, t - after2);
        forall k | 0 <= k < |inputs| && IsTraced(inputs[k])
          ensures k < r <==> inputs[k].event.time + after2 <= t
        {
          assert k < j ==> before[k] == inputs[k];
        }
      }
    }
  }

  lemma DueLast(after2: nat, inputs: seq<Input>)
    requires Clocked(after2, inputs) && after2 > 0 && inputs != []
    ensures var n := |inputs| - 1;
            var j := Due(after2, inputs[..n]);
            if inputs[n].Sample? then
              LastSample(inputs) == inputs[n].event.time && Due(after2, inputs) == Passed(inputs, j, inputs[n].event.time - after2)
            else LastSample(inputs) == LastSample(inputs[..n]) && Due(after2, inputs) == j
  {
    hide Passed;
  }

  /** So after a delay exactly those pairs have been reported that lie `after_event2` or more behind the last sample. */
  lemma DelayedPairs(c: Config, after2: nat, inputs: seq<Input>, j: nat)
    requires AllInputs(c, inputs) && RangesAhead(c, inputs) && Clocked(after2, inputs) && after2 > 0 && j <= |inputs|
    requires forall k :: 0 <= k < |inputs| && IsTraced(inputs[k]) ==> (k < j <==> inputs[k].event.time + after2 <= LastSample(inputs))
    ensures AllInputs(c, Masked(inputs, j)) && DelayRun(c, after2, inputs).s.pairs == Run(c, Masked(inputs, j)).pairs
  {
    hide Run, DelayRun;
    DelayedIs(c, after2, inputs);
    DueIs(after2, inputs);
    assert Masked(inputs, j) == Masked(inputs, Due(after2, inputs));
  }
}
