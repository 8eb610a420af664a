/** The merge feeding the matcher: what order_process delivers and reports is what the matcher's guarantees ask for. */
module Pipeline {
  import Order
  import Log = OrderLog
  import opened Matcher
  import opened MatcherLate

  function Clip(t: int): nat { if t < 0 then 0 else t }

  /**
   * What a log entry of the merge is to the matcher. `pick` gives the event of a record; records that are
   * not samples, and the ends of what is visible of a ring, are no concern of the matcher.
   */
  function InputOf(e: Log.Event, pick: (nat, nat) -> Event): Input {
    match e
    case Delivered(ring, index, time) => Sample(pick(ring, index).(time := Clip(time)))
    case LossInLoop(ring, start, end, _) => Lost(ring, Clip(start), Clip(end))
    case LossAtInit(ring, start, end, _, _) => Lost(ring, Clip(start), Clip(end))
    case Passed(ring, index) => Sample(pick(ring, index).(untraced := true))
    case Swallowed(ring, index) => Sample(pick(ring, index).(untraced := true))
    case Emptied(ring) => Sample(pick(ring, 0).(untraced := true))
  }

  function Inputs(log: seq<Log.Event>, pick: (nat, nat) -> Event): (inputs: seq<Input>)
    ensures |inputs| == |log| && forall k :: 0 <= k < |log| ==> inputs[k] == InputOf(log[k], pick)
  {
    seq(|log|, k requires 0 <= k < |log| => InputOf(log[k], pick))
  }

  /** Ranges are kept per instance, and each ring is an instance of its own. */
  predicate OwnLists(c: Config, log: seq<Log.Event>, pick: (nat, nat) -> Event) {
    c.perIns && forall k :: 0 <= k < |log| && log[k].Delivered? ==> pick(log[k].ring, log[k].index).ins == log[k].ring
  }

  /** The check of perf_mmap_event_init: no loss found at init starts before the popped time. */
  predicate NoEarlyLoss(log: seq<Log.Event>) {
    forall k :: 0 <= k < |log| && log[k].LossAtInit? ==> log[k].lossStart >= log[k].popped
  }

  /** Samples and loss reports leave the merge in an order in which no report comes too late. */
  lemma MergedIsTimely(c: Config, log: seq<Log.Event>, p: int, pick: (nat, nat) -> Event)
    requires Log.GoodLog(log, p)
    requires OwnLists(c, log, pick) || NoEarlyLoss(log)
    ensures Timely(c, Inputs(log, pick))
  {
    var inputs := Inputs(log, pick);
    forall g, j, k | 0 <= g < Groups(c) && 0 <= j < k < |inputs|
      ensures Concerns(c, inputs[j], g) && Concerns(c, inputs[k], g) ==> inputs[j].event.time <= inputs[k].event.time
      ensures Concerns(c, inputs[j], g) && LostIn(c, inputs[k], g) ==> inputs[j].event.time <= inputs[k].start
      ensures c.perIns && LostIn(c, inputs[j], g) && LostIn(c, inputs[k], g) ==> inputs[j].start <= inputs[k].start
    {
      assert inputs[j] == InputOf(log[j], pick) && inputs[k] == InputOf(log[k], pick);
      if Log.Stamped(log[j]) && log[k].LossAtInit? {
        assert log[..k][j] == log[j];
        assert Log.RingBy(log[..k], log[k].ring, log[k].lossStart);
      }
    }
  }

  /** So no pair found in the merged stream spans a loss reported by the merge. */
  lemma MergedPairsSafe(c: Config, log: seq<Log.Event>, p: int, pick: (nat, nat) -> Event, k: nat, pair: (Event, Event))
    requires GoodConfig(c) && Log.GoodLog(log, p) && (OwnLists(c, log, pick) || NoEarlyLoss(log))
    requires forall i :: 0 <= i < |log| ==> GoodInput(c, Inputs(log, pick)[i])
    requires k < |log| && (log[k].LossInLoop? || log[k].LossAtInit?) && pair in Run(c, Inputs(log, pick)).pairs
    requires Affects(c, Group(c, log[k].ring), pair.1.key)
    ensures pair.1.time <= Clip(log[k].lossStart) || pair.0.time >= Clip(log[k].lossEnd)
  {
    hide Run;
    MergedIsTimely(c, log, p, pick);
    LossSafety(c, Inputs(log, pick), k, pair);
  }

  // ---- exactly which losses are spanned ----------------------------------------------------------------

  predicate IsLoss(e: Log.Event) { e.LossInLoop? || e.LossAtInit? }

  /** A pair that entry k, a loss, concerns and that spans it. */
  predicate SpansLoss(c: Config, e: Log.Event, pair: (Event, Event))
    requires IsLoss(e)
  {
    Affects(c, Group(c, e.ring), pair.1.key) && Spans(pair, Clip(e.lossStart), Clip(e.lossEnd))
  }

  /** The matcher's inputs exist; if ranges are kept per instance, each ring is one. */
  predicate Fits(c: Config, log: seq<Log.Event>, pick: (nat, nat) -> Event) {
    && GoodConfig(c) && (forall i :: 0 <= i < |log| ==> GoodInput(c, Inputs(log, pick)[i]))
    && (c.perIns ==> OwnLists(c, log, pick))
  }

  lemma MergedInTime(c: Config, log: seq<Log.Event>, p: int, pick: (nat, nat) -> Event)
    requires Log.GoodLog(log, p) && Fits(c, log, pick) && !c.perIns
    ensures LateGood(c, Inputs(log, pick))
  {
    var inputs := Inputs(log, pick);
    forall j, k | 0 <= j < k < |inputs| && IsTraced(inputs[j]) && IsTraced(inputs[k])
      ensures inputs[j].event.time <= inputs[k].event.time
    {
      assert inputs[j] == InputOf(log[j], pick) && inputs[k] == InputOf(log[k], pick);
    }
  }

  /**
   * Exactly: a pair of the merged stream spans a reported loss if and only if it spans it and had been
   * reported before the loss was.
   */
  lemma MergedPairsExactly(c: Config, log: seq<Log.Event>, p: int, pick: (nat, nat) -> Event, k: nat, pair: (Event, Event))
    requires Log.GoodLog(log, p) && Fits(c, log, pick) && k < |log| && IsLoss(log[k])
    ensures pair in Run(c, Inputs(log, pick)).pairs && SpansLoss(c, log[k], pair) <==>
            pair in Run(c, Inputs(log, pick)[..k]).pairs && SpansLoss(c, log[k], pair)
  {
    hide Run;
    var inputs := Inputs(log, pick);
    assert inputs[k] == InputOf(log[k], pick);
    PairsGrow(c, inputs, k);
    if c.perIns {
      if pair in Run(c, inputs).pairs && Affects(c, Group(c, log[k].ring), pair.1.key) {
        MergedPairsSafe(c, log, p, pick, k, pair);
      }
    } else {
      MergedInTime(c, log, p, pick);
      LateRanges(c, inputs, k, pair);
    }
  }

  /** No pair of the merged stream spans a reported loss. */
  ghost predicate NoneSpanned(c: Config, log: seq<Log.Event>, pick: (nat, nat) -> Event)
    requires Fits(c, log, pick)
  {
    forall k, pair :: 0 <= k < |log| && IsLoss(log[k]) && pair in Run(c, Inputs(log, pick)).pairs ==> !SpansLoss(c, log[k], pair)
  }

  /** No pair reported so far spans the loss that is reported by entry k. */
  ghost predicate UnspannedYet(c: Config, log: seq<Log.Event>, pick: (nat, nat) -> Event, k: nat)
    requires Fits(c, log, pick) && k < |log| && IsLoss(log[k])
  {
    forall pair :: pair in Run(c, Inputs(log, pick)[..k]).pairs ==> !SpansLoss(c, log[k], pair)
  }

  /** The report starts before the popped time, which only a report at init does. */
  predicate Early(e: Log.Event) { e.LossAtInit? && e.lossStart < e.popped }

  /** The promise holds if and only if no early loss is spanned by a pair already reported. */
  lemma PromiseExactly(c: Config, log: seq<Log.Event>, p: int, pick: (nat, nat) -> Event)
    requires Log.GoodLog(log, p) && Fits(c, log, pick)
    ensures NoneSpanned(c, log, pick) <==>
            forall k :: 0 <= k < |log| && Early(log[k]) ==> UnspannedYet(c, log, pick, k)
  {
    hide Run, SpansLoss;
    forall k: nat | k < |log| && IsLoss(log[k])
      ensures UnspannedYet(c, log, pick, k) <==>
              forall pair :: pair in Run(c, Inputs(log, pick)).pairs ==> !SpansLoss(c, log[k], pair)
      ensures !Early(log[k]) ==> UnspannedYet(c, log, pick, k)
    {
      UnspannedForever(c, log, p, pick, k);
      if !Early(log[k]) {
        OnTime(c, log, p, pick, k);
      }
    }
  }

  lemma UnspannedForever(c: Config, log: seq<Log.Event>, p: int, pick: (nat, nat) -> Event, k: nat)
    requires Log.GoodLog(log, p) && Fits(c, log, pick) && k < |log| && IsLoss(log[k])
    ensures UnspannedYet(c, log, pick, k) <==>
            forall pair :: pair in Run(c, Inputs(log, pick)).pairs ==> !SpansLoss(c, log[k], pair)
  {
    hide Run, SpansLoss;
    forall pair
      ensures pair in Run(c, Inputs(log, pick)).pairs && SpansLoss(c, log[k], pair) <==>
              pair in Run(c, Inputs(log, pick)[..k]).pairs && SpansLoss(c, log[k], pair)
    {
      MergedPairsExactly(c, log, p, pick, k, pair);
    }
  }

  /** A loss that does not start before the popped time comes before no pair that spans it. */
  lemma OnTime(c: Config, log: seq<Log.Event>, p: int, pick: (nat, nat) -> Event, k: nat)
    requires Log.GoodLog(log, p) && Fits(c, log, pick) && k < |log| && IsLoss(log[k]) && !Early(log[k])
    ensures UnspannedYet(c, log, pick, k)
  {
    hide Run;
    var inputs := Inputs(log, pick);
    if c.perIns {
      forall pair | pair in Run(c, inputs[..k]).pairs
        ensures !SpansLoss(c, log[k], pair)
      {
        MergedPairsExactly(c, log, p, pick, k, pair);
        PairsGrow(c, inputs, k);
        if Affects(c, Group(c, log[k].ring), pair.1.key) {
          MergedPairsSafe(c, log, p, pick, k, pair);
        }
      }
    } else {
      MergedInTime(c, log, p, pick);
      assert forall i :: 0 <= i < k ==> inputs[..k][i] == inputs[i];
      RunLate(c, inputs[..k]);
      LastClipped(log, pick, k, Log.At(log[k]));
    }
  }

  lemma {:induction false} LastClipped(log: seq<Log.Event>, pick: (nat, nat) -> Event, k: nat, t: int)
    requires k <= |log| && forall j :: 0 <= j < k && log[j].Delivered? ==> log[j].time <= t
    ensures LastTraced(Inputs(log, pick)[..k]) <= Clip(t)
    decreases k
  {
    if k > 0 {
      var inputs := Inputs(log, pick);
      assert inputs[..k][..k - 1] == inputs[..k - 1] && inputs[..k][k - 1] == InputOf(log[k - 1], pick);
      LastClipped(log, pick, k - 1, t);
    }
  }

  // ---- a run in which a pair does span a loss -------------------------------------------------------------

  /** Ring 0: two samples. */
  function FirstRing(ta: nat, tb: nat, start: nat, end: nat, time: int, mono: int, mark: int): Log.Ring {
    Log.Ring([Log.Sample(ta, 1), Log.Sample(tb, 1)], 16, 0, true, start, end, time, mono, mark, false)
  }

  /** Ring 1: a LOST record and the sample behind it. */
  function LateRing(te: nat, count: nat, start: nat, end: nat, time: int): Log.Ring {
    Log.Ring([Log.Lost(count, 1), Log.Sample(te, 1)], 16, 0, true, start, end, time, 0, -1, false)
  }

  /** The log of two calls: ring 1 becomes visible between them. */
  function LateLog(ta: nat, tb: nat, te: nat, count: nat): seq<Log.Event> {
    [Log.Emptied(1), Log.Delivered(0, 0, ta), Log.Delivered(0, 1, tb), Log.Emptied(0),
     Log.Emptied(0), Log.Swallowed(1, 0), Log.LossAtInit(1, 0, te, count, tb)]
  }

  /** Its turns, as the merge makes them: ring 0 delivers both samples, then ring 1 is read for the first time. */
  lemma LateLossHappens(ta: nat, tb: nat, te: nat, count: nat)
    requires ta < tb < te && count > 0
    ensures var log := LateLog(ta, tb, te, count);
            var a0, a1, a2 := FirstRing(ta, tb, 0, 0, 0, 0, -1), FirstRing(ta, tb, 1, 2, ta, 0, -1), FirstRing(ta, tb, 1, 2, ta, 0, 1);
            var a3, a4 := FirstRing(ta, tb, 1, 2, ta, ta, 1), FirstRing(ta, tb, 2, 2, tb, ta, 1);
            var a5, b0, b1 := FirstRing(ta, tb, 2, 2, tb, tb, 1), LateRing(te, count, 0, 0, 0), LateRing(te, count, 2, 2, te);
            && Order.InitTurn(a0, a1, true, 0, 0, log[..0], log[..0], 0) && Order.InitTurn(b0, b0, false, 1, 0, log[..0], log[..1], 0)
            && Order.GoesOn(a1, a2) && Order.DeliverTurn(a2, a3, 0, ta, log[..1], log[..2])
            && Order.AdvanceTurn(a3, a4, true, 0, log[..2], log[..2], 0, 0)
            && Order.GoesOn(a4, a4) && Order.DeliverTurn(a4, a5, 0, tb, log[..2], log[..3])
            && Order.AdvanceTurn(a5, a5, false, 0, log[..3], log[..4], 0, 0)
            && Order.InitTurn(a5, a5, false, 0, tb, log[..4], log[..5], 0) && Order.InitTurn(b0, b1, true, 1, tb, log[..5], log, count)
  {
    OneByteEach(FirstRing(ta, tb, 1, 2, ta, 0, -1).stream);
    OneByteEach(LateRing(te, count, 0, 0, 0).stream);
  }

  lemma OneByteEach(stream: seq<Log.Record>)
    requires |stream| == 2 && stream[0].size == 1 && stream[1].size == 1
    ensures Log.Offset(stream, 1) == 1 && Log.Offset(stream, 2) == 2
  {
    assert Log.Offset(stream, 0) == 0;
    assert Log.Offset(stream, 1) == 1;
  }

  /** The last entry of the log reports a loss that a pair already reported spans. */
  lemma EarlyLossSpanned(c: Config, pick: (nat, nat) -> Event, ta: nat, tb: nat, te: nat, count: nat)
    requires !c.perIns && GoodConfig(c) && ta < tb < te && count > 0
    requires forall ring, index :: pick(ring, index).ins < |c.insKey|
    requires |c.insKey| >= 2
    requires var a, b := pick(0, 0), pick(0, 1);
             !a.untraced && !b.untraced && a.key == b.key && (a.tp, b.tp) in c.paired && a.keep && b.find
    ensures var log := LateLog(ta, tb, te, count);
            && Log.GoodLog(log, tb) && Fits(c, log, pick) && Early(log[6]) && !UnspannedYet(c, log, pick, 6) && !NoneSpanned(c, log, pick)
  {
    hide Log.GoodLog, Handle, Run, Log.LossesSafe;
    var log := LateLog(ta, tb, te, count);
    LateIsGood(ta, tb, te, count);
    var inputs := Inputs(log, pick);
    var a, b := pick(0, 0).(time := ta), pick(0, 1).(time := tb);
    assert inputs[1] == Sample(a) && inputs[2] == Sample(b) && inputs[0] == Sample(pick(1, 0).(untraced := true));
    assert inputs[6] == Lost(1, 0, te);
    ThreeSamples(c, inputs[..6], a, b);
    var pair := (a.(id := 1), b.(id := 2));
    assert SpansLoss(c, log[6], pair);
    PromiseExactly(c, log, tb, pick);
  }

  lemma LateIsGood(ta: nat, tb: nat, te: nat, count: nat)
    requires ta < tb < te
    ensures Log.GoodLog(LateLog(ta, tb, te, count), tb)
  {
    var log := LateLog(ta, tb, te, count);
    assert forall k :: 0 <= k < |log| && log[k].LossAtInit? ==> k == 6;
    assert forall k :: 0 <= k < 6 && Log.Stamped(log[..6][k]) ==> log[..6][k].ring == 0;
  }

  predicate NoRanges(c: Config, s: State) { |s.lost| == Groups(c) && forall g :: 0 <= g < Groups(c) ==> s.lost[g] == [] }

  lemma NoRangesKeep(c: Config, s: State, a: Event)
    requires NoRanges(c, s) && GoodEvent(c, a) && !a.untraced && a.keep && a.key !in s.backup && Group(c, a.ins) < Groups(c)
    ensures var r := Step(c, s, Sample(a));
            && NoRanges(c, r) && r.pairs == s.pairs && r.handled == s.handled + 1
            && a.key in r.backup && r.backup[a.key] == a.(id := s.handled)
  {
    assert Sweep(s.lost[Group(c, a.ins)], a.time) == Verdict([], false, true, true);
  }

  lemma NoRangesPair(c: Config, s: State, b: Event)
    requires NoRanges(c, s) && GoodEvent(c, b) && !b.untraced && b.find && b.key in s.backup && Group(c, b.ins) < Groups(c)
    requires (s.backup[b.key].tp, b.tp) in c.paired && s.backup[b.key].time < b.time
    ensures Step(c, s, Sample(b)).pairs == s.pairs + [(s.backup[b.key], b.(id := s.handled))]
  {
    assert Sweep(s.lost[Group(c, b.ins)], b.time) == Verdict([], false, true, true);
  }

  /** An untraced sample and two that make a pair. */
  lemma ThreeSamples(c: Config, inputs: seq<Input>, a: Event, b: Event)
    requires !c.perIns && |inputs| >= 3 && forall i :: 0 <= i < |inputs| ==> GoodInput(c, inputs[i])
    requires inputs[0].Sample? && inputs[0].event.untraced && inputs[1] == Sample(a) && inputs[2] == Sample(b)
    requires !a.untraced && !b.untraced && a.key == b.key && (a.tp, b.tp) in c.paired && a.keep && b.find && a.time < b.time
    ensures (a.(id := 1), b.(id := 2)) in Run(c, inputs).pairs
  {
    var s1 := Step(c, Init(c), inputs[0]);
    var s2 := Step(c, s1, Sample(a));
    assert NoRanges(c, s1) && s1.handled == 1 && a.key !in s1.backup;
    NoRangesKeep(c, s1, a);
    NoRangesPair(c, s2, b);
    Unfolds(c, inputs, s1, s2);
    PairsGrow(c, inputs, 3);
    hide Step, Run;
    assert (a.(id := 1), b.(id := 2)) in Run(c, inputs[..3]).pairs;
  }

  lemma Unfolds(c: Config, inputs: seq<Input>, s1: State, s2: State)
    requires |inputs| >= 3 && forall i :: 0 <= i < |inputs| ==> GoodInput(c, inputs[i])
    requires s1 == Step(c, Init(c), inputs[0]) && s2 == Step(c, s1, inputs[1])
    ensures Run(c, inputs[..3]) == Step(c, s2, inputs[2])
  {
    hide Init, Handle;
    assert inputs[..3][..2] == inputs[..2] && inputs[..2][..1] == inputs[..1] && inputs[..1][..0] == [];
    assert Run(c, inputs[..1][..0]) == Init(c);
    assert Run(c, inputs[..1]) == s1;
    assert Run(c, inputs[..2]) == s2;
  }
}
