/** Exactly which pairs the matcher reports, lost ranges included. */
module MatcherExact {
  import opened Matcher

  // ---- what the inputs say --------------------------------------------------------------------------

  /** Samples before input k: the number it gets. */
  function IdOf(inputs: seq<Input>, k: nat): nat
    requires k <= |inputs|
  {
    if k == 0 then 0 else IdOf(inputs, k - 1) + if inputs[k - 1].Sample? then 1 else 0
  }

  function At(inputs: seq<Input>, k: nat): Event {
    if k < |inputs| && inputs[k].Sample? then inputs[k].event.(id := IdOf(inputs, k))
    else Event(0, 0, 0, false, false, true, 0, 0, 0)
  }

  predicate Traced(inputs: seq<Input>, k: nat) { k < |inputs| && inputs[k].Sample? && !inputs[k].event.untraced }

  /** Input r is a lost range that concerns sample k. */
  predicate Affecting(c: Config, inputs: seq<Input>, r: nat, k: nat)
    requires r < |inputs| && Traced(inputs, k)
  {
    LostIn(c, inputs[r], Group(c, inputs[k].event.ins))
  }

  /** Sample k is the last event before a loss known by then: it is not backed up. */
  predicate LastBefore(c: Config, inputs: seq<Input>, k: nat)
    requires Traced(inputs, k)
  {
    exists r :: 0 <= r < k && Affecting(c, inputs, r, k) && inputs[r].start == inputs[k].event.time
  }

  /** Sample k takes what is backed up under the key, or replaces it. */
  predicate Acts(c: Config, inputs: seq<Input>, k: nat, key: nat) {
    && Traced(inputs, k) && inputs[k].event.key == key
    && (inputs[k].event.find || (inputs[k].event.keep && !LastBefore(c, inputs, k)))
  }

  /** An event at time a has survived a range by time now: the range has not begun, or ended before. */
  predicate Survives(start: nat, end: nat, a: nat, now: nat) { now <= start || (start < a && end <= a) }

  /** Sample j is the latest to act on the key before n, was to be backed up, and has survived every range by `now`. */
  predicate Holds(c: Config, inputs: seq<Input>, j: nat, n: nat, key: nat, now: nat)
    requires j < n <= |inputs|
  {
    && Acts(c, inputs, j, key) && inputs[j].event.keep && !LastBefore(c, inputs, j)
    && (forall i :: j < i < n ==> !Acts(c, inputs, i, key))
    && (forall r :: 0 <= r < n && Affecting(c, inputs, r, j) ==>
          Survives(inputs[r].start, inputs[r].end, inputs[j].event.time, now))
  }

  /** Samples j and k form a pair. */
  predicate Pairs(c: Config, inputs: seq<Input>, j: nat, k: nat)
    requires j < k < |inputs|
  {
    && Traced(inputs, k) && inputs[k].event.find
    && Holds(c, inputs, j, k, inputs[k].event.key, inputs[k].event.time)
    && (inputs[j].event.tp, inputs[k].event.tp) in c.paired && inputs[j].event.time < inputs[k].event.time
  }

  // ---- the lost list, by the inputs --------------------------------------------------------------------

  /** The verdict in terms of the whole list: a range around the event blocks it, one that starts with it keeps it from the backup. */
  lemma {:induction false} SweepVerdict(list: seq<Loss>, t: nat)
    requires SortedLoss(list)
    ensures var v := Sweep(list, t);
            && (v.find <==> forall k :: 0 <= k < |list| ==> !(list[k].start < t < list[k].end))
            && (v.keep <==> v.find && forall k :: 0 <= k < |list| ==> list[k].start != t)
            && (v.reclaim ==> list != [] && list[0].start < t)
            && (!v.reclaim && list != [] && list[0].start < t ==> list[0].reclaimed)
    decreases |list|
  {
    if list != [] && list[0].start < t && list[0].end <= t {
      SweepVerdict(list[1..], t);
      assert forall k :: 0 < k < |list| ==> list[k] == list[1..][k - 1];
      assert forall k :: 0 <= k < |list[1..]| ==> list[1..][k] == list[k + 1];
    }
  }

  lemma {:induction false} SweepListed(list: seq<Loss>, t: nat, start: nat, end: nat)
    ensures Listed(Sweep(list, t).rest, start, end) ==> Listed(list, start, end)
    decreases |list|
  {
    if list != [] && list[0].start < t {
      if t < list[0].end {
        var rest := Sweep(list, t).rest;
        assert forall k :: 0 <= k < |list| ==> rest[k].start == list[k].start && rest[k].end == list[k].end;
      } else {
        SweepListed(list[1..], t, start, end);
        ListedHead(list, start, end);
      }
    }
  }

  predicate Registered(c: Config, inputs: seq<Input>, g: nat, start: nat, end: nat) {
    exists r :: 0 <= r < |inputs| && LostIn(c, inputs[r], g) && inputs[r].start == start && inputs[r].end == end
  }

  /** A range is listed, or is past for every event still backed up. */
  predicate Past(c: Config, s: State, g: nat, now: nat, start: nat, end: nat) {
    g < |s.lost| && (Listed(s.lost[g], start, end) ||
      (start < now && end <= now && forall key :: key in s.backup && Affects(c, g, key) ==>
         start < s.backup[key].time && end <= s.backup[key].time))
  }

  /** The lost list of group g holds registered ranges, and those it does not hold are past. */
  ghost predicate Ledger(c: Config, s: State, inputs: seq<Input>, g: nat) {
    && GroupSafe(c, s, g, Now(c, inputs, g))
    && (forall start: nat, end: nat :: Listed(s.lost[g], start, end) ==> Registered(c, inputs, g, start, end))
    && (forall r :: 0 <= r < |inputs| && LostIn(c, inputs[r], g) ==>
          Past(c, s, g, Now(c, inputs, g), inputs[r].start, inputs[r].end))
  }

  lemma PastHandle(c: Config, s: State, e: Event, now: nat, start: nat, end: nat)
    requires GoodConfig(c) && GoodEvent(c, e) && !e.untraced && Group(c, e.ins) < |s.lost|
    requires GroupSafe(c, s, Group(c, e.ins), now) && now <= e.time && Past(c, s, Group(c, e.ins), now, start, end)
    ensures Past(c, Handle(c, s, e), Group(c, e.ins), e.time, start, end)
  {
    hide Sweep, SortedLoss, OneReclaimed;
    SweepFacts(s.lost[Group(c, e.ins)], e.time, now);
    LoseClears(c, s, e, now);
  }

  lemma PastElsewhere(c: Config, s: State, e: Event, g: nat, now: nat, start: nat, end: nat)
    requires GoodConfig(c) && GoodEvent(c, e) && !e.untraced && |s.lost| == Groups(c)
    requires g < Groups(c) && g != Group(c, e.ins) && Past(c, s, g, now, start, end)
    ensures Past(c, Handle(c, s, e), g, now, start, end)
  {
    hide Sweep;
  }

  lemma RegisteredMore(c: Config, inputs: seq<Input>, i: Input, g: nat, start: nat, end: nat)
    ensures Registered(c, inputs, g, start, end) ==> Registered(c, inputs + [i], g, start, end)
    ensures LostIn(c, i, g) ==> Registered(c, inputs + [i], g, i.start, i.end)
  {
    var all := inputs + [i];
    if Registered(c, inputs, g, start, end) {
      var r :| 0 <= r < |inputs| && LostIn(c, inputs[r], g) && inputs[r].start == start && inputs[r].end == end;
      assert all[r] == inputs[r];
    }
    assert all[|inputs|] == i;
  }

  lemma LedgerSample(c: Config, s: State, inputs: seq<Input>, e: Event, g: nat)
    requires GoodConfig(c) && GoodEvent(c, e) && |s.lost| == Groups(c) && g < Groups(c) && Ledger(c, s, inputs, g)
    requires Concerns(c, Sample(e), g) ==> Now(c, inputs, g) <= e.time
    ensures Ledger(c, Step(c, s, Sample(e)), inputs + [Sample(e)], g)
  {
    hide GroupSafe, Past, Registered, Handle, Sweep, Now, Listed;
    var all, s' := inputs + [Sample(e)], Step(c, s, Sample(e));
    var now := Now(c, inputs, g);
    Snoc(c, inputs, Sample(e), g);
    SampleGroup(c, s, e, g, now);
    forall start: nat, end: nat | Listed(s'.lost[g], start, end)
      ensures Registered(c, all, g, start, end)
    {
      ListedBefore(c, s, e, g, start, end);
      RegisteredMore(c, inputs, Sample(e), g, start, end);
    }
    forall r | 0 <= r < |all| && LostIn(c, all[r], g)
      ensures Past(c, s', g, Now(c, all, g), all[r].start, all[r].end)
    {
      assert all[r] == inputs[r];
      SamplePast(c, s, e, g, now, all[r].start, all[r].end);
    }
  }

  lemma ListedBefore(c: Config, s: State, e: Event, g: nat, start: nat, end: nat)
    requires GoodEvent(c, e) && |s.lost| == Groups(c) && g < Groups(c) && Listed(Step(c, s, Sample(e)).lost[g], start, end)
    ensures Listed(s.lost[g], start, end)
  {
    hide Sweep, Listed;
    SweepListed(s.lost[g], e.time, start, end);
  }

  lemma SamplePast(c: Config, s: State, e: Event, g: nat, now: nat, start: nat, end: nat)
    requires GoodConfig(c) && GoodEvent(c, e) && |s.lost| == Groups(c) && g < Groups(c)
    requires GroupSafe(c, s, g, now) && Past(c, s, g, now, start, end)
    requires Concerns(c, Sample(e), g) ==> now <= e.time
    ensures Past(c, Step(c, s, Sample(e)), g, if Concerns(c, Sample(e), g) then e.time else now, start, end)
  {
    hide Handle;
    var s', n := s.(handled := s.handled + 1), Numbered(s, e);
    SameGroup(c, s, s', g, now, start, end);
    assert Past(c, s', g, now, start, end);
    hide Past, GroupSafe;
    if !e.untraced {
      if Group(c, e.ins) == g {
        PastHandle(c, s', n, now, start, end);
      } else {
        PastElsewhere(c, s', n, g, now, start, end);
      }
    }
  }

  lemma LedgerLost(c: Config, s: State, inputs: seq<Input>, i: Input, g: nat)
    requires GoodConfig(c) && GoodInput(c, i) && i.Lost? && |s.lost| == Groups(c) && g < Groups(c) && Ledger(c, s, inputs, g)
    requires LostIn(c, i, g) ==> Now(c, inputs, g) <= i.start && (c.perIns ==> StartsBy(s.lost[g], i.start))
    ensures Ledger(c, Step(c, s, i), inputs + [i], g)
  {
    hide GroupSafe, Registered, Sweep, Now, Listed, Insert;
    var all, s' := inputs + [i], Step(c, s, i);
    var now := Now(c, inputs, g);
    Snoc(c, inputs, i, g);
    if LostIn(c, i, g) {
      RegisterGroup(c, s, g, now, i.start, i.end);
      if c.perIns {
        AppendIsInsert(s.lost[g], Loss(i.start, i.end, false));
      }
    } else {
      OtherList(c, s, s', g, now, now, now);
    }
    forall start: nat, end: nat
      ensures Listed(s'.lost[g], start, end) ==> Registered(c, all, g, start, end)
      ensures Listed(s.lost[g], start, end) ==> Listed(s'.lost[g], start, end)
    {
      if LostIn(c, i, g) {
        InsertListed(s.lost[g], Loss(i.start, i.end, false), start, end);
      }
      RegisteredMore(c, inputs, i, g, start, end);
    }
    forall r | 0 <= r < |all| && LostIn(c, all[r], g)
      ensures Past(c, s', g, now, all[r].start, all[r].end)
    {
      if r < |inputs| {
        assert all[r] == inputs[r];
      } else {
        InsertListed(s.lost[g], Loss(i.start, i.end, false), i.start, i.end);
      }
    }
  }

  lemma {:induction false} RunLedger(c: Config, inputs: seq<Input>, g: nat)
    requires AllGood(c, inputs) && g < Groups(c)
    ensures Ledger(c, Run(c, inputs), inputs, g)
    decreases |inputs|
  {
    if inputs != [] {
      hide Ledger, Step, Guaranteed;
      var n := |inputs| - 1;
      var before, i := inputs[..n], inputs[n];
      assert inputs == before + [i];
      RunLedger(c, before, g);
      RunGuarantees(c, before, g);
      NothingLater(c, inputs, n, g);
      if i.Sample? {
        LedgerSample(c, Run(c, before), before, i.event, g);
      } else {
        StartsAll(c, Run(c, before), before, g, i.start);
        LedgerLost(c, Run(c, before), before, i, g);
      }
    }
  }

  lemma StartsAll(c: Config, s: State, inputs: seq<Input>, g: nat, bound: nat)
    requires Guaranteed(c, s, inputs, g)
    ensures g < |s.lost| && (Latest(c, inputs, g) <= bound ==> StartsBy(s.lost[g], bound))
  {
  }

  /** The verdict on an event, by the ranges registered so far. */
  lemma VerdictByInputs(c: Config, s: State, inputs: seq<Input>, g: nat, t: nat)
    requires Ledger(c, s, inputs, g) && Now(c, inputs, g) <= t
    ensures var v := Sweep(s.lost[g], t);
            && (v.find <==> forall r :: 0 <= r < |inputs| && LostIn(c, inputs[r], g) ==> !(inputs[r].start < t < inputs[r].end))
            && (v.keep <==> v.find && forall r :: 0 <= r < |inputs| && LostIn(c, inputs[r], g) ==> inputs[r].start != t)
  {
    hide Sweep, Now;
    var list, v := s.lost[g], Sweep(s.lost[g], t);
    SweepVerdict(list, t);
    forall k | 0 <= k < |list|
      ensures Registered(c, inputs, g, list[k].start, list[k].end)
    {
      assert Listed(list, list[k].start, list[k].end);
    }
    forall r | 0 <= r < |inputs| && LostIn(c, inputs[r], g)
      ensures Listed(list, inputs[r].start, inputs[r].end) || (inputs[r].start < t && inputs[r].end <= t)
    {
      assert Past(c, s, g, Now(c, inputs, g), inputs[r].start, inputs[r].end);
    }
  }

  // ---- prefixes -------------------------------------------------------------------------------------------

  lemma {:induction false} IdPrefix(inputs: seq<Input>, i: Input, k: nat)
    requires k <= |inputs|
    ensures IdOf(inputs + [i], k) == IdOf(inputs, k)
  {
    if k > 0 {
      IdPrefix(inputs, i, k - 1);
      assert (inputs + [i])[k - 1] == inputs[k - 1];
    }
  }

  lemma ActsPrefix(c: Config, inputs: seq<Input>, i: Input, k: nat, key: nat)
    requires k < |inputs|
    ensures Traced(inputs + [i], k) == Traced(inputs, k) && (inputs + [i])[k] == inputs[k]
    ensures Traced(inputs, k) ==> LastBefore(c, inputs + [i], k) == LastBefore(c, inputs, k)
    ensures Acts(c, inputs + [i], k, key) == Acts(c, inputs, k, key)
  {
    var all := inputs + [i];
    assert forall r :: 0 <= r < |inputs| ==> all[r] == inputs[r];
    if Traced(inputs, k) {
      if LastBefore(c, inputs, k) {
        var r :| 0 <= r < k && Affecting(c, inputs, r, k) && inputs[r].start == inputs[k].event.time;
        assert Affecting(c, all, r, k);
      }
      if LastBefore(c, all, k) {
        var r :| 0 <= r < k && Affecting(c, all, r, k) && all[r].start == all[k].event.time;
        assert Affecting(c, inputs, r, k);
      }
    }
  }

  lemma HoldsPrefix(c: Config, inputs: seq<Input>, i: Input, j: nat, n: nat, key: nat, now: nat)
    requires j < n <= |inputs|
    ensures Holds(c, inputs + [i], j, n, key, now) == Holds(c, inputs, j, n, key, now)
  {
    hide Acts, LastBefore;
    var all := inputs + [i];
    ActsPrefix(c, inputs, i, j, key);
    forall k | j < k < n
      ensures Acts(c, all, k, key) == Acts(c, inputs, k, key)
    {
      ActsPrefix(c, inputs, i, k, key);
    }
    ActsTraced(c, inputs, j, key);
    if Traced(inputs, j) {
      assert forall r :: 0 <= r < n ==> all[r] == inputs[r] && Affecting(c, all, r, j) == Affecting(c, inputs, r, j);
    }
  }

  lemma ActsTraced(c: Config, inputs: seq<Input>, k: nat, key: nat)
    ensures Acts(c, inputs, k, key) ==> Traced(inputs, k) && inputs[k].event.key == key
  {
  }

  /** One more input: it must not act on the key, and a new range must be survived. */
  lemma HoldsSnoc(c: Config, inputs: seq<Input>, i: Input, j: nat, key: nat, now: nat)
    requires j < |inputs|
    ensures Holds(c, inputs + [i], j, |inputs| + 1, key, now) <==>
              && Holds(c, inputs, j, |inputs|, key, now) && !Acts(c, inputs + [i], |inputs|, key)
              && (LostIn(c, i, Group(c, inputs[j].event.ins)) ==> Survives(i.start, i.end, inputs[j].event.time, now))
  {
    hide Acts, LastBefore;
    var all, n := inputs + [i], |inputs|;
    HoldsPrefix(c, inputs, i, j, n, key, now);
    ActsTraced(c, all, j, key);
    assert all[n] == i && all[j] == inputs[j];
  }

  // ---- the backup, by the inputs -------------------------------------------------------------------------

  function GroupAt(c: Config, inputs: seq<Input>, j: nat): nat
    requires Traced(inputs, j)
  {
    Group(c, inputs[j].event.ins)
  }

  /** Sample j holds the key when group g has come to time t and the other groups are where they were. */
  predicate Stays(c: Config, inputs: seq<Input>, g: nat, t: nat, j: nat, key: nat) {
    && Traced(inputs, j)
    && Holds(c, inputs, j, |inputs|, key, if GroupAt(c, inputs, j) == g then t else Now(c, inputs, GroupAt(c, inputs, j)))
  }

  /** The backed-up events are exactly the samples that hold their keys. */
  ghost predicate Exactly(c: Config, backup: map<nat, Event>, inputs: seq<Input>, g: nat, t: nat) {
    && (forall key :: key in backup ==> exists j: nat :: Stays(c, inputs, g, t, j, key) && backup[key] == At(inputs, j))
    && (forall j: nat, key: nat :: Stays(c, inputs, g, t, j, key) ==> key in backup && backup[key] == At(inputs, j))
  }

  lemma {:induction false} NowLatest(c: Config, inputs: seq<Input>, j: nat, g: nat)
    requires Timely(c, inputs) && j < |inputs| && Concerns(c, inputs[j], g) && g < Groups(c)
    ensures inputs[j].event.time <= Now(c, inputs, g)
    decreases |inputs|
  {
    var n := |inputs| - 1;
    if !Concerns(c, inputs[n], g) {
      assert forall k :: 0 <= k < n ==> inputs[..n][k] == inputs[k];
      NowLatest(c, inputs[..n], j, g);
    }
  }

  /** A key belongs to one group: that of the samples that carry it. */
  lemma KeyGroup(c: Config, inputs: seq<Input>, j: nat, key: nat, g: nat)
    requires AllGood(c, inputs) && Traced(inputs, j) && inputs[j].event.key == key && g < Groups(c)
    ensures Affects(c, g, key) <==> GroupAt(c, inputs, j) == g
    ensures GroupAt(c, inputs, j) < Groups(c)
  {
    assert GoodInput(c, inputs[j]);
  }

  /** An event that is backed up and affected by group g: nothing listed has begun. */
  lemma NothingBegun(c: Config, s: State, inputs: seq<Input>, g: nat, t: nat, key: nat)
    requires Ledger(c, s, inputs, g) && Now(c, inputs, g) <= t && key in s.backup && Affects(c, g, key)
    ensures s.lost[g] != [] ==> s.lost[g][0].start >= Now(c, inputs, g) && !s.lost[g][0].reclaimed
    ensures !Sweep(s.lost[g], t).reclaim ==> forall k :: 0 <= k < |s.lost[g]| ==> t <= s.lost[g][k].start
  {
    hide Sweep, Now;
    SweepVerdict(s.lost[g], t);
  }

  /** What is left in the backup has survived every range by t. */
  lemma SurvivesOn(c: Config, s: State, inputs: seq<Input>, g: nat, t: nat, key: nat, r: nat)
    requires Ledger(c, s, inputs, g) && Now(c, inputs, g) <= t && key in s.backup && Affects(c, g, key)
    requires !Sweep(s.lost[g], t).reclaim && r < |inputs| && LostIn(c, inputs[r], g)
    ensures Survives(inputs[r].start, inputs[r].end, s.backup[key].time, t)
  {
    hide Sweep, Now;
    NothingBegun(c, s, inputs, g, t, key);
    assert Past(c, s, g, Now(c, inputs, g), inputs[r].start, inputs[r].end);
  }

  /** What has survived every range by t is not reclaimed. */
  lemma NotReclaimed(c: Config, s: State, inputs: seq<Input>, g: nat, t: nat, key: nat)
    requires Ledger(c, s, inputs, g) && Now(c, inputs, g) <= t && key in s.backup && Affects(c, g, key)
    requires s.backup[key].time <= Now(c, inputs, g)
    requires forall r :: 0 <= r < |inputs| && LostIn(c, inputs[r], g) ==>
               Survives(inputs[r].start, inputs[r].end, s.backup[key].time, t)
    ensures !Sweep(s.lost[g], t).reclaim
  {
    hide Sweep, Now;
    var list := s.lost[g];
    NothingBegun(c, s, inputs, g, t, key);
    SweepVerdict(list, t);
    if list != [] {
      assert Listed(list, list[0].start, list[0].end);
    }
  }

  /** A sample that holds its key with all groups at their times goes on holding it, or not, when group g comes to t. */
  lemma StaysLater(c: Config, inputs: seq<Input>, g: nat, t: nat, j: nat, key: nat)
    requires g < Groups(c) && Now(c, inputs, g) <= t
    ensures Stays(c, inputs, g, t, j, key) ==> Stays(c, inputs, Groups(c), 0, j, key)
    ensures Stays(c, inputs, Groups(c), 0, j, key) && GroupAt(c, inputs, j) != g && GroupAt(c, inputs, j) < Groups(c) ==>
              Stays(c, inputs, g, t, j, key)
    ensures Stays(c, inputs, Groups(c), 0, j, key) && GroupAt(c, inputs, j) == g
            && (forall r :: 0 <= r < |inputs| && LostIn(c, inputs[r], g) ==>
                  Survives(inputs[r].start, inputs[r].end, inputs[j].event.time, t)) ==>
              Stays(c, inputs, g, t, j, key)
  {
    hide Acts, LastBefore, Now;
  }

  function Kept(c: Config, s: State, g: nat, t: nat): map<nat, Event>
    requires g < |s.lost|
  {
    if Sweep(s.lost[g], t).reclaim then Reclaimed(c, s.backup, g) else s.backup
  }

  lemma LoseSound(c: Config, s: State, inputs: seq<Input>, g: nat, t: nat, key: nat)
    requires AllGood(c, inputs) && g < Groups(c) == |s.lost| && Exactly(c, s.backup, inputs, Groups(c), 0)
    requires Ledger(c, s, inputs, g) && Now(c, inputs, g) <= t && key in Kept(c, s, g, t)
    ensures exists j: nat :: Stays(c, inputs, g, t, j, key) && Kept(c, s, g, t)[key] == At(inputs, j)
  {
    hide Stays, Sweep, Ledger, Now, IdOf;
    var j: nat :| Stays(c, inputs, Groups(c), 0, j, key) && s.backup[key] == At(inputs, j);
    StaysTraced(c, inputs, Groups(c), 0, j, key);
    KeyGroup(c, inputs, j, key, g);
    StaysLater(c, inputs, g, t, j, key);
    if GroupAt(c, inputs, j) == g {
      forall r | 0 <= r < |inputs| && LostIn(c, inputs[r], g)
        ensures Survives(inputs[r].start, inputs[r].end, inputs[j].event.time, t)
      {
        SurvivesOn(c, s, inputs, g, t, key, r);
      }
    }
    assert Stays(c, inputs, g, t, j, key);
  }

  lemma StaysTraced(c: Config, inputs: seq<Input>, g: nat, t: nat, j: nat, key: nat)
    requires Stays(c, inputs, g, t, j, key)
    ensures Traced(inputs, j) && inputs[j].event.key == key
    ensures GroupAt(c, inputs, j) == g ==> forall r :: 0 <= r < |inputs| && LostIn(c, inputs[r], g) ==>
              Survives(inputs[r].start, inputs[r].end, inputs[j].event.time, t)
  {
  }

  lemma LoseComplete(c: Config, s: State, inputs: seq<Input>, g: nat, t: nat, j: nat, key: nat)
    requires AllGood(c, inputs) && g < Groups(c) == |s.lost| && Exactly(c, s.backup, inputs, Groups(c), 0)
    requires Ledger(c, s, inputs, g) && Now(c, inputs, g) <= t && Stays(c, inputs, g, t, j, key)
    ensures key in Kept(c, s, g, t) && Kept(c, s, g, t)[key] == At(inputs, j)
  {
    hide Stays, Sweep, Ledger, Now, IdOf;
    StaysLater(c, inputs, g, t, j, key);
    StaysTraced(c, inputs, g, t, j, key);
    KeyGroup(c, inputs, j, key, g);
    if GroupAt(c, inputs, j) == g {
      NowLatest(c, inputs, j, g);
      NotReclaimed(c, s, inputs, g, t, key);
    }
  }

  /** After the lost ranges have been looked at, the backup is exact for an event at t. */
  lemma LoseExact(c: Config, s: State, inputs: seq<Input>, g: nat, t: nat)
    requires AllGood(c, inputs) && g < Groups(c) == |s.lost| && Exactly(c, s.backup, inputs, Groups(c), 0)
    requires Ledger(c, s, inputs, g) && Now(c, inputs, g) <= t
    ensures Exactly(c, Kept(c, s, g, t), inputs, g, t)
  {
    hide Stays, Kept, Ledger, Now, IdOf, At;
    forall key | key in Kept(c, s, g, t)
      ensures exists j: nat :: Stays(c, inputs, g, t, j, key) && Kept(c, s, g, t)[key] == At(inputs, j)
    {
      LoseSound(c, s, inputs, g, t, key);
    }
    forall j: nat, key: nat | Stays(c, inputs, g, t, j, key)
      ensures key in Kept(c, s, g, t) && Kept(c, s, g, t)[key] == At(inputs, j)
    {
      LoseComplete(c, s, inputs, g, t, j, key);
    }
  }

  // ---- one traced sample --------------------------------------------------------------------------------

  /** Inputs with a traced sample e of group g added. */
  predicate Adds(c: Config, inputs: seq<Input>, e: Event, g: nat) {
    AllGood(c, inputs + [Sample(e)]) && AllGood(c, inputs) && !e.untraced && g == Group(c, e.ins) && GoodEvent(c, e)
  }

  /** Whether the new sample holds its key is what the verdict says about backing it up. */
  lemma NewHolds(c: Config, s: State, inputs: seq<Input>, e: Event, g: nat)
    requires Adds(c, inputs, e, g) && g < |s.lost| && Ledger(c, s, inputs, g) && Now(c, inputs, g) <= e.time
    ensures var all, n := inputs + [Sample(e)], |inputs|;
            var v := Sweep(s.lost[g], e.time);
            && (LastBefore(c, all, n) <==> !(forall r :: 0 <= r < n && LostIn(c, inputs[r], g) ==> inputs[r].start != e.time))
            && (Holds(c, all, n, n + 1, e.key, e.time) <==> e.keep && v.keep)
            && (Acts(c, all, n, e.key) <==> e.find || (e.keep && !LastBefore(c, all, n)))
  {
    hide Sweep, Ledger, Now;
    var all, n := inputs + [Sample(e)], |inputs|;
    assert all[n] == Sample(e) && forall r :: 0 <= r < n ==> all[r] == inputs[r];
    VerdictByInputs(c, s, inputs, g, e.time);
    if r :| 0 <= r < n && LostIn(c, inputs[r], g) && inputs[r].start == e.time {
      assert Affecting(c, all, r, n);
    }
    assert forall r :: 0 <= r < n ==> (Affecting(c, all, r, n) <==> LostIn(c, inputs[r], g));
  }

  /** Nothing in the group survives a range that blocks the event. */
  lemma Unblocked(c: Config, s: State, inputs: seq<Input>, e: Event, g: nat, j: nat, key: nat)
    requires Adds(c, inputs, e, g) && g < |s.lost| && Ledger(c, s, inputs, g) && Now(c, inputs, g) <= e.time
    requires Stays(c, inputs, g, e.time, j, key) && GroupAt(c, inputs, j) == g
    ensures Sweep(s.lost[g], e.time).find && inputs[j].event.time <= e.time
  {
    hide Sweep, Ledger, Now, Stays;
    VerdictByInputs(c, s, inputs, g, e.time);
    StaysTraced(c, inputs, g, e.time, j, key);
    KeyGroup(c, inputs, j, key, g);
    NowLatest(c, inputs, j, g);
  }

  /** Held keys after the sample: those held before, at its time, that it does not act on, and its own. */
  lemma StaysSnoc(c: Config, inputs: seq<Input>, e: Event, g: nat, j: nat, key: nat)
    requires Adds(c, inputs, e, g) && g < Groups(c) && j < |inputs|
    ensures Stays(c, inputs + [Sample(e)], Groups(c), 0, j, key) <==>
              Stays(c, inputs, g, e.time, j, key) && !Acts(c, inputs + [Sample(e)], |inputs|, key)
    ensures At(inputs + [Sample(e)], j) == At(inputs, j)
  {
    hide Acts, LastBefore, Now, Holds, IdOf;
    var all := inputs + [Sample(e)];
    assert all[j] == inputs[j];
    IdPrefix(inputs, Sample(e), j);
    if Traced(inputs, j) {
      var h := GroupAt(c, inputs, j);
      KeyGroup(c, inputs, j, inputs[j].event.key, g);
      Snoc(c, inputs, Sample(e), h);
      HoldsSnoc(c, inputs, Sample(e), j, key, if h == g then e.time else Now(c, inputs, h));
    }
  }

  lemma StaysNew(c: Config, inputs: seq<Input>, e: Event, g: nat, key: nat)
    requires Adds(c, inputs, e, g) && g < Groups(c)
    ensures var all, n := inputs + [Sample(e)], |inputs|;
            Stays(c, all, Groups(c), 0, n, key) <==> key == e.key && Holds(c, all, n, n + 1, key, e.time)
  {
    hide LastBefore, Now;
    Snoc(c, inputs, Sample(e), g);
    assert (inputs + [Sample(e)])[|inputs|] == Sample(e);
  }

  /** The backup after the event has looked for its partner and been backed up, as far as it may. */
  function Replaced(b: map<nat, Event>, e: Event, find: bool, keep: bool): map<nat, Event> {
    var b1 := if find then b - {e.key} else b;
    if keep && !(e.key in b1 && e.time < b1[e.key].time) then b1[e.key := e] else b1
  }

  lemma HandleBackup(c: Config, s: State, e: Event)
    requires Group(c, e.ins) < |s.lost|
    ensures var g := Group(c, e.ins);
            var v := Sweep(s.lost[g], e.time);
            Handle(c, s, e).backup == Replaced(Kept(c, s, g, e.time), e, e.find && v.find, e.keep && v.keep)
    ensures var g := Group(c, e.ins);
            var v := Sweep(s.lost[g], e.time);
            var b := Kept(c, s, g, e.time);
            Handle(c, s, e).pairs ==
            if e.find && v.find && e.key in b && (b[e.key].tp, e.tp) in c.paired && b[e.key].time < e.time
            then s.pairs + [(b[e.key], e)] else s.pairs
  {
    hide Sweep;
    var b := Kept(c, s, Group(c, e.ins), e.time);
    if e.key !in b {
      assert b - {e.key} == b;
    }
  }

  /** Everything known before a traced sample is handled. */
  ghost predicate Set(c: Config, s: State, inputs: seq<Input>, e: Event, g: nat) {
    && Adds(c, inputs, e, g) && g < Groups(c) == |s.lost| && Ledger(c, s, inputs, g) && Now(c, inputs, g) <= e.time
    && Exactly(c, Kept(c, s, g, e.time), inputs, g, e.time)
  }

  lemma StepSound(c: Config, s: State, inputs: seq<Input>, e: Event, g: nat, id: nat, key: nat)
    requires Set(c, s, inputs, e, g) && id == IdOf(inputs, |inputs|)
    requires var v := Sweep(s.lost[g], e.time);
             key in Replaced(Kept(c, s, g, e.time), e.(id := id), e.find && v.find, e.keep && v.keep)
    ensures var v := Sweep(s.lost[g], e.time);
            var b := Replaced(Kept(c, s, g, e.time), e.(id := id), e.find && v.find, e.keep && v.keep);
            var all := inputs + [Sample(e)];
            exists j: nat :: Stays(c, all, Groups(c), 0, j, key) && b[key] == At(all, j)
  {
    hide Sweep, Ledger, Now, Stays, Kept, Adds, Acts, LastBefore, Holds;
    var all, n, v := inputs + [Sample(e)], |inputs|, Sweep(s.lost[g], e.time);
    var b1 := Kept(c, s, g, e.time);
    var b := Replaced(b1, e.(id := id), e.find && v.find, e.keep && v.keep);
    NewHolds(c, s, inputs, e, g);
    StaysNew(c, inputs, e, g, key);
    IdPrefix(inputs, Sample(e), n);
    assert At(all, n) == e.(id := id);
    if key in b1 && b[key] == b1[key] {
      var j: nat :| Stays(c, inputs, g, e.time, j, key) && b1[key] == At(inputs, j);
      StaysTraced(c, inputs, g, e.time, j, key);
      StaysSnoc(c, inputs, e, g, j, key);
      if key == e.key {
        SameGroupByKey(c, inputs, e, g, j);
        Unblocked(c, s, inputs, e, g, j, key);
        LastIs(c, s, inputs, e, g);
      } else {
        ActsTraced(c, all, n, key);
      }
    }
  }

  /** Samples of the same key are of the same group. */
  lemma SameGroupByKey(c: Config, inputs: seq<Input>, e: Event, g: nat, j: nat)
    requires Adds(c, inputs, e, g) && Traced(inputs, j) && inputs[j].event.key == e.key
    ensures GroupAt(c, inputs, j) == g
  {
    assert GoodInput(c, inputs[j]);
  }

  /** An event that is not blocked is kept unless it is the last before a loss. */
  lemma LastIs(c: Config, s: State, inputs: seq<Input>, e: Event, g: nat)
    requires Adds(c, inputs, e, g) && g < |s.lost| && Ledger(c, s, inputs, g) && Now(c, inputs, g) <= e.time
    requires Sweep(s.lost[g], e.time).find
    ensures Sweep(s.lost[g], e.time).keep <==> !LastBefore(c, inputs + [Sample(e)], |inputs|)
  {
    hide Sweep, Ledger, Now, LastBefore, Holds, Acts;
    NewHolds(c, s, inputs, e, g);
    VerdictByInputs(c, s, inputs, g, e.time);
  }

  lemma StepComplete(c: Config, s: State, inputs: seq<Input>, e: Event, g: nat, id: nat, j: nat, key: nat)
    requires Set(c, s, inputs, e, g) && id == IdOf(inputs, |inputs|)
    requires Stays(c, inputs + [Sample(e)], Groups(c), 0, j, key)
    ensures var v := Sweep(s.lost[g], e.time);
            var b := Replaced(Kept(c, s, g, e.time), e.(id := id), e.find && v.find, e.keep && v.keep);
            key in b && b[key] == At(inputs + [Sample(e)], j)
  {
    hide Sweep, Ledger, Now, Stays, Kept, Adds, Acts, LastBefore, Holds;
    var all, n, v := inputs + [Sample(e)], |inputs|, Sweep(s.lost[g], e.time);
    var b1 := Kept(c, s, g, e.time);
    StaysTraced(c, all, Groups(c), 0, j, key);
    NewHolds(c, s, inputs, e, g);
    IdPrefix(inputs, Sample(e), n);
    if j == n {
      StaysNew(c, inputs, e, g, key);
      NotOlder(c, s, inputs, e, g);
    } else {
      StaysSnoc(c, inputs, e, g, j, key);
      if key == e.key {
        StaysTraced(c, inputs, g, e.time, j, key);
        SameGroupByKey(c, inputs, e, g, j);
        Unblocked(c, s, inputs, e, g, j, key);
        LastIs(c, s, inputs, e, g);
      }
    }
  }

  /** What is backed up under the key of a sample is not later than it. */
  lemma NotOlder(c: Config, s: State, inputs: seq<Input>, e: Event, g: nat)
    requires Set(c, s, inputs, e, g)
    ensures var b := Kept(c, s, g, e.time); e.key in b ==> b[e.key].time <= e.time
  {
    hide Sweep, Ledger, Now, Stays, Kept, Adds, IdOf;
    var b := Kept(c, s, g, e.time);
    if e.key in b {
      var j: nat :| Stays(c, inputs, g, e.time, j, e.key) && b[e.key] == At(inputs, j);
      StaysTraced(c, inputs, g, e.time, j, e.key);
      SameGroupByKey(c, inputs, e, g, j);
      Unblocked(c, s, inputs, e, g, j, e.key);
    }
  }

  // ---- the pairs, by the inputs ------------------------------------------------------------------------------

  /** The pairs reported are exactly the pairs the inputs have. */
  ghost predicate PairsExact(c: Config, s: State, inputs: seq<Input>) {
    && (forall p :: p in s.pairs ==> exists j: nat, k: nat ::
          j < k < |inputs| && Pairs(c, inputs, j, k) && p == (At(inputs, j), At(inputs, k)))
    && (forall j: nat, k: nat :: j < k < |inputs| && Pairs(c, inputs, j, k) ==> (At(inputs, j), At(inputs, k)) in s.pairs)
  }

  lemma PairsPrefix(c: Config, inputs: seq<Input>, i: Input, j: nat, k: nat)
    requires j < k < |inputs|
    ensures Pairs(c, inputs + [i], j, k) == Pairs(c, inputs, j, k)
    ensures At(inputs + [i], j) == At(inputs, j) && At(inputs + [i], k) == At(inputs, k)
  {
    hide Holds, IdOf;
    var all := inputs + [i];
    assert all[j] == inputs[j] && all[k] == inputs[k];
    IdPrefix(inputs, i, j);
    IdPrefix(inputs, i, k);
    if Traced(inputs, k) {
      HoldsPrefix(c, inputs, i, j, k, inputs[k].event.key, inputs[k].event.time);
    }
    HoldsTraced(c, inputs, j, k, if inputs[k].Sample? then inputs[k].event.key else 0, if inputs[k].Sample? then inputs[k].event.time else 0);
  }

  lemma HoldsTraced(c: Config, inputs: seq<Input>, j: nat, n: nat, key: nat, now: nat)
    requires j < n <= |inputs|
    ensures Holds(c, inputs, j, n, key, now) ==> Traced(inputs, j) && inputs[j].event.key == key
  {
  }

  /** Pairs whose second sample is new: its partner stays until its time. */
  lemma PairsNew(c: Config, inputs: seq<Input>, e: Event, g: nat, j: nat)
    requires Adds(c, inputs, e, g) && g < Groups(c) && j < |inputs|
    ensures Pairs(c, inputs + [Sample(e)], j, |inputs|) <==>
              && e.find && Stays(c, inputs, g, e.time, j, e.key)
              && (inputs[j].event.tp, e.tp) in c.paired && inputs[j].event.time < e.time
  {
    hide Acts, LastBefore, Now;
    var all, n := inputs + [Sample(e)], |inputs|;
    assert all[n] == Sample(e) && all[j] == inputs[j];
    HoldsPrefix(c, inputs, Sample(e), j, n, e.key, e.time);
    HoldsTraced(c, inputs, j, n, e.key, e.time);
    if Stays(c, inputs, g, e.time, j, e.key) {
      StaysTraced(c, inputs, g, e.time, j, e.key);
    }
    if Traced(inputs, j) && inputs[j].event.key == e.key {
      SameGroupByKey(c, inputs, e, g, j);
    }
  }

  /** No pair has a second sample that is not traced. */
  lemma PairsNone(c: Config, inputs: seq<Input>, i: Input, j: nat)
    requires j < |inputs| && (i.Sample? ==> i.event.untraced)
    ensures !Pairs(c, inputs + [i], j, |inputs|)
  {
    assert (inputs + [i])[|inputs|] == i;
  }

  lemma PairsQuiet(c: Config, s: State, s': State, inputs: seq<Input>, i: Input)
    requires PairsExact(c, s, inputs) && s'.pairs == s.pairs && (i.Sample? ==> i.event.untraced)
    ensures PairsExact(c, s', inputs + [i])
  {
    hide Pairs, At;
    var all := inputs + [i];
    forall p | p in s'.pairs
      ensures exists j: nat, k: nat :: j < k < |all| && Pairs(c, all, j, k) && p == (At(all, j), At(all, k))
    {
      var j: nat, k: nat :| j < k < |inputs| && Pairs(c, inputs, j, k) && p == (At(inputs, j), At(inputs, k));
      PairsPrefix(c, inputs, i, j, k);
    }
    forall j: nat, k: nat | j < k < |all| && Pairs(c, all, j, k)
      ensures (At(all, j), At(all, k)) in s'.pairs
    {
      if k == |inputs| {
        PairsNone(c, inputs, i, j);
      } else {
        PairsPrefix(c, inputs, i, j, k);
      }
    }
  }

  lemma PairsSample(c: Config, s: State, inputs: seq<Input>, e: Event, g: nat, id: nat, after: State)
    requires Set(c, s, inputs, e, g) && id == IdOf(inputs, |inputs|) && PairsExact(c, s, inputs)
    requires var v := Sweep(s.lost[g], e.time);
             var b := Kept(c, s, g, e.time);
             after.pairs ==
             if e.find && v.find && e.key in b && (b[e.key].tp, e.tp) in c.paired && b[e.key].time < e.time
             then s.pairs + [(b[e.key], e.(id := id))] else s.pairs
    ensures PairsExact(c, after, inputs + [Sample(e)])
  {
    hide Sweep, Ledger, Now, Stays, Kept, Adds, Pairs, IdOf;
    var all, n, b := inputs + [Sample(e)], |inputs|, Kept(c, s, g, e.time);
    IdPrefix(inputs, Sample(e), n);
    assert all[n] == Sample(e);
    forall p | p in after.pairs
      ensures exists j: nat, k: nat :: j < k < |all| && Pairs(c, all, j, k) && p == (At(all, j), At(all, k))
    {
      if p in s.pairs {
        var j: nat, k: nat :| j < k < |inputs| && Pairs(c, inputs, j, k) && p == (At(inputs, j), At(inputs, k));
        PairsPrefix(c, inputs, Sample(e), j, k);
      } else {
        var j: nat :| Stays(c, inputs, g, e.time, j, e.key) && b[e.key] == At(inputs, j);
        StaysTraced(c, inputs, g, e.time, j, e.key);
        IdPrefix(inputs, Sample(e), j);
        assert all[j] == inputs[j];
        PairsNew(c, inputs, e, g, j);
      }
    }
    forall j: nat, k: nat | j < k < |all| && Pairs(c, all, j, k)
      ensures (At(all, j), At(all, k)) in after.pairs
    {
      if k == n {
        PairsNew(c, inputs, e, g, j);
        StaysTraced(c, inputs, g, e.time, j, e.key);
        SameGroupByKey(c, inputs, e, g, j);
        Unblocked(c, s, inputs, e, g, j, e.key);
        IdPrefix(inputs, Sample(e), j);
        assert all[j] == inputs[j];
        assert (b[e.key], e.(id := id)) in after.pairs;
      } else {
        PairsPrefix(c, inputs, Sample(e), j, k);
      }
    }
  }

  // ---- whole runs ---------------------------------------------------------------------------------------------

  ghost predicate Exact(c: Config, s: State, inputs: seq<Input>) {
    && |s.lost| == Groups(c) && s.handled == IdOf(inputs, |inputs|)
    && Exactly(c, s.backup, inputs, Groups(c), 0) && PairsExact(c, s, inputs)
  }

  lemma ExactTraced(c: Config, s: State, inputs: seq<Input>, e: Event)
    requires Exact(c, s, inputs) && Adds(c, inputs, e, Group(c, e.ins)) && Group(c, e.ins) < Groups(c)
    requires Ledger(c, s, inputs, Group(c, e.ins)) && Now(c, inputs, Group(c, e.ins)) <= e.time
    ensures Exact(c, Step(c, s, Sample(e)), inputs + [Sample(e)])
  {
    hide Sweep, Ledger, Now, Stays, Kept, Adds, Handle, Replaced, At, Pairs, PairsExact;
    var all, g, id := inputs + [Sample(e)], Group(c, e.ins), s.handled;
    AddsGood(c, inputs, e, g);
    var s0, n := s.(handled := s.handled + 1), Numbered(s, e);
    var s' := Step(c, s, Sample(e));
    LoseExact(c, s, inputs, g, e.time);
    HandleBackup(c, s0, n);
    SameKept(c, s, s0, g, e.time);
    HandleCount(c, s0, n);
    IdLast(inputs, Sample(e));
    var v := Sweep(s.lost[g], e.time);
    var b := Replaced(Kept(c, s, g, e.time), n, e.find && v.find, e.keep && v.keep);
    assert s'.backup == b;
    forall key | key in b
      ensures exists j: nat :: Stays(c, all, Groups(c), 0, j, key) && b[key] == At(all, j)
    {
      StepSound(c, s, inputs, e, g, id, key);
    }
    forall j: nat, key: nat | Stays(c, all, Groups(c), 0, j, key)
      ensures key in b && b[key] == At(all, j)
    {
      StepComplete(c, s, inputs, e, g, id, j, key);
    }
    PairsSample(c, s, inputs, e, g, id, s');
  }

  lemma AddsGood(c: Config, inputs: seq<Input>, e: Event, g: nat)
    requires Adds(c, inputs, e, g)
    ensures AllGood(c, inputs) && GoodEvent(c, e) && !e.untraced
  {
  }

  lemma SameKept(c: Config, s: State, s': State, g: nat, t: nat)
    requires g < |s.lost| && s' == s.(handled := s'.handled)
    ensures Kept(c, s', g, t) == Kept(c, s, g, t)
  {
  }

  lemma HandleCount(c: Config, s: State, e: Event)
    requires Group(c, e.ins) < |s.lost|
    ensures Handle(c, s, e).handled == s.handled && |Handle(c, s, e).lost| == |s.lost|
  {
    hide Sweep;
  }

  lemma IdLast(inputs: seq<Input>, i: Input)
    ensures IdOf(inputs + [i], |inputs| + 1) == IdOf(inputs, |inputs|) + if i.Sample? then 1 else 0
  {
    IdPrefix(inputs, i, |inputs|);
    assert (inputs + [i])[|inputs|] == i;
  }

  /** An input that is not a traced sample: nothing acts, and a new range begins no earlier than its group has come. */
  lemma ExactQuiet(c: Config, s: State, inputs: seq<Input>, i: Input)
    requires Exact(c, s, inputs) && AllGood(c, inputs) && GoodInput(c, i) && (i.Sample? ==> i.event.untraced)
    requires i.Lost? ==> Now(c, inputs, Group(c, i.ins)) <= i.start
    ensures Exact(c, Step(c, s, i), inputs + [i])
  {
    hide Now, Holds, Acts, Pairs, PairsExact;
    var all, s', n := inputs + [i], Step(c, s, i), |inputs|;
    assert s'.backup == s.backup && s'.pairs == s.pairs;
    IdLast(inputs, i);
    PairsQuiet(c, s, s', inputs, i);
    forall j: nat, key: nat
      ensures Stays(c, all, Groups(c), 0, j, key) <==> Stays(c, inputs, Groups(c), 0, j, key)
      ensures j < n ==> At(all, j) == At(inputs, j)
    {
      QuietStays(c, inputs, i, j, key);
    }
    forall key | key in s'.backup
      ensures exists j: nat :: Stays(c, all, Groups(c), 0, j, key) && s'.backup[key] == At(all, j)
    {
      var j: nat :| Stays(c, inputs, Groups(c), 0, j, key) && s.backup[key] == At(inputs, j);
      assert Stays(c, all, Groups(c), 0, j, key);
    }
  }

  lemma QuietStays(c: Config, inputs: seq<Input>, i: Input, j: nat, key: nat)
    requires AllGood(c, inputs) && GoodInput(c, i) && (i.Sample? ==> i.event.untraced)
    requires i.Lost? ==> Now(c, inputs, Group(c, i.ins)) <= i.start
    ensures Stays(c, inputs + [i], Groups(c), 0, j, key) <==> Stays(c, inputs, Groups(c), 0, j, key)
    ensures j < |inputs| ==> At(inputs + [i], j) == At(inputs, j)
  {
    hide Now, Holds, LastBefore, IdOf;
    var all, n := inputs + [i], |inputs|;
    if j < n {
      assert all[j] == inputs[j];
      IdPrefix(inputs, i, j);
      if Traced(inputs, j) {
        var h := GroupAt(c, inputs, j);
        KeyGroup(c, inputs, j, inputs[j].event.key, h) by { assert GoodInput(c, inputs[j]); }
        Snoc(c, inputs, i, h);
        HoldsSnoc(c, inputs, i, j, key, Now(c, inputs, h));
        assert all[n] == i;
      }
    } else if j == n {
      assert all[n] == i;
    }
  }

  /** Pairs are reported once each, in the order in which their second samples were handled. */
  predicate InTurn(s: State) {
    && (forall x :: 0 <= x < |s.pairs| ==> s.pairs[x].1.id < s.handled)
    && (forall x, y :: 0 <= x < y < |s.pairs| ==> s.pairs[x].1.id < s.pairs[y].1.id)
  }

  lemma StepInTurn(c: Config, s: State, i: Input)
    requires |s.lost| == Groups(c) && GoodInput(c, i) && InTurn(s)
    ensures InTurn(Step(c, s, i))
  {
    hide Sweep, Register, Reclaimed;
    if i.Sample? && !i.event.untraced {
      var r, e := Step(c, s, i), Numbered(s, i.event);
      assert r.handled == s.handled + 1;
      assert r.pairs == s.pairs || (r.pairs != [] && r.pairs[..|r.pairs| - 1] == s.pairs && r.pairs[|r.pairs| - 1].1 == e);
      assert forall x :: 0 <= x < |s.pairs| ==> r.pairs[x] == s.pairs[x];
    }
  }

  lemma {:induction false} PairsInTurn(c: Config, inputs: seq<Input>)
    requires forall k :: 0 <= k < |inputs| ==> GoodInput(c, inputs[k])
    ensures InTurn(Run(c, inputs))
    decreases |inputs|
  {
    hide Step, InTurn;
    if inputs == [] {
      assert InTurn(Init(c)) by { NoPairs(c); }
    } else {
      PairsInTurn(c, inputs[..|inputs| - 1]);
      StepInTurn(c, Run(c, inputs[..|inputs| - 1]), inputs[|inputs| - 1]);
    }
  }

  lemma NoPairs(c: Config)
    ensures InTurn(Init(c))
  {
  }

  /**
   * Exactly which pairs are reported, for any timely mixture of samples and lost ranges: those whose first
   * sample holds its key until the second looks for it and has survived every range known by then, each
   * once and in the order of the second samples.
   */
  lemma {:induction false} ExactPairs(c: Config, inputs: seq<Input>)
    requires AllGood(c, inputs)
    ensures Exact(c, Run(c, inputs), inputs) && InTurn(Run(c, inputs))
    decreases |inputs|
  {
    PairsInTurn(c, inputs);
    if inputs == [] {
      assert forall g, t, j, key :: !Stays(c, inputs, g, t, j, key);
    } else {
      hide Exact, Step, Ledger, Now, InTurn;
      var n := |inputs| - 1;
      var before, i := inputs[..n], inputs[n];
      assert inputs == before + [i];
      PrefixGood(c, inputs, n);
      ExactPairs(c, before);
      assert GoodInput(c, i);
      var g := Group(c, if i.Sample? then i.event.ins else i.ins);
      NothingLater(c, inputs, n, g);
      assert inputs[..n] == before;
      if i.Sample? && !i.event.untraced {
        RunLedger(c, before, g);
        ExactTraced(c, Run(c, before), before, i.event);
      } else {
        ExactQuiet(c, Run(c, before), before, i);
      }
    }
  }

  lemma PrefixGood(c: Config, inputs: seq<Input>, n: nat)
    requires AllGood(c, inputs) && n <= |inputs|
    ensures AllGood(c, inputs[..n])
  {
    assert forall k :: 0 <= k < n ==> inputs[..n][k] == inputs[k];
  }
}
