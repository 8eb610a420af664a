/** The latency accumulator of latency_helpers.c. */
module Latency {

  const MAX: nat := 0xffff_ffff_ffff_ffff

  /** One call of latency_dist_input. */
  datatype Feed = Feed(instance: int, key: int, lat: nat, than: nat)

  /** struct latency_node */
  datatype Stat = Stat(min: nat, max: nat, than: nat, n: nat, sum: nat)

  /** Where the comparator files an entry: instance and key count only if the distribution is kept by them. */
  function Slot(perins: bool, perkey: bool, instance: int, key: int): (int, int) {
    (if perins then instance else 0, if perkey then key else 0)
  }

  function In(perins: bool, perkey: bool, f: Feed): (int, int) { Slot(perins, perkey, f.instance, f.key) }

  function Fresh(): Stat { Stat(MAX, 0, 0, 0, 0) }

  function Update(s: Stat, f: Feed): Stat {
    Stat(if f.lat < s.min then f.lat else s.min, if f.lat > s.max then f.lat else s.max,
         if f.than > 0 && f.lat > f.than then s.than + 1 else s.than, s.n + 1, s.sum + f.lat)
  }

  /** What a slot holds after the calls so far. */
  function Summary(perins: bool, perkey: bool, fed: seq<Feed>, slot: (int, int)): Stat {
    if fed == [] then Fresh()
    else
      var before, f := Summary(perins, perkey, fed[..|fed| - 1], slot), fed[|fed| - 1];
      if In(perins, perkey, f) == slot then Update(before, f) else before
  }

  /** The latencies fed to a slot. */
  function Lats(perins: bool, perkey: bool, fed: seq<Feed>, slot: (int, int)): seq<nat> {
    if fed == [] then []
    else
      var before, f := Lats(perins, perkey, fed[..|fed| - 1], slot), fed[|fed| - 1];
      if In(perins, perkey, f) == slot then before + [f.lat] else before
  }

  function Sum(s: seq<nat>): nat { if s == [] then 0 else Sum(s[..|s| - 1]) + s[|s| - 1] }

  /** s holds the count, sum, least and greatest of these latencies. */
  predicate Means(s: Stat, lats: seq<nat>) {
    && s.n == |lats| && s.sum == Sum(lats)
    && (forall k :: 0 <= k < |lats| ==> s.min <= lats[k] <= s.max)
    && (if lats == [] then s.min == MAX && s.max == 0 else s.min in lats && s.max in lats)
  }

  lemma MeansUpdate(s: Stat, lats: seq<nat>, f: Feed)
    requires Means(s, lats) && f.lat <= MAX
    ensures Means(Update(s, f), lats + [f.lat])
  {
    var all := lats + [f.lat];
    assert all[..|lats|] == lats && all[|lats|] == f.lat;
    assert f.lat in all;
    assert forall x :: x in lats ==> x in all;
  }

  lemma SummarySnoc(perins: bool, perkey: bool, fed: seq<Feed>, f: Feed, slot: (int, int))
    ensures Summary(perins, perkey, fed + [f], slot) ==
            if In(perins, perkey, f) == slot then Update(Summary(perins, perkey, fed, slot), f) else Summary(perins, perkey, fed, slot)
  {
    assert (fed + [f])[..|fed|] == fed;
  }

  /** Each node describes exactly the latencies fed to its slot. */
  lemma {:induction false} SummaryMeans(perins: bool, perkey: bool, fed: seq<Feed>, slot: (int, int))
    requires forall k :: 0 <= k < |fed| ==> fed[k].lat <= MAX
    ensures Means(Summary(perins, perkey, fed, slot), Lats(perins, perkey, fed, slot))
    decreases |fed|
  {
    if fed != [] {
      hide Means, Update;
      var n := |fed| - 1;
      SummaryMeans(perins, perkey, fed[..n], slot);
      if In(perins, perkey, fed[n]) == slot {
        MeansUpdate(Summary(perins, perkey, fed[..n], slot), Lats(perins, perkey, fed[..n], slot), fed[n]);
      }
    }
  }

  /** The calls for the same instance and key as f, as far as the distribution is kept by them. */
  predicate Together(perins: bool, perkey: bool, e: Feed, f: Feed) {
    (perins ==> e.instance == f.instance) && (perkey ==> e.key == f.key)
  }

  /** They share a node. */
  lemma OneSlot(perins: bool, perkey: bool, e: Feed, f: Feed)
    ensures In(perins, perkey, e) == In(perins, perkey, f) <==> Together(perins, perkey, e, f)
  {
  }

  /** The calls kept together with f, or only those of them with a latency above their threshold. */
  function Counted(perins: bool, perkey: bool, fed: seq<Feed>, f: Feed, long: bool): set<nat> {
    set k: nat | k < |fed| && Together(perins, perkey, fed[k], f) && (long ==> fed[k].than > 0 && fed[k].lat > fed[k].than)
  }

  lemma CountedNext(perins: bool, perkey: bool, fed: seq<Feed>, e: Feed, f: Feed, long: bool)
    ensures |fed| !in Counted(perins, perkey, fed, f, long)
    ensures Counted(perins, perkey, fed + [e], f, long) ==
            if Together(perins, perkey, e, f) && (long ==> e.than > 0 && e.lat > e.than)
            then Counted(perins, perkey, fed, f, long) + {|fed|} else Counted(perins, perkey, fed, f, long)
  {
    hide Together;
    assert forall k: nat :: k < |fed| ==> (fed + [e])[k] == fed[k];
  }

  /** Each node counts the calls it is kept for, and those of them with a latency above a threshold. */
  lemma {:induction false} CountsTogether(perins: bool, perkey: bool, fed: seq<Feed>, f: Feed)
    ensures var s := Summary(perins, perkey, fed, In(perins, perkey, f));
            s.n == |Counted(perins, perkey, fed, f, false)| && s.than == |Counted(perins, perkey, fed, f, true)|
    decreases |fed|
  {
    if fed == [] {
      assert Counted(perins, perkey, fed, f, false) == {} && Counted(perins, perkey, fed, f, true) == {};
    } else {
      hide Counted, Summary, Together, In;
      var n := |fed| - 1;
      OneSlot(perins, perkey, fed[n], f);
      CountsTogether(perins, perkey, fed[..n], f);
      CountedNext(perins, perkey, fed[..n], fed[n], f, false);
      CountedNext(perins, perkey, fed[..n], fed[n], f, true);
      assert fed[..n] + [fed[n]] == fed;
      SummarySnoc(perins, perkey, fed[..n], fed[n], In(perins, perkey, f));
    }
  }

  method Account(node: Stat, f: Feed) returns (s: Stat)
    ensures s == Update(node, f)
  {
    s := node;
    if f.lat < s.min { s := s.(min := f.lat); }
    if f.lat > s.max { s := s.(max := f.lat); }
    if f.than > 0 && f.lat > f.than { s := s.(than := s.than + 1); }
    s := s.(n := s.n + 1, sum := s.sum + f.lat);
  }

  class LatencyDist {
    const perins: bool
    const perkey: bool
    var nodes: map<(int, int), Stat>
    ghost var fed: seq<Feed>

    /** A node exists for every slot fed, and holds its summary. */
    ghost predicate Valid()
      reads this
    {
      && (forall slot :: slot in nodes ==> nodes[slot] == Summary(perins, perkey, fed, slot))
      && (forall slot :: slot !in nodes ==> Summary(perins, perkey, fed, slot) == Fresh())
      && (forall k :: 0 <= k < |fed| ==> In(perins, perkey, fed[k]) in nodes)
    }

    constructor (perins: bool, perkey: bool)
      ensures Valid() && fed == [] && this.perins == perins && this.perkey == perkey
    {
      this.perins, this.perkey := perins, perkey;
      nodes, fed := map[], [];
    }

    /** latency_dist_input */
    method Input(instance: int, key: int, lat: nat, than: nat)
      requires Valid()
      modifies this
      ensures Valid() && fed == old(fed) + [Feed(instance, key, lat, than)]
    {
      hide Summary, Update, Fresh;
      ghost var f := Feed(instance, key, lat, than);
      var slot := Slot(perins, perkey, instance, key);
      if slot !in nodes {
        nodes := nodes[slot := Fresh()];
      }
      var s := Account(nodes[slot], Feed(instance, key, lat, than));
      nodes := nodes[slot := s];
      forall x
        ensures Summary(perins, perkey, fed + [f], x) ==
                if x == slot then Update(Summary(perins, perkey, fed, x), f) else Summary(perins, perkey, fed, x)
      {
        SummarySnoc(perins, perkey, fed, f, x);
      }
      fed := fed + [f];
    }
  }
}
