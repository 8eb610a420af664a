/** The fork-tracking protocol of ptrace.c: the parent's FORK stop and the child's first stop arrive in either order. */
module Ptrace {
  import opened Common

  /** A profiling device, or the one cloned from it for a forked process. */
  datatype Dev = Root(id: nat) | Clone(of: Dev, pid: int)

  /** struct pid_node; `initial` counts the two initial events, `parent` holds a reference until both have arrived. */
  datatype Node = Node(ppid: int, initial: int, detach: bool, devs: set<Dev>, refcount: int, parent: Option<int>, children: seq<int>)

  type Nodes = map<int, Node>

  /** What is done to a stopped process. */
  datatype Act = Cont(pid: int) | Detach(pid: int)

  datatype State = State(nodes: Nodes, log: seq<Act>, bugs: int)

  // ---- the handlers as functions ------------------------------------------------------------------

  function Without(list: seq<int>, c: int): (r: seq<int>)
    ensures forall x :: x in r <==> x in list && x != c
  {
    if list == [] then []
    else if list[0] == c then Without(list[1..], c)
    else [list[0]] + Without(list[1..], c)
  }

  /** list_del_init(&c->initial_link) */
  function Unlist(nodes: Nodes, c: int): (r: Nodes)
    ensures r.Keys == nodes.Keys
  {
    if c in nodes && nodes[c].parent.Some? && nodes[c].parent.value in nodes then
      var q := nodes[c].parent.value;
      nodes[q := nodes[q].(children := Without(nodes[q].children, c))]
    else nodes
  }

  /** put_pid and, when the last reference goes, __node_delete. */
  function Put(s: State, p: int): State
    decreases |s.nodes|
  {
    if p !in s.nodes then s
    else
      var n := s.nodes[p];
      if n.refcount != 1 then s.(nodes := s.nodes[p := n.(refcount := n.refcount - 1)])
      else
        Smaller(Unlist(s.nodes, p), p);
        SameSize(s.nodes, Unlist(s.nodes, p));
        var rest := s.(nodes := Unlist(s.nodes, p) - {p});
        var t := if n.parent.Some? then Put(rest, n.parent.value) else rest;
        t.(bugs := t.bugs + if n.children != [] then 1 else 0)
  }

  lemma Smaller(nodes: Nodes, p: int)
    requires p in nodes
    ensures |nodes - {p}| < |nodes|
  {
    assert nodes.Keys == (nodes - {p}).Keys + {p};
  }

  lemma SameSize(a: Nodes, b: Nodes)
    requires a.Keys == b.Keys
    ensures |a| == |b|
  {
    assert |a| == |a.Keys| && |b| == |b.Keys|;
  }

  /** __detach */
  function DetachNode(s: State, p: int): State { Put(s.(log := s.log + [Detach(p)]), p) }

  function Clones(devs: set<Dev>, pid: int, ok: set<Dev>): set<Dev> {
    set d | d in devs && d in ok :: Clone(d, pid)
  }

  /** __fork__new: both events of child c have arrived; the clones of the devices in `ok` succeed. */
  function ForkNew(s: State, c: int, ok: set<Dev>): State
    requires c in s.nodes
  {
    var s1 := s.(nodes := Unlist(s.nodes, c));
    if s1.nodes[c].detach then DetachNode(s1, c)
    else
      var s2 := Adopt(s1, c, ok);
      if c !in s2.nodes || s2.nodes[c].devs == {} then DetachNode(s2, c) else s2.(log := s2.log + [Cont(c)])
  }

  /** The child's devices are cloned from its parent's, and the reference to the parent is put. */
  function Adopt(s: State, c: int, ok: set<Dev>): State
    requires c in s.nodes
  {
    var n := s.nodes[c];
    if n.parent.None? || n.parent.value !in s.nodes then s
    else
      var q := n.parent.value;
      var n' := n.(devs := n.devs + Clones(s.nodes[q].devs, c, ok));
      var t := Put(s.(nodes := s.nodes[c := n']), q);
      if c in t.nodes then t.(nodes := t.nodes[c := t.nodes[c].(parent := None)]) else t
  }

  function Fresh(): Node { Node(0, 0, false, {}, 1, None, []) }

  /** new_find_pid */
  function FindNew(nodes: Nodes, c: int): (r: Nodes)
    ensures c in r
  {
    if c in nodes then nodes else nodes[c := Fresh()]
  }

  /** __fork, the parent's side: it is referenced, then continued or, if to be detached, detached. */
  function ForkParent(s: State, p: int): State {
    if p !in s.nodes then s.(log := s.log + [Detach(p)], bugs := s.bugs + 1)
    else
      var got := s.(nodes := s.nodes[p := s.nodes[p].(refcount := s.nodes[p].refcount + 1)]);
      if s.nodes[p].detach then DetachNode(got, p) else got.(log := got.log + [Cont(p)])
  }

  /** __fork, the child's side before __fork__new. */
  function ForkChild(nodes: Nodes, p: int, c: int): (r: Nodes)
    ensures c in r
  {
    var found := FindNew(nodes, c);
    var n := found[c];
    if p in nodes then
      var child := n.(ppid := p, detach := nodes[p].detach, parent := Some(p), initial := n.initial + 1);
      found[c := child][p := found[p].(children := found[p].children + [c])][c := child]
    else
      found[c := n.(ppid := p, detach := true, parent := None, initial := n.initial + 1)]
  }

  /** __fork */
  function Fork(s: State, p: int, c: int, ok: set<Dev>): State {
    var s1 := ForkParent(s, p);
    var s2 := s1.(nodes := ForkChild(s1.nodes, p, c));
    if s2.nodes[c].initial == 2 then ForkNew(s2, c, ok) else s2
  }

  /** __new_or_interrupt */
  function Stop(s: State, c: int, ok: set<Dev>): State {
    var nodes := FindNew(s.nodes, c);
    var n := nodes[c];
    var unequal := n.parent.Some? && n.parent.value in nodes && n.detach != nodes[n.parent.value].detach;
    var s1 := s.(nodes := nodes, bugs := s.bugs + if unequal then 1 else 0);
    if n.initial == 2 then
      if n.detach then DetachNode(s1, c) else s1.(log := s1.log + [Cont(c)])
    else
      var s2 := s1.(nodes := nodes[c := n.(initial := n.initial + 1)]);
      if n.initial + 1 == 2 then ForkNew(s2, c, ok) else s2
  }

  // ---- what every reachable state satisfies --------------------------------------------------------

  /**
   * The references on p are its own, if still held, and one per child that has not seen both events;
   * those children, and no others, are on its list.
   */
  predicate NodeOk(nodes: Nodes, held: set<int>, p: int)
    requires p in nodes
  {
    var n := nodes[p];
    && n.refcount == (if p in held then 1 else 0) + |n.children| && n.refcount > 0 && NoDup(n.children)
    && (forall k :: 0 <= k < |n.children| ==> n.children[k] in nodes && nodes[n.children[k]].parent == Some(p))
    && (n.parent.Some? ==> n.parent.value in nodes && p in nodes[n.parent.value].children)
  }

  predicate Referenced(nodes: Nodes, held: set<int>) {
    held <= nodes.Keys && forall p :: p in nodes ==> NodeOk(nodes, held, p)
  }

  /** A child waiting for its second event: alive, without devices or children, and detached with its parent. */
  predicate Waiting(nodes: Nodes, held: set<int>, c: int)
    requires c in nodes
  {
    && c in held && nodes[c].initial == 1 && nodes[c].devs == {} && nodes[c].children == []
    && (nodes[c].parent.None? ==> !nodes[c].detach)
    && (nodes[c].parent.Some? ==>
          nodes[c].parent.value in nodes && nodes[nodes[c].parent.value].initial == 2
          && nodes[c].detach == nodes[nodes[c].parent.value].detach)
  }

  predicate Running(nodes: Nodes, held: set<int>, c: int)
    requires c in nodes
  {
    nodes[c].initial == 2 && nodes[c].parent.None? && (c in held && !nodes[c].detach ==> nodes[c].devs != {})
  }

  /** Every process waits for its second event or runs. */
  predicate Phased(nodes: Nodes, held: set<int>, c: int)
    requires c in nodes
  {
    Waiting(nodes, held, c) || Running(nodes, held, c)
  }

  /** `held` are the processes whose own reference is held, `done` those that have exited or been detached. */
  predicate Inv(s: State, held: set<int>, done: set<int>) {
    && Referenced(s.nodes, held) && held !! done && (forall p :: p in s.nodes ==> p in held || p in done)
    && (forall c :: c in s.nodes ==> Phased(s.nodes, held, c))
    && s.bugs == 0
  }

  // ---- each handler keeps it -----------------------------------------------------------------------

  lemma {:induction false} WithoutOne(list: seq<int>, c: int)
    requires NoDup(list)
    ensures NoDup(Without(list, c))
    ensures |Without(list, c)| == if c in list then |list| - 1 else |list|
    decreases |list|
  {
    if list != [] {
      var rest := list[1..];
      assert forall i :: 0 <= i < |rest| ==> rest[i] == list[i + 1];
      WithoutOne(rest, c);
      if list[0] == c {
        assert c !in rest;
        WithoutNone(rest, c);
      } else {
        assert list[0] !in rest;
        assert list[0] !in Without(rest, c);
      }
    }
  }

  lemma {:induction false} WithoutNone(list: seq<int>, c: int)
    requires c !in list
    ensures Without(list, c) == list
    decreases |list|
  {
    if list != [] {
      WithoutNone(list[1..], c);
    }
  }

  /** Node q loses child c and the reference that went with it; it is freed with its last reference. */
  function DropRef(nodes: Nodes, q: int, c: int): Nodes
    requires q in nodes
  {
    if nodes[q].refcount == 1 then nodes - {q}
    else nodes[q := nodes[q].(children := Without(nodes[q].children, c), refcount := nodes[q].refcount - 1)]
  }

  /** What is left of the nodes when child c lets go of its parent. */
  lemma DropRefFacts(nodes: Nodes, held: set<int>, c: int)
    requires Referenced(nodes, held) && c in nodes && nodes[c].parent.Some? && nodes[c].children == []
    ensures var q := nodes[c].parent.value;
            && q in nodes && q != c && c in nodes[q].children && NoDup(Without(nodes[q].children, c))
            && |Without(nodes[q].children, c)| == |nodes[q].children| - 1
            && (nodes[q].refcount == 1 ==> q !in held && nodes[q].children == [c])
            && (nodes[q].refcount > 1 || nodes[q].refcount == 1)
  {
    var q := nodes[c].parent.value;
    assert NodeOk(nodes, held, c);
    assert NodeOk(nodes, held, q);
    WithoutOne(nodes[q].children, c);
  }

  /** Other nodes are not concerned. */
  lemma OtherOk(nodes: Nodes, held: set<int>, rest: Nodes, held': set<int>, c: int, p: int)
    requires Referenced(nodes, held) && c in nodes && nodes[c].parent.Some? && nodes[c].children == []
    requires nodes[c].parent.value in nodes && nodes[nodes[c].parent.value].parent.None?
    requires p in nodes && p != c && p != nodes[c].parent.value
    requires p in rest && rest[p] == nodes[p] && (p in held' <==> p in held)
    requires forall x :: x in nodes && x != c && x != nodes[c].parent.value ==> x in rest && rest[x] == nodes[x]
    requires var q := nodes[c].parent.value;
             q in rest && q in nodes ==> rest[q].parent == nodes[q].parent && forall x :: x in nodes[q].children && x != c ==> x in rest[q].children
    requires var q := nodes[c].parent.value; q !in rest ==> q in nodes && nodes[q].children == [c]
    ensures NodeOk(rest, held', p)
  {
    assert NodeOk(nodes, held, p);
    var q := nodes[c].parent.value;
    var n := nodes[p];
    if n.parent == Some(q) {
      assert p in nodes[q].children;
    } else if n.parent.Some? {
      assert n.parent.value != c;
      assert rest[n.parent.value] == nodes[n.parent.value];
    }
    forall k | 0 <= k < |n.children|
      ensures n.children[k] in rest && rest[n.children[k]].parent == Some(p)
    {
      assert n.children[k] != c && n.children[k] != q;
    }
  }

  /** Node q after it has let go of c. */
  lemma ParentOk(nodes: Nodes, held: set<int>, rest: Nodes, held': set<int>, c: int)
    requires Referenced(nodes, held) && c in nodes && nodes[c].parent.Some? && nodes[c].children == []
    requires nodes[c].parent.value in nodes && nodes[nodes[c].parent.value].parent.None? && nodes[nodes[c].parent.value].refcount > 1
    requires var q := nodes[c].parent.value;
             && q != c && q in rest && (q in held' <==> q in held)
             && rest[q] == nodes[q].(children := Without(nodes[q].children, c), refcount := nodes[q].refcount - 1)
    requires forall x :: x in nodes && x != c && x != nodes[c].parent.value ==> x in rest && rest[x] == nodes[x]
    ensures NodeOk(rest, held', nodes[c].parent.value)
  {
    var q := nodes[c].parent.value;
    assert NodeOk(nodes, held, q);
    DropRefFacts(nodes, held, c);
    var list := Without(nodes[q].children, c);
    forall k | 0 <= k < |list|
      ensures list[k] in rest && rest[list[k]].parent == Some(q)
    {
      assert list[k] in list;
      assert list[k] in nodes[q].children && list[k] != c;
    }
  }

  /** Child c stays, without its parent. */
  lemma DropRefKeeps(nodes: Nodes, held: set<int>, c: int, n: Node)
    requires Referenced(nodes, held) && c in nodes && nodes[c].parent.Some? && nodes[c].children == []
    requires nodes[c].parent.value in nodes && nodes[nodes[c].parent.value].parent.None?
    requires n == nodes[c].(devs := n.devs, parent := None)
    ensures Referenced(DropRef(nodes, nodes[c].parent.value, c)[c := n], held)
  {
    hide Without;
    DropRefFacts(nodes, held, c);
    var q := nodes[c].parent.value;
    var rest := DropRef(nodes, q, c)[c := n];
    forall p | p in rest
      ensures NodeOk(rest, held, p)
    {
      if p == c {
        assert NodeOk(nodes, held, c);
      } else if p == q {
        ParentOk(nodes, held, rest, held, c);
      } else {
        OtherOk(nodes, held, rest, held, c, p);
      }
    }
  }

  /** Child c goes as well. */
  lemma DropRefFrees(nodes: Nodes, held: set<int>, c: int)
    requires Referenced(nodes, held) && c in nodes && nodes[c].parent.Some? && nodes[c].children == []
    requires nodes[c].parent.value in nodes && nodes[nodes[c].parent.value].parent.None?
    ensures Referenced(DropRef(nodes, nodes[c].parent.value, c) - {c}, held - {c})
  {
    hide Without;
    DropRefFacts(nodes, held, c);
    var q := nodes[c].parent.value;
    var rest := DropRef(nodes, q, c) - {c};
    forall p | p in rest
      ensures NodeOk(rest, held - {c}, p)
    {
      if p == q {
        ParentOk(nodes, held, rest, held - {c}, c);
      } else {
        OtherOk(nodes, held, rest, held - {c}, c, p);
      }
    }
  }

  /** Nodes after p has lost its own reference. */
  function LetGo(nodes: Nodes, p: int): Nodes
    requires p in nodes
  {
    if nodes[p].refcount != 1 then nodes[p := nodes[p].(refcount := nodes[p].refcount - 1)]
    else if nodes[p].parent.Some? && nodes[p].parent.value in nodes then DropRef(nodes, nodes[p].parent.value, p) - {p}
    else nodes - {p}
  }

  /** Child c has let go of its list already, or not. */
  lemma PutChild(s: State, held: set<int>, c: int, t: State)
    requires Referenced(s.nodes, held) && c in held && s.nodes[c].parent.Some? && s.nodes[c].children == []
    requires s.nodes[c].parent.value in s.nodes && s.nodes[s.nodes[c].parent.value].parent.None?
    requires t == s || t == s.(nodes := Unlist(s.nodes, c))
    ensures Put(t, c) == s.(nodes := DropRef(s.nodes, s.nodes[c].parent.value, c) - {c})
  {
    assert NodeOk(s.nodes, held, c);
    DropRefFacts(s.nodes, held, c);
    var q := s.nodes[c].parent.value;
    var list := Without(s.nodes[q].children, c);
    WithoutNone(list, c);
    var rest := s.(nodes := Unlist(s.nodes, c) - {c});
    assert Unlist(t.nodes, c) == Unlist(s.nodes, c);
    assert Put(t, c) == Put(rest, q);
    if s.nodes[q].refcount == 1 {
      assert list == [];
      assert Unlist(rest.nodes, q) == rest.nodes;
      assert Put(rest, q) == rest.(nodes := rest.nodes - {q});
    }
  }

  lemma PutIsLetGo(s: State, held: set<int>, p: int)
    requires Referenced(s.nodes, held) && p in held
    requires s.nodes[p].parent.Some? ==>
               s.nodes[p].parent.value in s.nodes && s.nodes[s.nodes[p].parent.value].parent.None? && s.nodes[p].children == []
    ensures Put(s, p) == s.(nodes := LetGo(s.nodes, p))
  {
    assert NodeOk(s.nodes, held, p);
    if s.nodes[p].parent.Some? {
      PutChild(s, held, p, s);
    }
  }

  /** Freeing or releasing p keeps the references of all others right. */
  lemma LetGoReferenced(nodes: Nodes, held: set<int>, p: int)
    requires Referenced(nodes, held) && p in held
    requires nodes[p].parent.Some? ==>
               nodes[p].parent.value in nodes && nodes[nodes[p].parent.value].parent.None? && nodes[p].children == []
    ensures Referenced(LetGo(nodes, p), held - {p})
  {
    assert NodeOk(nodes, held, p);
    if nodes[p].parent.Some? {
      DropRefFrees(nodes, held, p);
    } else {
      var rest := LetGo(nodes, p);
      forall x | x in rest
        ensures NodeOk(rest, held - {p}, x)
      {
        assert NodeOk(nodes, held, x);
      }
    }
  }

  lemma LetGoInv(s: State, held: set<int>, done: set<int>, p: int)
    requires Inv(s, held, done) && p in held
    ensures Put(s, p) == s.(nodes := LetGo(s.nodes, p)) && Inv(Put(s, p), held - {p}, done + {p})
  {
    hide Without, Put, NoDup;
    assert Phased(s.nodes, held, p);
    if s.nodes[p].parent.Some? {
      assert Phased(s.nodes, held, s.nodes[p].parent.value);
    }
    PutIsLetGo(s, held, p);
    LetGoReferenced(s.nodes, held, p);
    var rest := LetGo(s.nodes, p);
    assert NodeOk(s.nodes, held, p);
    forall x | x in rest
      ensures Phased(rest, held - {p}, x)
      ensures x in held - {p} || x in done + {p}
    {
      Survivor(s.nodes, held, p, x);
    }
  }

  lemma Survivor(nodes: Nodes, held: set<int>, p: int, x: int)
    requires Referenced(nodes, held) && p in held && x in LetGo(nodes, p)
    requires forall c :: c in nodes ==> Phased(nodes, held, c)
    ensures Phased(LetGo(nodes, p), held - {p}, x)
  {
    hide Without, NoDup;
    var rest := LetGo(nodes, p);
    assert NodeOk(nodes, held, p) && NodeOk(nodes, held, x);
    assert x in nodes;
    if nodes[p].parent.Some? {
      DropRefFacts(nodes, held, p);
      assert NodeOk(nodes, held, nodes[p].parent.value);
    }
    if Waiting(nodes, held, x) && x != p && nodes[x].parent.Some? {
      assert x in nodes[nodes[x].parent.value].children;
    }
  }

  // ---- both events have arrived ----------------------------------------------------------------------

  /** The invariant, but for child c having just seen its second event. */
  predicate Both(s: State, held: set<int>, done: set<int>, c: int) {
    && c in s.nodes && s.nodes[c].initial == 2 && s.nodes[c].parent.Some? && s.nodes[c].parent.value in s.nodes
    && Inv(s.(nodes := s.nodes[c := s.nodes[c].(initial := 1)]), held, done)
  }

  lemma BothReferenced(s: State, held: set<int>, done: set<int>, c: int)
    requires Both(s, held, done, c)
    ensures Referenced(s.nodes, held) && c in held && s.nodes[c].children == [] && s.nodes[c].devs == {} && s.nodes[c].refcount == 1
    ensures var q := s.nodes[c].parent.value;
            q in s.nodes && q != c && s.nodes[q].parent.None? && s.nodes[q].initial == 2 && s.nodes[c].detach == s.nodes[q].detach
  {
    var one := s.nodes[c := s.nodes[c].(initial := 1)];
    assert Waiting(one, held, c);
    assert NodeOk(one, held, c);
    forall p | p in s.nodes
      ensures NodeOk(s.nodes, held, p)
    {
      assert NodeOk(one, held, p);
    }
    assert Phased(one, held, s.nodes[c].parent.value);
  }

  /** Whether the child is continued. */
  predicate Continues(nodes: Nodes, c: int, ok: set<Dev>) {
    && c in nodes && nodes[c].parent.Some? && nodes[c].parent.value in nodes
    && !nodes[c].detach && Clones(nodes[nodes[c].parent.value].devs, c, ok) != {}
  }

  /** __fork__new lets go of the parent, and continues the child with its devices or detaches and frees it. */
  lemma ForkNewSettles(s: State, held: set<int>, done: set<int>, c: int, ok: set<Dev>)
    requires Both(s, held, done, c)
    ensures var q := s.nodes[c].parent.value;
            ForkNew(s, c, ok) ==
            if Continues(s.nodes, c, ok) then
              var n := s.nodes[c].(devs := Clones(s.nodes[q].devs, c, ok), parent := None);
              s.(nodes := DropRef(s.nodes, q, c)[c := n], log := s.log + [Cont(c)])
            else
              s.(nodes := DropRef(s.nodes, q, c) - {c}, log := s.log + [Detach(c)])
  {
    BothReferenced(s, held, done, c);
    DropRefFacts(s.nodes, held, c);
    var q := s.nodes[c].parent.value;
    var s1 := s.(nodes := Unlist(s.nodes, c));
    if s.nodes[c].detach {
      var d := s.(log := s.log + [Detach(c)]);
      assert d.nodes == s.nodes;
      PutChild(d, held, c, d.(nodes := Unlist(d.nodes, c)));
    } else {
      AdoptSettles(s, held, done, c, ok);
    }
  }

  lemma AdoptSettles(s: State, held: set<int>, done: set<int>, c: int, ok: set<Dev>)
    requires Both(s, held, done, c) && !s.nodes[c].detach
    ensures var q := s.nodes[c].parent.value;
            var n := s.nodes[c].(devs := Clones(s.nodes[q].devs, c, ok), parent := None);
            Adopt(s.(nodes := Unlist(s.nodes, c)), c, ok) == s.(nodes := DropRef(s.nodes, q, c)[c := n])
    ensures ForkNew(s, c, ok) ==
            var q := s.nodes[c].parent.value;
            if Clones(s.nodes[q].devs, c, ok) == {} then
              s.(nodes := DropRef(s.nodes, q, c) - {c}, log := s.log + [Detach(c)])
            else
              s.(nodes := DropRef(s.nodes, q, c)[c := s.nodes[c].(devs := Clones(s.nodes[q].devs, c, ok), parent := None)],
                 log := s.log + [Cont(c)])
  {
    BothReferenced(s, held, done, c);
    DropRefFacts(s.nodes, held, c);
    var q := s.nodes[c].parent.value;
    var clones := Clones(s.nodes[q].devs, c, ok);
    var u := Unlist(s.nodes, c)[c := s.nodes[c].(devs := clones)];
    var list := Without(s.nodes[q].children, c);
    assert Unlist(s.nodes, c)[c].devs + clones == clones;
    assert u[q] == s.nodes[q].(children := list);
    if s.nodes[q].refcount == 1 {
      assert list == [];
      assert Unlist(u, q) == u;
      assert Put(s.(nodes := u), q) == s.(nodes := u - {q});
    }
    var t := Adopt(s.(nodes := Unlist(s.nodes, c)), c, ok);
    var n := s.nodes[c].(devs := clones, parent := None);
    assert t.nodes == DropRef(s.nodes, q, c)[c := n];
    if clones == {} {
      var d := t.(log := t.log + [Detach(c)]);
      assert Unlist(d.nodes, c) == d.nodes;
      assert Put(d, c) == d.(nodes := d.nodes - {c});
      assert t.nodes - {c} == DropRef(s.nodes, q, c) - {c};
    }
  }

  lemma ForkNewInv(s: State, held: set<int>, done: set<int>, c: int, ok: set<Dev>)
    requires Both(s, held, done, c)
    ensures var r := ForkNew(s, c, ok);
            if Continues(s.nodes, c, ok) then Inv(r, held, done) else Inv(r, held - {c}, done + {c})
  {
    hide Without, Put, ForkNew, NoDup, Clones;
    ForkNewSettles(s, held, done, c, ok);
    BothReferenced(s, held, done, c);
    DropRefFacts(s.nodes, held, c);
    var q := s.nodes[c].parent.value;
    var one := s.nodes[c := s.nodes[c].(initial := 1)];
    if Continues(s.nodes, c, ok) {
      var n := s.nodes[c].(devs := Clones(s.nodes[q].devs, c, ok), parent := None);
      DropRefKeeps(s.nodes, held, c, n);
      var rest := DropRef(s.nodes, q, c)[c := n];
      forall x | x in rest
        ensures Phased(rest, held, x)
      {
        Settled(one, held, c, rest, held, x);
      }
    } else {
      DropRefFrees(s.nodes, held, c);
      var rest := DropRef(s.nodes, q, c) - {c};
      forall x | x in rest
        ensures Phased(rest, held - {c}, x)
      {
        Settled(one, held, c, rest, held - {c}, x);
      }
    }
  }

  /** Nodes other than c wait or run as before. */
  lemma Settled(nodes: Nodes, held: set<int>, c: int, rest: Nodes, held': set<int>, x: int)
    requires Referenced(nodes, held) && (forall y :: y in nodes ==> Phased(nodes, held, y))
    requires c in nodes && nodes[c].parent.Some? && nodes[c].parent.value in nodes && x in rest && (x != c ==> x in nodes)
    requires forall y :: y in nodes && y != c && y != nodes[c].parent.value ==> y in rest && rest[y] == nodes[y]
    requires var q := nodes[c].parent.value;
             if nodes[q].refcount == 1 then q !in rest && nodes[q].children == [c]
             else q in rest && rest[q] == nodes[q].(children := rest[q].children, refcount := rest[q].refcount)
    requires forall y :: y != c ==> (y in held' <==> y in held)
    requires x == c ==> rest[c].initial == 2 && rest[c].parent.None? && rest[c].devs != {}
    ensures Phased(rest, held', x)
  {
    hide Without, NoDup;
    if x != c {
      assert NodeOk(nodes, held, x);
      assert Phased(nodes, held, nodes[c].parent.value);
      assert Phased(nodes, held, c);
      if Waiting(nodes, held, x) && nodes[x].parent.Some? {
        assert nodes[x].parent.value != c;
        assert x in nodes[nodes[x].parent.value].children;
      }
    }
  }

  // ---- the events ------------------------------------------------------------------------------------

  /** A running process forks a child that has not been forked yet; neither has exited or been detached. */
  predicate MayFork(s: State, held: set<int>, done: set<int>, p: int, c: int) {
    && p in held && p in s.nodes && s.nodes[p].initial == 2 && p != c && c !in done
    && (c in s.nodes ==> c in held && s.nodes[c].initial == 1 && s.nodes[c].parent.None?)
  }

  /** A process stops: its first stop, or a later one of a running process. */
  predicate MayStop(s: State, held: set<int>, done: set<int>, c: int) {
    && c !in done
    && (c in s.nodes ==> c in held && (s.nodes[c].initial == 2 || s.nodes[c].parent.Some?))
  }

  /** The state before __fork__new, and whose references are held by then. */
  function Forked(s: State, p: int, c: int): State {
    var s1 := ForkParent(s, p);
    s1.(nodes := ForkChild(s1.nodes, p, c))
  }

  function HeldAfterFork(s: State, held: set<int>, p: int, c: int): set<int> {
    (if p in s.nodes && s.nodes[p].detach then held - {p} else held) + {c}
  }

  function DoneAfterFork(s: State, done: set<int>, p: int): set<int> {
    if p in s.nodes && s.nodes[p].detach then done + {p} else done
  }

  function Released(s: State, p: int): Act
    requires p in s.nodes
  {
    if s.nodes[p].detach then Detach(p) else Cont(p)
  }

  /** After the fork the parent has one more child and reference, and has been continued or detached. */
  lemma ForkedNodes(s: State, held: set<int>, done: set<int>, p: int, c: int)
    requires Inv(s, held, done) && MayFork(s, held, done, p, c)
    ensures var n := s.nodes[p];
            var own := if n.detach then 0 else 1;
            var child := FindNew(s.nodes, c)[c];
            Forked(s, p, c) ==
              State(s.nodes[p := n.(refcount := n.refcount + own, children := n.children + [c])]
                           [c := child.(ppid := p, detach := n.detach, parent := Some(p), initial := child.initial + 1)],
                    s.log + [Released(s, p)], s.bugs)
  {
    assert NodeOk(s.nodes, held, p);
  }

  lemma ForkedInv(s: State, held: set<int>, done: set<int>, p: int, c: int)
    requires Inv(s, held, done) && MayFork(s, held, done, p, c)
    ensures var f := Forked(s, p, c);
            var one := f.(nodes := f.nodes[c := f.nodes[c].(initial := 1)]);
            Inv(one, HeldAfterFork(s, held, p, c), DoneAfterFork(s, done, p))
  {
    hide Put, Without, FindNew, Forked;
    ForkedNodes(s, held, done, p, c);
    var f := Forked(s, p, c);
    var nodes := f.nodes[c := f.nodes[c].(initial := 1)];
    var held' := HeldAfterFork(s, held, p, c);
    ChildFound(s, held, done, c);
    forall x | x in nodes
      ensures NodeOk(nodes, held', x)
    {
      ForkedNode(s, held, done, p, c, nodes, x);
    }
    forall x | x in nodes
      ensures Phased(nodes, held', x)
    {
      if x != c {
        assert NodeOk(s.nodes, held, x);
        assert Phased(s.nodes, held, x);
        assert Phased(s.nodes, held, p);
        if s.nodes[x].parent.Some? {
          assert s.nodes[x].parent.value != c;
        }
      }
    }
  }

  /** The child is new or has seen its first stop only. */
  lemma ChildFound(s: State, held: set<int>, done: set<int>, c: int)
    requires Inv(s, held, done) && (c in s.nodes ==> c in held && s.nodes[c].initial == 1 && s.nodes[c].parent.None?)
    ensures var n := FindNew(s.nodes, c)[c];
            n.devs == {} && n.children == [] && n.refcount == 1 && n.parent.None? && !n.detach && n.initial == (if c in s.nodes then 1 else 0)
    ensures forall x :: x in s.nodes ==> s.nodes[x].parent != Some(c) && c !in s.nodes[x].children
  {
    if c in s.nodes {
      assert Phased(s.nodes, held, c);
      assert NodeOk(s.nodes, held, c);
    }
    forall x | x in s.nodes
      ensures s.nodes[x].parent != Some(c) && c !in s.nodes[x].children
    {
      assert NodeOk(s.nodes, held, x);
    }
  }

  lemma ForkedNode(s: State, held: set<int>, done: set<int>, p: int, c: int, nodes: Nodes, x: int)
    requires Inv(s, held, done) && MayFork(s, held, done, p, c) && x in nodes
    requires var f := Forked(s, p, c); nodes == f.nodes[c := f.nodes[c].(initial := 1)]
    ensures NodeOk(nodes, HeldAfterFork(s, held, p, c), x)
  {
    hide Put, Without, FindNew, Forked;
    ForkedNodes(s, held, done, p, c);
    ChildFound(s, held, done, c);
    if x != c {
      assert NodeOk(s.nodes, held, x);
    }
    if x == p {
      var list := s.nodes[p].children + [c];
      assert nodes[p].children == list;
      assert forall k :: 0 <= k < |s.nodes[p].children| ==> list[k] == s.nodes[p].children[k];
    }
  }

  /** Whether Fork or Stop is the second event of c, given the state before __fork__new. */
  predicate Detaches(s: State, c: int, ok: set<Dev>) {
    c in s.nodes && s.nodes[c].initial == 2 && !Continues(s.nodes, c, ok)
  }

  lemma ForkInv(s: State, held: set<int>, done: set<int>, p: int, c: int, ok: set<Dev>)
    requires Inv(s, held, done) && MayFork(s, held, done, p, c)
    ensures var f := Forked(s, p, c);
            var h, d := HeldAfterFork(s, held, p, c), DoneAfterFork(s, done, p);
            if Detaches(f, c, ok) then Inv(Fork(s, p, c, ok), h - {c}, d + {c}) else Inv(Fork(s, p, c, ok), h, d)
    ensures Fork(s, p, c, ok).log == s.log + [Released(s, p)] +
              if c !in s.nodes then [] else if Continues(Forked(s, p, c).nodes, c, ok) then [Cont(c)] else [Detach(c)]
  {
    hide Put, Without, FindNew, ForkNew, Inv;
    var f := Forked(s, p, c);
    ForkedInv(s, held, done, p, c);
    ForkedNodes(s, held, done, p, c);
    ChildFound(s, held, done, c);
    if f.nodes[c].initial == 2 {
      ForkNewSettles(f, HeldAfterFork(s, held, p, c), DoneAfterFork(s, done, p), c, ok);
      ForkNewInv(f, HeldAfterFork(s, held, p, c), DoneAfterFork(s, done, p), c, ok);
    } else {
      assert f.nodes == f.nodes[c := f.nodes[c].(initial := 1)];
    }
  }

  /** A stop: the first event of a child keeps it stopped, the second settles it, later ones continue or detach. */
  lemma StopInv(s: State, held: set<int>, done: set<int>, c: int, ok: set<Dev>)
    requires Inv(s, held, done) && MayStop(s, held, done, c)
    ensures var r := Stop(s, c, ok);
            if c !in s.nodes then
              Inv(r, held + {c}, done) && r.log == s.log
            else if (if s.nodes[c].initial == 2 then s.nodes[c].detach else !Continues(s.nodes, c, ok)) then
              Inv(r, held - {c}, done + {c}) && r.log == s.log + [Detach(c)]
            else
              Inv(r, held, done) && r.log == s.log + [Cont(c)]
  {
    hide Put, Without, ForkNew, NoDup;
    if c !in s.nodes {
      StopNew(s, held, done, c, ok);
    } else {
      assert Phased(s.nodes, held, c);
      if s.nodes[c].initial == 2 {
        if s.nodes[c].detach {
          var d := s.(log := s.log + [Detach(c)]);
          LetGoInv(d, held, done, c);
        }
      } else {
        var b := s.(nodes := s.nodes[c := s.nodes[c].(initial := 2)]);
        assert b.nodes[c := b.nodes[c].(initial := 1)] == s.nodes;
        assert Both(b, held, done, c);
        ForkNewSettles(b, held, done, c, ok);
        ForkNewInv(b, held, done, c, ok);
        assert Stop(s, c, ok) == ForkNew(b, c, ok);
      }
    }
  }

  lemma StopNew(s: State, held: set<int>, done: set<int>, c: int, ok: set<Dev>)
    requires Inv(s, held, done) && c !in s.nodes && c !in done
    ensures Stop(s, c, ok) == s.(nodes := s.nodes[c := Fresh().(initial := 1)]) && Inv(Stop(s, c, ok), held + {c}, done)
  {
    hide Put, Without, ForkNew;
    var nodes := s.nodes[c := Fresh().(initial := 1)];
    assert FindNew(s.nodes, c)[c := Fresh().(initial := 1)] == nodes;
    forall x | x in nodes
      ensures NodeOk(nodes, held + {c}, x) && (Phased(nodes, held + {c}, x))
    {
      if x != c {
        assert NodeOk(s.nodes, held, x);
        assert Phased(s.nodes, held, x);
      }
    }
  }

  /** The parent's FORK and the child's first stop end in the same state with the same actions in either order. */
  lemma ForkStopCommute(s: State, held: set<int>, done: set<int>, p: int, c: int, ok: set<Dev>)
    requires Inv(s, held, done) && MayFork(s, held, done, p, c) && c !in s.nodes
    ensures Stop(Fork(s, p, c, ok), c, ok) == Fork(Stop(s, c, ok), p, c, ok)
  {
    hide Put, Without, ForkNew;
    StopNew(s, held, done, c, ok);
    var s1 := Stop(s, c, ok);
    ForkedNodes(s, held, done, p, c);
    ForkedNodes(s1, held + {c}, done, p, c);
    var f, g := Forked(s, p, c), Forked(s1, p, c);
    assert f.nodes[c].initial == 1 && g.nodes[c].initial == 2;
    assert f.nodes[c := f.nodes[c].(initial := 2)] == g.nodes;
    assert FindNew(f.nodes, c) == f.nodes;
  }

  /** A child gets one device for each of its parent's devices that can be cloned, and is continued if there is one. */
  lemma ClonesAre(devs: set<Dev>, c: int, ok: set<Dev>)
    ensures forall x :: x in Clones(devs, c, ok) <==> x.Clone? && x.pid == c && x.of in devs && x.of in ok
    ensures Clones(devs, c, ok) != {} <==> exists d :: d in devs && d in ok
  {
    if d :| d in devs && d in ok {
      assert Clone(d, c) in Clones(devs, c, ok);
    }
  }

  lemma ContinuesMeans(nodes: Nodes, c: int, ok: set<Dev>)
    ensures Continues(nodes, c, ok) <==>
            && c in nodes && nodes[c].parent.Some? && nodes[c].parent.value in nodes && !nodes[c].detach
            && exists d :: d in nodes[nodes[c].parent.value].devs && d in ok
  {
    if c in nodes && nodes[c].parent.Some? && nodes[c].parent.value in nodes {
      ClonesAre(nodes[nodes[c].parent.value].devs, c, ok);
    }
  }

  /**
   * Once both events of a child have arrived, in either order, it is continued if its parent is not to be
   * detached and some device of the parent could be cloned, with exactly the devices cloned from those;
   * otherwise it is detached and freed.
   */
  lemma ChildSettles(s: State, held: set<int>, done: set<int>, p: int, c: int, first: set<Dev>, ok: set<Dev>)
    requires Inv(s, held, done) && MayFork(s, held, done, p, c) && c !in s.nodes
    ensures var goes := !s.nodes[p].detach && exists d :: d in s.nodes[p].devs && d in ok;
            var r := Stop(Fork(s, p, c, first), c, ok);
            && r == Fork(Stop(s, c, first), p, c, ok)
            && r.log == s.log + [if s.nodes[p].detach then Detach(p) else Cont(p), if goes then Cont(c) else Detach(c)]
            && (c in r.nodes <==> goes)
            && (goes ==> r.nodes[c].parent.None? && r.nodes[c].ppid == p && !r.nodes[c].detach
                         && forall x :: x in r.nodes[c].devs <==> x.Clone? && x.pid == c && x.of in s.nodes[p].devs && x.of in ok)
  {
    hide Put, Without, FindNew, ForkNew, Inv, Clones, NoDup, NodeOk, Fork, Forked, Continues, Stop;
    ForkOnce(s, held, done, p, c, first, ok);
    ForkStopCommute(s, held, done, p, c, ok);
    StopNew(s, held, done, c, first);
    StopNew(s, held, done, c, ok);
    var f := Forked(s, p, c);
    ForkedNodes(s, held, done, p, c);
    var b := f.(nodes := f.nodes[c := f.nodes[c].(initial := 2)]);
    ForkedInv(s, held, done, p, c);
    ChildFound(s, held, done, c);
    assert b.nodes[c := b.nodes[c].(initial := 1)] == f.nodes;
    assert f.nodes[c := f.nodes[c].(initial := 1)] == f.nodes;
    var h, d := HeldAfterFork(s, held, p, c), DoneAfterFork(s, done, p);
    ForkNewSettles(b, h, d, c, ok);
    BothReferenced(b, h, d, c);
    DropRefFacts(b.nodes, h, c);
    ContinuesMeans(b.nodes, c, ok);
    ClonesAre(s.nodes[p].devs, c, ok);
  }

  /** The first of the two events does not look at devices; the second does. */
  lemma ForkOnce(s: State, held: set<int>, done: set<int>, p: int, c: int, first: set<Dev>, ok: set<Dev>)
    requires Inv(s, held, done) && MayFork(s, held, done, p, c) && c !in s.nodes
    ensures Fork(s, p, c, first) == Forked(s, p, c) && Fork(s, p, c, ok) == Forked(s, p, c)
    ensures var f := Forked(s, p, c);
            c in f.nodes && Stop(f, c, ok) == ForkNew(f.(nodes := f.nodes[c := f.nodes[c].(initial := 2)]), c, ok)
  {
    hide Put, Without, ForkNew, Forked, NoDup;
    ForkUnfold(s, p, c, first);
    ForkUnfold(s, p, c, ok);
    ForkedNodes(s, held, done, p, c);
    ForkedInv(s, held, done, p, c);
    var f := Forked(s, p, c);
    assert f.nodes[c := f.nodes[c].(initial := 1)] == f.nodes;
    assert FindNew(f.nodes, c) == f.nodes;
  }

  // ---- devices -----------------------------------------------------------------------------------------

  /** Node q loses its last device. */
  predicate Loses(nodes: Nodes, q: int, dev: Dev) {
    q in nodes && dev in nodes[q].devs && nodes[q].devs - {dev} == {} && !nodes[q].detach
  }

  /** ptrace_detach for the nodes in `hit`: a node that loses its last device is to be detached, with its waiting children. */
  function Closed(nodes: Nodes, dev: Dev, hit: set<int>): Nodes {
    map p | p in nodes :: nodes[p].(
      devs := if p in hit then nodes[p].devs - {dev} else nodes[p].devs,
      detach := nodes[p].detach || (p in hit && Loses(nodes, p, dev))
                || (nodes[p].parent.Some? && nodes[p].parent.value in hit && Loses(nodes, nodes[p].parent.value, dev)))
  }

  lemma ClosedInv(s: State, held: set<int>, done: set<int>, dev: Dev, hit: set<int>)
    requires Inv(s, held, done)
    ensures Inv(s.(nodes := Closed(s.nodes, dev, hit)), held, done)
  {
    hide NoDup;
    var nodes := Closed(s.nodes, dev, hit);
    assert nodes.Keys == s.nodes.Keys;
    forall x | x in nodes
      ensures NodeOk(nodes, held, x) && (Phased(nodes, held, x))
    {
      assert NodeOk(s.nodes, held, x);
      assert Phased(s.nodes, held, x);
      if s.nodes[x].parent.Some? {
        assert Phased(s.nodes, held, s.nodes[x].parent.value);
      }
    }
  }

  /** Node q loses its last device when those in ds are closed. */
  predicate LosesAll(nodes: Nodes, q: int, ds: set<Dev>) {
    q in nodes && nodes[q].devs != {} && nodes[q].devs <= ds && !nodes[q].detach
  }

  /** Every node loses the devices in ds; one that has none left is to be detached, with its waiting children. */
  function ClosedAll(nodes: Nodes, ds: set<Dev>): Nodes {
    map p | p in nodes :: nodes[p].(
      devs := nodes[p].devs - ds,
      detach := nodes[p].detach || LosesAll(nodes, p, ds)
                || (nodes[p].parent.Some? && LosesAll(nodes, nodes[p].parent.value, ds)))
  }

  /** The devices with a process on their list. */
  function InUse(nodes: Nodes): set<Dev> { set p, d | p in nodes && d in nodes[p].devs :: d }

  /** Closing dev reaches d: dev itself, or a device cloned from one that is reached, if it has a process. */
  predicate Reached(nodes: Nodes, dev: Dev, d: Dev) {
    d in InUse(nodes) && (d == dev || (d.Clone? && Reached(nodes, dev, d.of)))
  }

  function Family(nodes: Nodes, dev: Dev): set<Dev> { set d | d in InUse(nodes) && Reached(nodes, dev, d) }

  /** Devices closed so far: dev, and with each one all its clones, but for those of dev that are still to come. */
  predicate Closing(nodes: Nodes, dev: Dev, ds: set<Dev>, todo: set<Dev>) {
    && ds <= InUse(nodes) && dev in ds
    && (forall d :: d in ds ==> d == dev || (d.Clone? && d.of in ds))
    && (forall d :: d in InUse(nodes) && d.Clone? && d.of in ds && d !in todo ==> d in ds)
    && (forall d :: d in todo ==> d.Clone? && d.of == dev)
  }

  lemma {:induction false} ClosingReaches(nodes: Nodes, dev: Dev, ds: set<Dev>, d: Dev)
    requires Closing(nodes, dev, ds, {})
    ensures d in ds <==> Reached(nodes, dev, d)
    decreases d
  {
    if d.Clone? {
      ClosingReaches(nodes, dev, ds, d.of);
    }
  }

  /** When no clone is left to come, exactly the family is closed. */
  lemma ClosingEnds(nodes: Nodes, dev: Dev, ds: set<Dev>)
    requires Closing(nodes, dev, ds, {})
    ensures ds == Family(nodes, dev)
  {
    hide InUse, Reached, Closing;
    forall d
      ensures d in ds <==> Reached(nodes, dev, d)
    {
      ClosingReaches(nodes, dev, ds, d);
    }
    assert ds <= InUse(nodes) by { ClosingUse(nodes, dev, ds); }
  }

  lemma ClosingUse(nodes: Nodes, dev: Dev, ds: set<Dev>)
    requires Closing(nodes, dev, ds, {})
    ensures ds <= InUse(nodes)
  {
  }

  lemma UsedBy(nodes: Nodes, d: Dev)
    ensures d in InUse(nodes) <==> exists p :: p in nodes && d in nodes[p].devs
  {
  }

  lemma UseLeft(nodes: Nodes, ds: set<Dev>)
    ensures InUse(ClosedAll(nodes, ds)) == InUse(nodes) - ds
  {
    hide InUse;
    var rest := ClosedAll(nodes, ds);
    forall d
      ensures d in InUse(rest) <==> d in InUse(nodes) - ds
    {
      UsedBy(nodes, d);
      UsedBy(rest, d);
      if d in InUse(nodes) && d !in ds {
        var p :| p in nodes && d in nodes[p].devs;
        assert p in rest && d in rest[p].devs;
      }
    }
  }

  lemma FamilyIs(nodes: Nodes, dev: Dev, d: Dev)
    ensures d in Family(nodes, dev) <==> d in InUse(nodes) && (d == dev || (d.Clone? && d.of in Family(nodes, dev)))
  {
    hide InUse;
    assert d.Clone? && Reached(nodes, dev, d.of) ==> d.of in InUse(nodes);
  }

  /** One clone of dev has been closed with its family, or had no process left. */
  lemma ClosingOne(nodes: Nodes, dev: Dev, ds: set<Dev>, todo: set<Dev>, kid: Dev)
    requires Closing(nodes, dev, ds, todo) && kid.Clone? && kid.of == dev
    ensures Closing(nodes, dev, ds + Family(ClosedAll(nodes, ds), kid), todo - {kid})
  {
    hide ClosedAll, InUse, Family;
    UseLeft(nodes, ds);
    var rest := ClosedAll(nodes, ds);
    var all := ds + Family(rest, kid);
    forall d | d in all
      ensures d in InUse(nodes) && (d == dev || (d.Clone? && d.of in all))
    {
      FamilyIs(rest, kid, d);
    }
    forall d | d in InUse(nodes) && d.Clone? && d.of in all && d !in todo - {kid}
      ensures d in all
    {
      FamilyIs(rest, kid, d);
    }
  }

  lemma LosesTwice(nodes: Nodes, q: int, a: set<Dev>, b: set<Dev>)
    requires q in nodes
    ensures var mid := ClosedAll(nodes, a);
            && (nodes[q].parent.None? ==> (LosesAll(nodes, q, a + b) <==> LosesAll(nodes, q, a) || LosesAll(mid, q, b)))
            && (nodes[q].devs == {} ==> !LosesAll(nodes, q, a + b) && !LosesAll(nodes, q, a) && !LosesAll(mid, q, b))
  {
    var devs := nodes[q].devs;
    if devs - a == {} {
      forall d | d in devs
        ensures d in a
      {
        assert d !in devs - a;
      }
    }
    if devs - a <= b {
      forall d | d in devs
        ensures d in a + b
      {
        assert d in a || d in devs - a;
      }
    }
  }

  /**
   * Every process keeps the devices that are not closed. It is to be detached from then on if it had one
   * and has none left, or waits for a parent that is; none is if it was not before or has a device left.
   */
  lemma ClosedMeans(s: State, held: set<int>, done: set<int>, ds: set<Dev>, p: int)
    requires Inv(s, held, done) && p in s.nodes
    ensures var n, r := s.nodes[p], ClosedAll(s.nodes, ds)[p];
            && (forall d :: d in r.devs <==> d in n.devs && d !in ds)
            && r == n.(devs := r.devs, detach := r.detach)
            && (n.parent.None? ==> (r.detach <==> n.detach || (n.devs != {} && r.devs == {})))
            && (n.parent.Some? ==> n.parent.value in s.nodes && r.detach == ClosedAll(s.nodes, ds)[n.parent.value].detach)
  {
    hide NoDup;
    assert Phased(s.nodes, held, p);
    Emptied(s.nodes[p].devs, ds);
    if s.nodes[p].parent.Some? {
      var q := s.nodes[p].parent.value;
      assert NodeOk(s.nodes, held, p);
      assert Phased(s.nodes, held, q);
      Emptied(s.nodes[q].devs, ds);
    }
  }

  lemma Emptied(devs: set<Dev>, ds: set<Dev>)
    ensures devs - ds == {} <==> devs <= ds
  {
    if devs - ds == {} {
      forall d | d in devs
        ensures d in ds
      {
        assert d !in devs - ds;
      }
    }
  }

  /** Closing one set of devices and then another closes both. */
  lemma ClosedTwice(s: State, held: set<int>, done: set<int>, a: set<Dev>, b: set<Dev>)
    requires Inv(s, held, done)
    ensures ClosedAll(ClosedAll(s.nodes, a), b) == ClosedAll(s.nodes, a + b)
  {
    hide NoDup, LosesAll;
    var x, y := ClosedAll(ClosedAll(s.nodes, a), b), ClosedAll(s.nodes, a + b);
    forall p | p in s.nodes
      ensures x[p] == y[p]
    {
      assert Phased(s.nodes, held, p);
      assert s.nodes[p].devs - a - b == s.nodes[p].devs - (a + b);
      LosesTwice(s.nodes, p, a, b);
      if s.nodes[p].parent.Some? {
        assert Phased(s.nodes, held, s.nodes[p].parent.value);
        LosesTwice(s.nodes, s.nodes[p].parent.value, a, b);
      }
    }
  }

  /** Closing one device for all nodes that have it. */
  lemma ClosedIsAll(nodes: Nodes, dev: Dev, hit: set<int>)
    requires forall p :: p in hit <==> p in nodes && dev in nodes[p].devs
    ensures Closed(nodes, dev, hit) == ClosedAll(nodes, {dev})
  {
    forall p | p in nodes
      ensures Closed(nodes, dev, hit)[p] == ClosedAll(nodes, {dev})[p]
    {
      assert nodes[p].devs - {dev} == {} <==> nodes[p].devs <= {dev};
    }
  }

  function Elems(list: seq<Dev>): set<Dev> { set d | d in list }

  /** Every device in use has its processes on its list, once each, and is a child of the device it was cloned from. */
  ghost predicate Linked(nodes: Nodes, lists: Dev -> seq<int>, clones: Dev -> seq<Dev>) {
    && (forall d :: d in InUse(nodes) ==> NoDup(lists(d)) && forall p :: p in lists(d) <==> p in nodes && d in nodes[p].devs)
    && (forall d :: d in InUse(nodes) && d.Clone? ==> d in clones(d.of))
    && (forall d, k :: k in clones(d) ==> k.Clone? && k.of == d)
  }

  lemma LinkedLeft(nodes: Nodes, ds: set<Dev>, lists: Dev -> seq<int>, clones: Dev -> seq<Dev>)
    requires Linked(nodes, lists, clones)
    ensures Linked(ClosedAll(nodes, ds), lists, clones)
  {
    hide InUse, NoDup;
    UseLeft(nodes, ds);
  }

  lemma NotReached(nodes: Nodes, dev: Dev)
    requires dev !in InUse(nodes)
    ensures ClosedAll(nodes, Family(nodes, dev)) == nodes
  {
    forall d
      ensures !Reached(nodes, dev, d)
    {
      NoneReached(nodes, dev, d);
    }
    assert Family(nodes, dev) == {};
    assert forall p :: p in nodes ==> ClosedAll(nodes, {})[p] == nodes[p];
  }

  lemma {:induction false} NoneReached(nodes: Nodes, dev: Dev, d: Dev)
    requires dev !in InUse(nodes)
    ensures !Reached(nodes, dev, d)
    decreases d
  {
    if d.Clone? {
      NoneReached(nodes, dev, d.of);
    }
  }

  lemma ClosingStarts(nodes: Nodes, dev: Dev, todo: set<Dev>)
    requires dev in InUse(nodes) && forall d :: d in todo ==> d.Clone? && d.of == dev
    requires forall d :: d in InUse(nodes) && d.Clone? && d.of == dev ==> d in todo
    ensures Closing(nodes, dev, {dev}, todo)
  {
    hide InUse;
  }

  /** Before the i-th clone is closed: what its own call needs, and what it will have done. */
  lemma CloseNext(s: State, held: set<int>, done: set<int>, dev: Dev, ds: set<Dev>, todo: set<Dev>,
                  lists: Dev -> seq<int>, clones: Dev -> seq<Dev>, i: nat)
    requires Inv(s, held, done) && Linked(s.nodes, lists, clones) && Closing(s.nodes, dev, ds, todo)
    requires i < |clones(dev)| && todo <= Elems(clones(dev)[i..])
    ensures var rest, kid := ClosedAll(s.nodes, ds), clones(dev)[i];
            && Linked(rest, lists, clones) && |InUse(rest)| < |InUse(s.nodes)|
            && Closing(s.nodes, dev, ds + Family(rest, kid), todo - {kid})
            && todo - {kid} <= Elems(clones(dev)[i + 1..])
            && ClosedAll(rest, Family(rest, kid)) == ClosedAll(s.nodes, ds + Family(rest, kid))
  {
    hide Inv, ClosedAll, InUse, Closing, Reached, Family;
    var kid := clones(dev)[i];
    assert clones(dev)[i..] == [kid] + clones(dev)[i + 1..];
    assert kid in clones(dev);
    LinkedLeft(s.nodes, ds, lists, clones);
    UseLeft(s.nodes, ds);
    FewerInUse(s.nodes, dev, ds, todo);
    ClosingOne(s.nodes, dev, ds, todo, kid);
    ClosedTwice(s, held, done, ds, Family(ClosedAll(s.nodes, ds), kid));
  }

  lemma FewerInUse(nodes: Nodes, dev: Dev, ds: set<Dev>, todo: set<Dev>)
    requires Closing(nodes, dev, ds, todo)
    ensures |InUse(nodes) - ds| < |InUse(nodes)|
  {
    hide InUse;
    assert InUse(nodes) - ds + ds == InUse(nodes);
    assert |InUse(nodes) - ds| + |ds| == |InUse(nodes)|;
  }

  /** A process not yet known is seized, or a running one gets another device. */
  predicate MayAttach(s: State, held: set<int>, done: set<int>, p: int) {
    p !in done && (p in s.nodes ==> p in held && s.nodes[p].initial == 2 && !s.nodes[p].detach)
  }

  function Attached(s: State, p: int, dev: Dev): State {
    var n := if p in s.nodes then s.nodes[p] else Fresh().(initial := 2);
    s.(nodes := s.nodes[p := n.(devs := n.devs + {dev}, detach := false)])
  }

  lemma AttachedInv(s: State, held: set<int>, done: set<int>, p: int, dev: Dev)
    requires Inv(s, held, done) && MayAttach(s, held, done, p)
    ensures Inv(Attached(s, p, dev), held + {p}, done)
  {
    var nodes := Attached(s, p, dev).nodes;
    forall x | x in nodes
      ensures NodeOk(nodes, held + {p}, x) && (Phased(nodes, held + {p}, x))
    {
      if p in s.nodes {
        assert Phased(s.nodes, held, p);
      }
      if x in s.nodes {
        assert NodeOk(s.nodes, held, x);
        assert Phased(s.nodes, held, x);
      }
    }
  }

  // ---- references and lists, as counted ------------------------------------------------------------------

  lemma {:induction false} DistinctCount(list: seq<int>)
    requires NoDup(list)
    ensures |set c | c in list| == |list|
    decreases |list|
  {
    if list != [] {
      var rest := list[1..];
      assert forall i :: 0 <= i < |rest| ==> rest[i] == list[i + 1];
      DistinctCount(rest);
      assert (set c | c in list) == (set c | c in rest) + {list[0]};
    }
  }

  function Children(nodes: Nodes, p: int): set<int> { set c | c in nodes && nodes[c].parent == Some(p) }

  /** The reference count is the own reference plus the number of nodes whose parent p is; those nodes are on its list. */
  lemma ReferenceCount(s: State, held: set<int>, done: set<int>, p: int)
    requires Inv(s, held, done) && p in s.nodes
    ensures s.nodes[p].refcount == (if p in held then 1 else 0) + |Children(s.nodes, p)|
    ensures (set c | c in s.nodes[p].children) == Children(s.nodes, p)
    ensures forall c :: c in Children(s.nodes, p) ==> s.nodes[c].initial == 1
  {
    assert NodeOk(s.nodes, held, p);
    DistinctCount(s.nodes[p].children);
    forall c | c in Children(s.nodes, p)
      ensures c in s.nodes[p].children && s.nodes[c].initial == 1
    {
      assert NodeOk(s.nodes, held, c);
      assert Phased(s.nodes, held, c);
    }
    assert (set c | c in s.nodes[p].children) == Children(s.nodes, p);
  }

  /** A node whose own reference is gone stays exactly as long as children wait for their second event. */
  lemma FreedAtZero(s: State, held: set<int>, done: set<int>, p: int)
    requires Inv(s, held, done) && p in s.nodes && p !in held
    ensures Children(s.nodes, p) != {}
  {
    ReferenceCount(s, held, done, p);
    assert NodeOk(s.nodes, held, p);
  }

  // ---- the tracker ---------------------------------------------------------------------------------------

  function Pid(a: Act): int { a.pid }

  /** The events process c has seen, as its node shows: attached ones need none, running ones have seen both. */
  predicate SeenOf(nodes: Nodes, done: set<int>, roots: set<int>, forked: set<int>, stopped: set<int>, c: int) {
    && (c in nodes && nodes[c].initial == 2 ==> c in roots || (c in forked && c in stopped))
    && (c in nodes && nodes[c].initial != 2 ==>
          c !in roots && (c in forked <==> nodes[c].parent.Some?) && (c in stopped <==> nodes[c].parent.None?))
    && (c in forked || c in stopped || c in roots ==> c in nodes || c in done)
  }

  /** Nothing is done to a process before it is attached or has seen both events. */
  predicate ActsLate(log: seq<Act>, roots: set<int>, forked: set<int>, stopped: set<int>) {
    forall k :: 0 <= k < |log| ==> Pid(log[k]) in roots || (Pid(log[k]) in forked && Pid(log[k]) in stopped)
  }

  ghost predicate Seen(nodes: Nodes, log: seq<Act>, done: set<int>, roots: set<int>, forked: set<int>, stopped: set<int>) {
    (forall c :: SeenOf(nodes, done, roots, forked, stopped, c)) && ActsLate(log, roots, forked, stopped)
  }

  /** From nodes to rest only c changes, and whatever else is freed is done. */
  predicate OnlyChild(nodes: Nodes, rest: Nodes, done: set<int>, c: int) {
    && (forall x :: x in rest && x != c ==> x in nodes && rest[x].initial == nodes[x].initial && rest[x].parent == nodes[x].parent)
    && (forall x :: x in nodes && x !in rest && x != c ==> x in done)
  }

  lemma SeenKeeps(nodes: Nodes, done: set<int>, rest: Nodes, done': set<int>, c: int,
                  roots: set<int>, forked: set<int>, stopped: set<int>, roots': set<int>, forked': set<int>, stopped': set<int>)
    requires forall x :: SeenOf(nodes, done, roots, forked, stopped, x)
    requires OnlyChild(nodes, rest, done', c) && done <= done'
    requires roots' == roots || roots' == roots + {c}
    requires forked' == forked || forked' == forked + {c}
    requires stopped' == stopped || stopped' == stopped + {c}
    requires SeenOf(rest, done', roots', forked', stopped', c)
    ensures forall x :: SeenOf(rest, done', roots', forked', stopped', x)
  {
    forall x
      ensures SeenOf(rest, done', roots', forked', stopped', x)
    {
      assert SeenOf(nodes, done, roots, forked, stopped, x);
    }
  }

  lemma ForkUnfold(s: State, p: int, c: int, ok: set<Dev>)
    ensures c in Forked(s, p, c).nodes
    ensures Fork(s, p, c, ok) ==
            if Forked(s, p, c).nodes[c].initial == 2 then ForkNew(Forked(s, p, c), c, ok) else Forked(s, p, c)
  {
    hide Put, ForkNew;
  }

  /** Forking touches no other process than the child, and frees at most a parent that is done. */
  lemma ForkOnlyChild(s: State, held: set<int>, done: set<int>, p: int, c: int, ok: set<Dev>)
    requires Inv(s, held, done) && MayFork(s, held, done, p, c)
    ensures var r := Fork(s, p, c, ok).nodes;
            && OnlyChild(s.nodes, r, DoneAfterFork(s, done, p), c)
            && (c !in r ==> Detaches(Forked(s, p, c), c, ok))
            && (c in r ==> if c in s.nodes then r[c].initial == 2 else r[c].initial == 1 && r[c].parent == Some(p))
  {
    hide Put, Without, FindNew, ForkNew, Inv, Clones, NoDup, NodeOk, Fork, Forked, Continues;
    ForkUnfold(s, p, c, ok);
    var f, h, d := Forked(s, p, c), HeldAfterFork(s, held, p, c), DoneAfterFork(s, done, p);
    ForkedInv(s, held, done, p, c);
    ForkedNodes(s, held, done, p, c);
    ChildFound(s, held, done, c);
    if f.nodes[c].initial == 2 {
      SettleOnlyChild(f, h, d, c, ok);
    }
  }

  /** Settling a child touches no other process but its parent, which keeps its events or is freed. */
  lemma SettleOnlyChild(s: State, held: set<int>, done: set<int>, c: int, ok: set<Dev>)
    requires Both(s, held, done, c)
    ensures var r := ForkNew(s, c, ok).nodes;
            && (forall x :: x in r && x != c ==> x in s.nodes && r[x].initial == s.nodes[x].initial && r[x].parent == s.nodes[x].parent)
            && (forall x :: x in s.nodes && x !in r && x != c ==> x == s.nodes[c].parent.value && x !in held)
            && (c in r <==> Continues(s.nodes, c, ok)) && (c in r ==> r[c].initial == 2)
  {
    hide Put, Without, ForkNew, Inv, Clones, NoDup, NodeOk, Continues;
    ForkNewSettles(s, held, done, c, ok);
    BothReferenced(s, held, done, c);
    DropRefFacts(s.nodes, held, c);
  }

  lemma StopOnlyChild(s: State, held: set<int>, done: set<int>, c: int, ok: set<Dev>)
    requires Inv(s, held, done) && MayStop(s, held, done, c)
    ensures var r := Stop(s, c, ok).nodes;
            && OnlyChild(s.nodes, r, done, c)
            && (c in r && c !in s.nodes ==> r[c].initial == 1 && r[c].parent.None?)
            && (c in r && c in s.nodes ==> r[c].initial == 2)
            && (c !in s.nodes ==> c in r)
  {
    hide Put, Without, ForkNew, Clones, NoDup;
    if c !in s.nodes {
      StopNew(s, held, done, c, ok);
    } else if s.nodes[c].initial == 2 {
      if s.nodes[c].detach {
        var t := s.(log := s.log + [Detach(c)]);
        LetGoInv(t, held, done, c);
        LetGoOnly(s, held, done, c);
      }
    } else {
      var b := s.(nodes := s.nodes[c := s.nodes[c].(initial := 2)]);
      assert Phased(s.nodes, held, c);
      assert b.nodes[c := b.nodes[c].(initial := 1)] == s.nodes;
      ForkNewSettles(b, held, done, c, ok);
      BothReferenced(b, held, done, c);
      DropRefFacts(b.nodes, held, c);
      assert Stop(s, c, ok) == ForkNew(b, c, ok);
    }
  }

  lemma LetGoOnly(s: State, held: set<int>, done: set<int>, p: int)
    requires Inv(s, held, done) && p in held
    ensures var r := LetGo(s.nodes, p);
            OnlyChild(s.nodes, r, done, p) && (p in r ==> r[p].initial == s.nodes[p].initial && r[p].parent == s.nodes[p].parent)
  {
    hide Without, NoDup;
    assert Phased(s.nodes, held, p);
    assert NodeOk(s.nodes, held, p);
    if s.nodes[p].parent.Some? {
      DropRefFacts(s.nodes, held, p);
    }
  }

  lemma SeenFork(s: State, held: set<int>, done: set<int>, roots: set<int>, forked: set<int>, stopped: set<int>, p: int, c: int, ok: set<Dev>)
    requires Inv(s, held, done) && Seen(s.nodes, s.log, done, roots, forked, stopped) && MayFork(s, held, done, p, c)
    ensures c !in forked
    ensures var r := Fork(s, p, c, ok);
            var d := DoneAfterFork(s, done, p);
            Seen(r.nodes, r.log, if Detaches(Forked(s, p, c), c, ok) then d + {c} else d, roots, forked + {c}, stopped)
  {
    hide Put, Without, ForkNew, Inv, Fork, Forked, Continues, Detaches;
    assert SeenOf(s.nodes, done, roots, forked, stopped, c);
    assert SeenOf(s.nodes, done, roots, forked, stopped, p);
    ForkOnlyChild(s, held, done, p, c, ok);
    ForkInv(s, held, done, p, c, ok);
    var r, d := Fork(s, p, c, ok), DoneAfterFork(s, done, p);
    var d' := if Detaches(Forked(s, p, c), c, ok) then d + {c} else d;
    assert OnlyChild(s.nodes, r.nodes, d', c);
    SeenKeeps(s.nodes, done, r.nodes, d', c, roots, forked, stopped, roots, forked + {c}, stopped);
  }

  lemma SeenStop(s: State, held: set<int>, done: set<int>, roots: set<int>, forked: set<int>, stopped: set<int>, c: int, ok: set<Dev>, done': set<int>)
    requires Inv(s, held, done) && Seen(s.nodes, s.log, done, roots, forked, stopped) && MayStop(s, held, done, c)
    requires done' == (if c in s.nodes && c !in Stop(s, c, ok).nodes then done + {c} else done) || (done' == done + {c} && c in s.nodes)
    ensures var r := Stop(s, c, ok);
            var first := c !in s.nodes || s.nodes[c].initial != 2;
            Seen(r.nodes, r.log, done', roots, forked, if first then stopped + {c} else stopped)
  {
    hide Put, Without, ForkNew, Inv, Stop, Continues;
    assert SeenOf(s.nodes, done, roots, forked, stopped, c);
    StopOnlyChild(s, held, done, c, ok);
    StopInv(s, held, done, c, ok);
    var r := Stop(s, c, ok);
    var first := c !in s.nodes || s.nodes[c].initial != 2;
    SeenKeeps(s.nodes, done, r.nodes, done', c, roots, forked, stopped, roots, forked, if first then stopped + {c} else stopped);
  }

  /** None of the BUG messages is ever printed. */
  lemma NoBugs(s: State, held: set<int>, done: set<int>)
    requires Inv(s, held, done)
    ensures s.bugs == 0
  {
  }

  class Tracker {
    var nodes: Nodes
    var log: seq<Act>
    var bugs: int
    ghost var held: set<int>
    ghost var done: set<int>
    ghost var roots: set<int>
    ghost var forked: set<int>
    ghost var stopped: set<int>

    function Abs(): State
      reads this
    {
      State(nodes, log, bugs)
    }

    ghost predicate Valid()
      reads this
    {
      Inv(Abs(), held, done) && Seen(nodes, log, done, roots, forked, stopped)
    }

    constructor ()
      ensures Valid() && nodes == map[] && log == [] && done == {}
    {
      nodes, log, bugs := map[], [], 0;
      held, done, roots, forked, stopped := {}, {}, {}, {}, {};
    }

    method PutPid(p: int)
      modifies this`nodes, this`bugs
      ensures Abs() == Put(old(Abs()), p)
      decreases |nodes|
    {
      if p !in nodes { return; }
      var n := nodes[p];
      if n.refcount != 1 {
        nodes := nodes[p := n.(refcount := n.refcount - 1)];
        return;
      }
      Smaller(Unlist(nodes, p), p);
      SameSize(nodes, Unlist(nodes, p));
      nodes := Unlist(nodes, p) - {p};
      if n.parent.Some? {
        PutPid(n.parent.value);
      }
      bugs := bugs + if n.children != [] then 1 else 0;
    }

    method DetachPid(p: int)
      modifies this`nodes, this`bugs, this`log
      ensures Abs() == DetachNode(old(Abs()), p)
    {
      log := log + [Detach(p)];
      PutPid(p);
    }

    method SettleChild(c: int, ok: set<Dev>)
      requires c in nodes
      modifies this`nodes, this`bugs, this`log
      ensures Abs() == ForkNew(old(Abs()), c, ok)
    {
      hide Put, Without;
      nodes := Unlist(nodes, c);
      if nodes[c].detach {
        DetachPid(c);
        return;
      }
      if nodes[c].parent.Some? && nodes[c].parent.value in nodes {
        var q := nodes[c].parent.value;
        nodes := nodes[c := nodes[c].(devs := nodes[c].devs + Clones(nodes[q].devs, c, ok))];
        PutPid(q);
        if c in nodes {
          nodes := nodes[c := nodes[c].(parent := None)];
        }
      }
      if c !in nodes || nodes[c].devs == {} {
        DetachPid(c);
      } else {
        log := log + [Cont(c)];
      }
    }

    /** __fork: the parent goes on, the child only if its first stop has been seen. */
    method OnFork(p: int, c: int, ok: set<Dev>)
      requires Valid() && MayFork(Abs(), held, done, p, c)
      modifies this
      ensures Valid() && Abs() == Fork(old(Abs()), p, c, ok) && bugs == 0
      ensures log == old(log) + [Released(old(Abs()), p)] +
                if c !in old(nodes) then [] else if Continues(Forked(old(Abs()), p, c).nodes, c, ok) then [Cont(c)] else [Detach(c)]
      ensures forked == old(forked) + {c} && stopped == old(stopped) && c !in old(forked)
    {
      hide Put, Without, ForkNew, Inv, Continues, Seen;
      ForkInv(Abs(), held, done, p, c, ok);
      SeenFork(Abs(), held, done, roots, forked, stopped, p, c, ok);
      ForkParentPid(p);
      nodes := ForkChild(nodes, p, c);
      ghost var f := Abs();
      if nodes[c].initial == 2 {
        SettleChild(c, ok);
      }
      held, done := HeldAfterFork(old(Abs()), held, p, c), DoneAfterFork(old(Abs()), done, p);
      forked := forked + {c};
      if Detaches(f, c, ok) {
        held, done := held - {c}, done + {c};
      }
      NoBugs(Abs(), held, done);
    }

    method ForkParentPid(p: int)
      modifies this`nodes, this`bugs, this`log
      ensures Abs() == ForkParent(old(Abs()), p)
    {
      hide Put;
      if p !in nodes {
        log, bugs := log + [Detach(p)], bugs + 1;
      } else {
        var detach := nodes[p].detach;
        nodes := nodes[p := nodes[p].(refcount := nodes[p].refcount + 1)];
        if detach {
          DetachPid(p);
        } else {
          log := log + [Cont(p)];
        }
      }
    }

    /** __new_or_interrupt: the first stop of a child keeps it stopped until the FORK has been seen. */
    method OnStop(c: int, ok: set<Dev>)
      requires Valid() && MayStop(Abs(), held, done, c)
      modifies this
      ensures Valid() && Abs() == Stop(old(Abs()), c, ok) && bugs == 0
      ensures log == old(log) +
                if c !in old(nodes) then []
                else if (if old(nodes)[c].initial == 2 then old(nodes)[c].detach else !Continues(old(nodes), c, ok)) then [Detach(c)]
                else [Cont(c)]
      ensures forked == old(forked)
      ensures stopped == if c !in old(nodes) || old(nodes)[c].initial != 2 then old(stopped) + {c} else old(stopped)
    {
      hide Put, Without, ForkNew, Inv, Continues, Seen;
      StopInv(Abs(), held, done, c, ok);
      ghost var first := c !in nodes || nodes[c].initial != 2;
      ghost var goes := c in nodes && (if nodes[c].initial == 2 then nodes[c].detach else !Continues(nodes, c, ok));
      SeenStop(Abs(), held, done, roots, forked, stopped, c, ok, if goes then done + {c} else done) by {
        StopStays(Abs(), held, done, c, ok);
      }
      StopPid(c, ok);
      held, done := if goes then held - {c} else held + {c}, if goes then done + {c} else done;
      assert c in old(held) && !goes ==> held == old(held);
      stopped := if first then stopped + {c} else stopped;
      NoBugs(Abs(), held, done);
    }

    method StopPid(c: int, ok: set<Dev>)
      modifies this`nodes, this`bugs, this`log
      ensures Abs() == Stop(old(Abs()), c, ok)
    {
      hide Put, Without, ForkNew;
      nodes := FindNew(nodes, c);
      var n := nodes[c];
      if n.parent.Some? && n.parent.value in nodes && n.detach != nodes[n.parent.value].detach {
        bugs := bugs + 1;
      }
      if n.initial == 2 {
        if n.detach {
          DetachPid(c);
        } else {
          log := log + [Cont(c)];
        }
        return;
      }
      nodes := nodes[c := n.(initial := n.initial + 1)];
      if nodes[c].initial == 2 {
        SettleChild(c, ok);
      }
    }

    /** ptrace_exited */
    method OnExited(p: int)
      requires Valid() && p in held
      modifies this
      ensures Valid() && Abs() == Put(old(Abs()), p) && log == old(log) && bugs == 0
    {
      hide Put, Without, Inv, Seen;
      LetGoInv(Abs(), held, done, p);
      SeenExited(Abs(), held, done, roots, forked, stopped, p);
      PutPid(p);
      held, done := held - {p}, done + {p};
      NoBugs(Abs(), held, done);
    }

    /** ptrace_detach: every process on the device's list loses it. */
    method OnClose(dev: Dev, list: seq<int>)
      requires Valid() && NoDup(list) && forall p :: p in list <==> p in nodes && dev in nodes[p].devs
      modifies this`nodes
      ensures Valid() && nodes == Closed(old(nodes), dev, set p | p in list) && log == old(log)
    {
      hide Inv, Seen, Unlinked;
      ghost var hit := {};
      ClosedNone(nodes, dev);
      for k := 0 to |list|
        invariant hit == (set p | p in list[..k]) && nodes == Closed(old(nodes), dev, hit)
      {
        assert list[..k + 1] == list[..k] + [list[k]];
        ClosedStep(old(Abs()), held, done, dev, hit, list[k]);
        Unlink(list[k], dev);
        hit := hit + {list[k]};
      }
      assert list[..|list|] == list;
      ClosedInv(old(Abs()), held, done, dev, hit);
      SeenClosed(old(nodes), log, done, roots, forked, stopped, dev, hit);
    }

    /**
     * ptrace_detach with the devices cloned from the closed one: `lists` are the processes and `clones`
     * the child devices of each device, in order. A device whose list is empty is left alone, and so are
     * its clones.
     */
    method OnCloseAll(dev: Dev, lists: Dev -> seq<int>, clones: Dev -> seq<Dev>)
      requires Valid() && Linked(nodes, lists, clones)
      modifies this`nodes
      ensures Valid() && nodes == ClosedAll(old(nodes), Family(old(nodes), dev)) && log == old(log)
      decreases |InUse(nodes)|
    {
      hide Inv, Seen, ClosedAll, InUse, Closing, Linked, Family, Reached;
      UsedBy(nodes, dev);
      if !exists p :: p in nodes && dev in nodes[p].devs {
        NotReached(nodes, dev);
        return;
      }
      CloseFirst(dev, lists, clones);
      ghost var ds, todo := {dev}, Elems(clones(dev));
      var i := 0;
      while i < |clones(dev)|
        invariant i <= |clones(dev)| && Valid() && log == old(log) && nodes == ClosedAll(old(nodes), ds)
        invariant Closing(old(nodes), dev, ds, todo) && todo <= Elems(clones(dev)[i..])
      {
        var kid := clones(dev)[i];
        CloseNext(old(Abs()), held, done, dev, ds, todo, lists, clones, i);
        ds, todo := ds + Family(nodes, kid), todo - {kid};
        OnCloseAll(kid, lists, clones);
        i := i + 1;
      }
      assert todo == {};
      ClosingEnds(old(nodes), dev, ds);
    }

    /** The closed device itself. */
    method CloseFirst(dev: Dev, lists: Dev -> seq<int>, clones: Dev -> seq<Dev>)
      requires Valid() && Linked(nodes, lists, clones) && dev in InUse(nodes)
      modifies this`nodes
      ensures Valid() && nodes == ClosedAll(old(nodes), {dev}) && log == old(log)
      ensures Closing(old(nodes), dev, {dev}, Elems(clones(dev)))
    {
      hide Inv, Seen, ClosedAll, Closed, InUse, Closing;
      OnClose(dev, lists(dev));
      ClosedIsAll(old(nodes), dev, set p | p in lists(dev));
      ClosingStarts(old(nodes), dev, Elems(clones(dev)));
    }

    method Unlink(p: int, dev: Dev)
      requires p in nodes
      modifies this`nodes
      ensures nodes == Unlinked(old(nodes), p, dev)
    {
      var n := nodes[p].(devs := nodes[p].devs - {dev});
      nodes := nodes[p := n];
      if n.devs == {} && !n.detach {
        nodes := nodes[p := n.(detach := true)];
        for k := 0 to |n.children|
          invariant nodes == Told(old(nodes)[p := n.(detach := true)], n.children[..k])
        {
          assert n.children[..k + 1] == n.children[..k] + [n.children[k]];
          if n.children[k] in nodes {
            nodes := nodes[n.children[k] := nodes[n.children[k]].(detach := true)];
          }
        }
        assert n.children[..|n.children|] == n.children;
      }
    }

    /** ptrace_attach for one thread that can be seized. */
    method OnAttach(p: int, dev: Dev)
      requires Valid() && MayAttach(Abs(), held, done, p)
      modifies this
      ensures Valid() && Abs() == Attached(old(Abs()), p, dev)
      ensures p in nodes && nodes[p].initial == 2 && !nodes[p].detach
      ensures nodes[p].devs == (if p in old(nodes) then old(nodes)[p].devs else {}) + {dev} && log == old(log)
      ensures forall x :: x != p ==> (x in nodes <==> x in old(nodes)) && (x in nodes ==> nodes[x] == old(nodes)[x])
    {
      hide Inv, Seen;
      AttachedInv(Abs(), held, done, p, dev);
      SeenAttached(Abs(), done, roots, forked, stopped, p, dev);
      if p !in nodes {
        nodes := nodes[p := Fresh().(initial := 2)];
        roots := roots + {p};
      }
      nodes := nodes[p := nodes[p].(devs := nodes[p].devs + {dev}, detach := false)];
      assert nodes == Attached(old(Abs()), p, dev).nodes;
      held := held + {p};
    }
  }

  /** The children of a list are to be detached too. */
  function Told(nodes: Nodes, list: seq<int>): Nodes {
    map x | x in nodes :: if x in list then nodes[x].(detach := true) else nodes[x]
  }

  /** One process loses a device. */
  function Unlinked(nodes: Nodes, p: int, dev: Dev): Nodes
    requires p in nodes
  {
    var n := nodes[p].(devs := nodes[p].devs - {dev});
    if n.devs == {} && !n.detach then Told(nodes[p := n.(detach := true)], n.children) else nodes[p := n]
  }

  lemma ClosedNone(nodes: Nodes, dev: Dev)
    ensures Closed(nodes, dev, {}) == nodes
  {
    assert forall x :: x in nodes ==> Closed(nodes, dev, {})[x] == nodes[x];
  }

  /** Closing process by process, in any order. */
  lemma ClosedStep(s: State, held: set<int>, done: set<int>, dev: Dev, hit: set<int>, p: int)
    requires Inv(s, held, done) && p in s.nodes && dev in s.nodes[p].devs && p !in hit
    requires forall x :: x in hit ==> x in s.nodes && dev in s.nodes[x].devs
    ensures p in Closed(s.nodes, dev, hit)
    ensures Unlinked(Closed(s.nodes, dev, hit), p, dev) == Closed(s.nodes, dev, hit + {p})
  {
    hide NoDup;
    assert NodeOk(s.nodes, held, p);
    assert Phased(s.nodes, held, p);
    var a, b := Unlinked(Closed(s.nodes, dev, hit), p, dev), Closed(s.nodes, dev, hit + {p});
    forall x | x in s.nodes
      ensures a[x] == b[x]
    {
      assert NodeOk(s.nodes, held, x);
      assert Phased(s.nodes, held, x);
      if x in s.nodes[p].children {
        assert s.nodes[x].parent == Some(p);
      }
    }
  }

  lemma SeenClosed(nodes: Nodes, log: seq<Act>, done: set<int>, roots: set<int>, forked: set<int>, stopped: set<int>, dev: Dev, hit: set<int>)
    requires Seen(nodes, log, done, roots, forked, stopped)
    ensures Seen(Closed(nodes, dev, hit), log, done, roots, forked, stopped)
  {
    forall c
      ensures SeenOf(Closed(nodes, dev, hit), done, roots, forked, stopped, c)
    {
      assert SeenOf(nodes, done, roots, forked, stopped, c);
    }
  }

  lemma SeenAttached(s: State, done: set<int>, roots: set<int>, forked: set<int>, stopped: set<int>, p: int, dev: Dev)
    requires Seen(s.nodes, s.log, done, roots, forked, stopped) && p !in done && (p in s.nodes ==> s.nodes[p].initial == 2)
    ensures var r := Attached(s, p, dev);
            Seen(r.nodes, r.log, done, if p in s.nodes then roots else roots + {p}, forked, stopped)
  {
    assert SeenOf(s.nodes, done, roots, forked, stopped, p);
    SeenKeeps(s.nodes, done, Attached(s, p, dev).nodes, done, p, roots, forked, stopped,
              if p in s.nodes then roots else roots + {p}, forked, stopped);
  }

  lemma SeenExited(s: State, held: set<int>, done: set<int>, roots: set<int>, forked: set<int>, stopped: set<int>, p: int)
    requires Inv(s, held, done) && Seen(s.nodes, s.log, done, roots, forked, stopped) && p in held
    ensures var r := LetGo(s.nodes, p); Seen(r, s.log, done + {p}, roots, forked, stopped)
  {
    hide Without, NoDup, LetGo;
    LetGoOnly(s, held, done, p);
    var r := LetGo(s.nodes, p);
    assert SeenOf(s.nodes, done, roots, forked, stopped, p);
    assert OnlyChild(s.nodes, r, done + {p}, p);
    SeenKeeps(s.nodes, done, r, done + {p}, p, roots, forked, stopped, roots, forked, stopped);
  }

  /** A process that is not let go stays. */
  lemma StopStays(s: State, held: set<int>, done: set<int>, c: int, ok: set<Dev>)
    requires Inv(s, held, done) && MayStop(s, held, done, c)
    ensures var goes := c in s.nodes && (if s.nodes[c].initial == 2 then s.nodes[c].detach else !Continues(s.nodes, c, ok));
            !goes ==> c in Stop(s, c, ok).nodes
  {
    hide Put, Without, ForkNew, Stop, Continues;
    StopInv(s, held, done, c, ok);
  }
}
