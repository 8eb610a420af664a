/** A binary min-heap of indices ordered by a key, in place on an array. */
module MinHeap {

  function Parent(i: nat): nat
    requires i > 0
  {
    (i - 1) / 2
  }

  /** All entries are indices of key. */
  predicate Keyed(h: seq<nat>, key: seq<int>) {
    forall i :: 0 <= i < |h| ==> h[i] < |key|
  }

  /** Every entry whose parent is at lo or behind is no smaller than its parent. */
  predicate HeapFrom(h: seq<nat>, key: seq<int>, lo: nat)
    requires Keyed(h, key)
  {
    forall i :: 0 < i < |h| && lo <= Parent(i) ==> key[h[Parent(i)]] <= key[h[i]]
  }

  /** The root of a heap has the smallest key. */
  lemma {:induction false} RootIsLeast(h: seq<nat>, key: seq<int>, i: nat)
    requires Keyed(h, key) && HeapFrom(h, key, 0) && i < |h|
    ensures key[h[0]] <= key[h[i]]
  {
    if i > 0 {
      RootIsLeast(h, key, Parent(i));
    }
  }

  /** Ordered from lo on, except that the entry at pos may be larger than its children. */
  predicate HoleAt(h: seq<nat>, key: seq<int>, lo: nat, pos: nat)
    requires Keyed(h, key) && lo <= pos
  {
    && (forall i :: 0 < i < |h| && lo <= Parent(i) && Parent(i) != pos ==> key[h[Parent(i)]] <= key[h[i]])
    && (forall i :: 0 < i < |h| && Parent(i) == pos && pos > lo && lo <= Parent(pos) ==> key[h[Parent(pos)]] <= key[h[i]])
  }

  /** Where the smaller child of pos is, or pos itself when no child is smaller. */
  function SmallestOf(h: seq<nat>, key: seq<int>, pos: nat): (c: nat)
    requires Keyed(h, key) && pos < |h|
    ensures c < |h| && (c == pos || (c > pos && Parent(c) == pos && key[h[c]] < key[h[pos]]))
    ensures forall i :: 0 < i < |h| && Parent(i) == pos ==> key[h[c]] <= key[h[i]]
  {
    var l, r := 2 * pos + 1, 2 * pos + 2;
    var c := if l < |h| && key[h[l]] < key[h[pos]] then l else pos;
    if r < |h| && key[h[r]] < key[h[c]] then r else c
  }

  lemma SwapKeeps(h: seq<nat>, key: seq<int>, lo: nat, pos: nat, c: nat)
    requires Keyed(h, key) && lo <= pos < |h| && HoleAt(h, key, lo, pos)
    requires c < |h| && c > pos && Parent(c) == pos && key[h[c]] < key[h[pos]]
    requires forall i :: 0 < i < |h| && Parent(i) == pos ==> key[h[c]] <= key[h[i]]
    ensures var g := h[pos := h[c]][c := h[pos]];
            Keyed(g, key) && HoleAt(g, key, lo, c) && multiset(g) == multiset(h)
  {
    var g := h[pos := h[c]][c := h[pos]];
    SwapMultiset(h, pos, c);
    forall i | 0 < i < |g| && lo <= Parent(i) && Parent(i) != c
      ensures key[g[Parent(i)]] <= key[g[i]]
    {
      if Parent(i) == pos {
      } else if i == pos {
        assert key[h[Parent(pos)]] <= key[h[c]];
      } else {
        assert key[h[Parent(i)]] <= key[h[i]];
      }
    }
  }

  lemma SwapMultiset(h: seq<nat>, i: nat, j: nat)
    requires i < j < |h|
    ensures multiset(h[i := h[j]][j := h[i]]) == multiset(h)
  {
    assert h == h[..i] + [h[i]] + h[i + 1..j] + [h[j]] + h[j + 1..];
    assert h[i := h[j]][j := h[i]] == h[..i] + [h[j]] + h[i + 1..j] + [h[i]] + h[j + 1..];
  }

  /** Moves the entry at pos down until the heap is ordered from pos on. */
  method SiftDown(a: array<nat>, nr: nat, key: seq<int>, pos: nat)
    requires pos < nr <= a.Length && Keyed(a[..nr], key) && HeapFrom(a[..nr], key, pos + 1)
    modifies a
    ensures Keyed(a[..nr], key) && HeapFrom(a[..nr], key, pos)
    ensures multiset(a[..nr]) == multiset(old(a[..nr]))
  {
    var i := pos;
    while true
      invariant pos <= i < nr && Keyed(a[..nr], key) && HoleAt(a[..nr], key, pos, i)
      invariant multiset(a[..nr]) == multiset(old(a[..nr]))
      decreases nr - i
    {
      ghost var h := a[..nr];
      var c := SmallestOf(a[..nr], key, i);
      if c == i { return; }
      SwapKeeps(h, key, pos, i, c);
      a[i], a[c] := a[c], a[i];
      assert a[..nr] == h[i := h[c]][c := h[i]];
      i := c;
    }
  }

  /** min_heapify_all */
  method Heapify(a: array<nat>, nr: nat, key: seq<int>)
    requires nr <= a.Length && Keyed(a[..nr], key)
    modifies a
    ensures Keyed(a[..nr], key) && HeapFrom(a[..nr], key, 0)
    ensures multiset(a[..nr]) == multiset(old(a[..nr]))
  {
    var i := nr / 2;
    while i > 0
      invariant 0 <= i <= nr / 2 && Keyed(a[..nr], key) && HeapFrom(a[..nr], key, i)
      invariant multiset(a[..nr]) == multiset(old(a[..nr]))
    {
      i := i - 1;
      SiftDown(a, nr, key, i);
    }
  }

  /** min_heap_pop: the last entry replaces the root and sinks. */
  method Pop(a: array<nat>, nr: nat, key: seq<int>)
    requires 0 < nr <= a.Length && Keyed(a[..nr], key) && HeapFrom(a[..nr], key, 1)
    modifies a
    ensures Keyed(a[..nr - 1], key) && HeapFrom(a[..nr - 1], key, 0)
    ensures multiset(a[..nr - 1]) == multiset(old(a[..nr])) - multiset{old(a[0])}
  {
    ghost var h := a[..nr];
    LastToRoot(h, key);
    a[0] := a[nr - 1];
    assert a[..nr - 1] == h[0 := h[nr - 1]][..nr - 1];
    if nr > 1 {
      SiftDown(a, nr - 1, key, 0);
    }
  }

  /** The last entry takes the root's place. */
  lemma LastToRoot(h: seq<nat>, key: seq<int>)
    requires h != [] && Keyed(h, key) && HeapFrom(h, key, 1)
    ensures var g := h[0 := h[|h| - 1]][..|h| - 1];
            Keyed(g, key) && HeapFrom(g, key, 1) && multiset(g) == multiset(h) - multiset{h[0]}
  {
    var g := h[0 := h[|h| - 1]][..|h| - 1];
    WithoutFirst(h, g);
    forall i | 0 < i < |g| && 1 <= Parent(i)
      ensures key[g[Parent(i)]] <= key[g[i]]
    {
      assert key[h[Parent(i)]] <= key[h[i]];
    }
  }

  lemma WithoutFirst(h: seq<nat>, g: seq<nat>)
    requires h != [] && g == h[0 := h[|h| - 1]][..|h| - 1]
    ensures multiset(g) == multiset(h) - multiset{h[0]}
  {
    var n := |h| - 1;
    if n == 0 {
      assert h == [h[0]];
    } else {
      assert h == [h[0]] + h[1..n] + [h[n]];
      assert g == [h[n]] + h[1..n];
      LastFirst(h[0], h[1..n], h[n]);
    }
  }

  lemma LastFirst(first: nat, middle: seq<nat>, last: nat)
    ensures multiset([last] + middle) == multiset([first] + middle + [last]) - multiset{first}
  {
  }
}
