/** user/umalloc.c: the free list of the allocator, as a value. Addresses count headers (16 bytes). */
module FreeList {
  /** &base. It lies below everything sbrk returns; 0 is the null pointer. */
  const BASE: nat := 1

  /** s.ptr and s.size of every header written so far, freep, and the history: the free list in address
      order, the blocks handed out, and for every unit obtained from sbrk the block it belongs to. */
  datatype Heap = Heap(
    next: map<nat, nat>, size: map<nat, nat>, freep: nat, ring: seq<nat>, live: set<nat>, owner: map<nat, nat>)

  function Succ(i: nat, n: nat): nat
  {
    if i + 1 < n then i + 1 else 0
  }

  predicate Sizes(h: Heap)
  {
    && |h.ring| >= 1 && h.ring[0] == BASE && BASE in h.size && h.size[BASE] == 0
    && (forall i | 1 <= i < |h.ring| :: h.ring[i] > BASE && h.ring[i] in h.size && h.size[h.ring[i]] >= 1)
    && (forall x | x in h.live :: x in h.size && h.size[x] >= 1 && x > BASE && x !in h.ring)
  }

  /** One ring, in address order: the last block points back to base. */
  predicate Linked(h: Heap)
  {
    forall i: nat | i < |h.ring| :: LinkAt(h.ring, h.next, i)
  }

  predicate LinkAt(ring: seq<nat>, next: map<nat, nat>, i: nat)
    requires i < |ring|
  {
    ring[i] in next && next[ring[i]] == ring[Succ(i, |ring|)]
  }

  /** Block i ends before block j begins, with a gap between unless j is the block after i and i is one
      of the two places given. */
  predicate Apart(h: Heap, a: int, b: int)
    requires Sizes(h)
  {
    forall i, j | 0 <= i < j < |h.ring| ::
      && h.ring[i] + h.size[h.ring[i]] <= h.ring[j]
      && (h.ring[i] + h.size[h.ring[i]] == h.ring[j] ==> j == i + 1 && (i == a || i == b))
  }

  predicate Block(h: Heap, x: nat)
  {
    x in h.live || (x in h.ring && x != BASE)
  }

  predicate Unit(h: Heap, u: nat)
    requires u in h.owner
  {
    var x := h.owner[u];
    Block(h, x) && x in h.size && x <= u < x + h.size[x]
  }

  predicate Owns(h: Heap, x: nat)
    requires x in h.size
  {
    forall u | x <= u < x + h.size[x] :: u in h.owner && h.owner[u] == x
  }

  /** The blocks, free and live, partition the units. */
  ghost predicate Partition(h: Heap)
  {
    && (forall u | u in h.owner :: Unit(h, u))
    && (forall x | Block(h, x) :: x in h.size && Owns(h, x))
  }

  ghost predicate Loose(h: Heap, a: int, b: int)
  {
    Sizes(h) && Linked(h) && Apart(h, a, b) && Partition(h)
  }

  /** The invariant between calls: no two free blocks are adjacent. */
  ghost predicate Inv(h: Heap)
  {
    Loose(h, -1, -1) && h.freep in h.ring
  }

  // ---- Putting a block into the ring ----

  function Spliced(s: seq<nat>, t: nat, x: nat): seq<nat>
    requires t < |s|
  {
    s[..t + 1] + [x] + s[t + 1..]
  }

  lemma SplicedAt(s: seq<nat>, t: nat, x: nat)
    requires t < |s|
    ensures |Spliced(s, t, x)| == |s| + 1 && Spliced(s, t, x)[t + 1] == x
    ensures forall k | 0 <= k <= t :: Spliced(s, t, x)[k] == s[k]
    ensures forall k | t + 1 < k <= |s| :: Spliced(s, t, x)[k] == s[k - 1]
  {
  }

  function Inserted(h: Heap, t: nat, x: nat): Heap
    requires t < |h.ring| && h.ring[t] in h.next
  {
    h.(ring := Spliced(h.ring, t, x), live := h.live - {x}, next := h.next[x := h.next[h.ring[t]]][h.ring[t] := x])
  }

  /** x belongs between ring places t and t + 1. */
  predicate Between(h: Heap, t: nat, x: nat)
  {
    t < |h.ring| && h.ring[t] < x && (t + 1 < |h.ring| ==> x < h.ring[t + 1])
  }

  /** Different blocks do not overlap. */
  lemma BlocksApart(h: Heap, x: nat, y: nat)
    requires Partition(h) && Block(h, x) && Block(h, y) && x in h.size && y in h.size && x < y && h.size[y] >= 1
    ensures x + h.size[x] <= y
  {
    assert Owns(h, x) && Owns(h, y);
    assert y in h.owner && h.owner[y] == y;
  }

  /** x against the blocks of the ring. */
  lemma InsertGaps(h: Heap, t: nat, x: nat, i: nat)
    requires Loose(h, -1, -1) && x in h.live && Between(h, t, x) && i < |h.ring|
    ensures i <= t ==> h.ring[i] + h.size[h.ring[i]] <= x
    ensures i < t ==> h.ring[i] + h.size[h.ring[i]] < x
    ensures i > t ==> x + h.size[x] <= h.ring[i]
    ensures i > t + 1 ==> x + h.size[x] < h.ring[i]
  {
    hide Linked, Owns, Unit;
    if 0 < i <= t {
      BlocksApart(h, h.ring[i], x);
    } else if i > t {
      BlocksApart(h, x, h.ring[t + 1]);
    }
  }

  lemma SplicedHas(s: seq<nat>, t: nat, x: nat, y: nat)
    requires t < |s|
    ensures y in Spliced(s, t, x) <==> y in s || y == x
  {
    var r := Spliced(s, t, x);
    assert r[t + 1] == x;
    if y in s {
      var k :| 0 <= k < |s| && s[k] == y;
      assert r[if k <= t then k else k + 1] == y;
    }
    if y in r {
      var k :| 0 <= k < |r| && r[k] == y;
      assert k == t + 1 || y == s[if k <= t then k else k - 1];
    }
  }

  lemma InsertSizes(h: Heap, t: nat, x: nat)
    requires Loose(h, -1, -1) && x in h.live && Between(h, t, x)
    ensures h.ring[t] in h.next
    ensures Sizes(Inserted(h, t, x))
  {
    hide Partition, Linked, Apart, Spliced;
    LinkOf(h, t);
    SplicedAt(h.ring, t, x);
    var g := Inserted(h, t, x);
    forall y | y in g.live
      ensures y !in g.ring
    {
      SplicedHas(h.ring, t, x, y);
    }
  }

  lemma InsertApart(h: Heap, t: nat, x: nat)
    requires Loose(h, -1, -1) && x in h.live && Between(h, t, x)
    ensures h.ring[t] in h.next
    ensures Sizes(Inserted(h, t, x)) && Apart(Inserted(h, t, x), t, t + 1)
  {
    hide Partition, Linked, Spliced;
    InsertSizes(h, t, x);
    SplicedAt(h.ring, t, x);
    var g := Inserted(h, t, x);
    forall i, j | 0 <= i < j < |g.ring|
      ensures && g.ring[i] + g.size[g.ring[i]] <= g.ring[j]
              && (g.ring[i] + g.size[g.ring[i]] == g.ring[j] ==> j == i + 1 && (i == t || i == t + 1))
    {
      if i == t + 1 {
        InsertGaps(h, t, x, j - 1);
      } else if j == t + 1 {
        InsertGaps(h, t, x, i);
      } else {
        var i', j' := if i <= t then i else i - 1, if j <= t then j else j - 1;
        assert g.ring[i] == h.ring[i'] && g.ring[j] == h.ring[j'];
      }
    }
  }

  /** Address order. */
  lemma Rising(h: Heap, a: int, b: int, i: nat, j: nat)
    requires Sizes(h) && Apart(h, a, b) && i < j < |h.ring|
    ensures h.ring[i] < h.ring[j]
  {
  }

  lemma InsertLink(ring: seq<nat>, next: map<nat, nat>, t: nat, x: nat, k: nat)
    requires t < |ring| && k <= |ring| && x !in ring && forall i, j | 0 <= i < j < |ring| :: ring[i] != ring[j]
    requires LinkAt(ring, next, t) && (k != t + 1 ==> LinkAt(ring, next, if k <= t then k else k - 1))
    ensures |Spliced(ring, t, x)| == |ring| + 1
    ensures LinkAt(Spliced(ring, t, x), next[x := next[ring[t]]][ring[t] := x], k)
  {
    hide Spliced;
    SplicedAt(ring, t, x);
    if k != t + 1 {
      var k' := if k <= t then k else k - 1;
      assert ring[k'] in ring;
    }
  }

  lemma LinkOf(h: Heap, k: nat)
    requires Linked(h) && k < |h.ring|
    ensures LinkAt(h.ring, h.next, k) && h.ring[k] in h.next
  {
  }

  lemma InsertLinked(h: Heap, t: nat, x: nat)
    requires Loose(h, -1, -1) && x in h.live && Between(h, t, x)
    ensures h.ring[t] in h.next && Linked(Inserted(h, t, x))
  {
    hide Partition, Spliced, Apart, LinkAt;
    Distinct(h, -1, -1);
    LinkOf(h, t);
    SplicedAt(h.ring, t, x);
    var g := Inserted(h, t, x);
    forall k: nat | k < |g.ring|
      ensures LinkAt(g.ring, g.next, k)
    {
      InsertLink(h.ring, h.next, t, x, k);
    }
  }

  lemma InsertPartition(h: Heap, t: nat, x: nat)
    requires Loose(h, -1, -1) && x in h.live && Between(h, t, x)
    ensures h.ring[t] in h.next
    ensures Partition(Inserted(h, t, x))
  {
    hide Linked, Apart, Spliced;
    LinkOf(h, t);
    var g := Inserted(h, t, x);
    forall y: nat
      ensures Block(g, y) <==> Block(h, y)
    {
      SplicedHas(h.ring, t, x, y);
    }
    forall u | u in g.owner
      ensures Unit(g, u)
    {
      assert Unit(h, u);
    }
    forall y | Block(g, y)
      ensures y in g.size && Owns(g, y)
    {
      assert Block(h, y) && Owns(h, y);
    }
  }

  lemma InsertKeeps(h: Heap, t: nat, x: nat)
    requires Loose(h, -1, -1) && x in h.live && Between(h, t, x)
    ensures h.ring[t] in h.next
    ensures Loose(Inserted(h, t, x), t, t + 1)
  {
    hide Sizes, Linked, Apart, Partition, Inserted;
    InsertLinked(h, t, x);
    InsertApart(h, t, x);
    InsertPartition(h, t, x);
  }

  // ---- Joining two blocks ----

  function Cut(s: seq<nat>, k: nat): seq<nat>
    requires k < |s|
  {
    s[..k] + s[k + 1..]
  }

  lemma CutAt(s: seq<nat>, k: nat)
    requires k < |s|
    ensures |Cut(s, k)| == |s| - 1
    ensures forall i | 0 <= i < k :: Cut(s, k)[i] == s[i]
    ensures forall i | k <= i < |s| - 1 :: Cut(s, k)[i] == s[i + 1]
  {
  }

  lemma CutHas(s: seq<nat>, k: nat, y: nat)
    requires k < |s| && forall i, j | 0 <= i < j < |s| :: s[i] != s[j]
    ensures y in Cut(s, k) <==> y in s && y != s[k]
  {
    var r := Cut(s, k);
    CutAt(s, k);
    if y in s && y != s[k] {
      var i :| 0 <= i < |s| && s[i] == y;
      assert r[if i < k then i else i - 1] == y;
    }
    if y in r {
      var i :| 0 <= i < |r| && r[i] == y;
      assert y == s[if i < k then i else i + 1];
    }
  }

  predicate Touch(h: Heap, i: nat)
  {
    && i + 1 < |h.ring| && h.ring[i] in h.size && h.ring[i + 1] in h.size && h.ring[i + 1] in h.next
    && h.ring[i] + h.size[h.ring[i]] == h.ring[i + 1]
  }

  /** Block i takes over block i + 1. */
  function Merged(h: Heap, i: nat): Heap
    requires i + 1 < |h.ring| && h.ring[i] in h.size && h.ring[i + 1] in h.size && h.ring[i + 1] in h.next
  {
    var p, q := h.ring[i], h.ring[i + 1];
    h.(ring := Cut(h.ring, i + 1), size := h.size[p := h.size[p] + h.size[q]], next := h.next[p := h.next[q]],
       owner := map u | u in h.owner :: if h.owner[u] == q then p else h.owner[u])
  }

  /** One pair of blocks after joining i and i + 1; k and l are their places before. */
  lemma MergePair(h: Heap, i: nat, a: int, k: nat, l: nat)
    requires Sizes(h) && Linked(h) && Apart(h, a, i) && a < i && 1 <= i && Touch(h, i)
    requires k < l < |h.ring| && k != i + 1 && l != i + 1 && h.ring[i + 1] in h.next
    ensures var g := Merged(h, i);
            && h.ring[k] in g.size && h.ring[k] + g.size[h.ring[k]] <= h.ring[l]
            && (h.ring[k] + g.size[h.ring[k]] == h.ring[l] ==> l == k + 1 && k == a)
  {
    hide Linked, Cut;
    if k < i {
      Rising(h, a, i, k, i);
    } else if k > i {
      Rising(h, a, i, i, k);
    } else {
      assert h.ring[i + 1] + h.size[h.ring[i + 1]] <= h.ring[l];
    }
  }

  lemma MergeApart(h: Heap, i: nat, a: int)
    requires Loose(h, a, i) && a < i && 1 <= i && Touch(h, i)
    ensures h.ring[i + 1] in h.next
    ensures Sizes(Merged(h, i)) && Apart(Merged(h, i), a, -1)
  {
    hide Partition, Linked, Cut, Sizes;
    CutAt(h.ring, i + 1);
    MergeSizes(h, i, a);
    HasSize(h, i);
    HasSize(h, i + 1);
    var g := Merged(h, i);
    forall k, l | 0 <= k < l < |g.ring|
      ensures && g.ring[k] in g.size && g.ring[k] + g.size[g.ring[k]] <= g.ring[l]
              && (g.ring[k] + g.size[g.ring[k]] == g.ring[l] ==> l == k + 1 && k == a)
    {
      MergePair(h, i, a, if k <= i then k else k + 1, if l <= i then l else l + 1);
    }
  }

  lemma MergeSizes(h: Heap, i: nat, a: int)
    requires Loose(h, a, i) && a < i && 1 <= i && Touch(h, i)
    ensures h.ring[i + 1] in h.next
    ensures Sizes(Merged(h, i))
  {
    hide Partition, Linked, Cut, Apart;
    LinkOf(h, i + 1);
    CutAt(h.ring, i + 1);
    Distinct(h, a, i);
    var g := Merged(h, i);
    forall y | y in g.live
      ensures y !in g.ring
    {
      CutHas(h.ring, i + 1, y);
    }
  }

  lemma Distinct(h: Heap, a: int, b: int)
    requires Sizes(h) && Apart(h, a, b)
    ensures forall i, j | 0 <= i < j < |h.ring| :: h.ring[i] != h.ring[j]
  {
    hide Apart, Sizes;
    forall i, j | 0 <= i < j < |h.ring|
      ensures h.ring[i] != h.ring[j]
    {
      Rising(h, a, b, i, j);
    }
  }

  lemma MergeLink(ring: seq<nat>, next: map<nat, nat>, i: nat, k: nat)
    requires i + 1 < |ring| && k + 1 < |ring| && forall i, j | 0 <= i < j < |ring| :: ring[i] != ring[j]
    requires LinkAt(ring, next, i + 1) && LinkAt(ring, next, if k <= i then k else k + 1)
    ensures |Cut(ring, i + 1)| == |ring| - 1
    ensures LinkAt(Cut(ring, i + 1), next[ring[i] := next[ring[i + 1]]], k)
  {
    hide Cut;
    CutAt(ring, i + 1);
  }

  lemma MergeLinked(h: Heap, i: nat, a: int)
    requires Loose(h, a, i) && a < i && 1 <= i && Touch(h, i)
    ensures h.ring[i + 1] in h.next && Linked(Merged(h, i))
  {
    hide Partition, Cut, Apart, LinkAt;
    CutAt(h.ring, i + 1);
    Distinct(h, a, i);
    LinkOf(h, i + 1);
    var g := Merged(h, i);
    forall k: nat | k < |g.ring|
      ensures LinkAt(g.ring, g.next, k)
    {
      MergeLink(h.ring, h.next, i, k);
    }
  }

  lemma MergeBlocks(h: Heap, i: nat, a: int, y: nat)
    requires Loose(h, a, i) && a < i && 1 <= i && Touch(h, i)
    ensures Block(Merged(h, i), y) <==> Block(h, y) && y != h.ring[i + 1]
    ensures Block(h, h.ring[i]) && Block(h, h.ring[i + 1]) && h.ring[i] != h.ring[i + 1]
  {
    hide Linked, Apart, Cut, Partition;
    Distinct(h, a, i);
    CutHas(h.ring, i + 1, y);
    assert h.ring[i] in h.ring && h.ring[i + 1] in h.ring;
  }

  lemma MergeUnit(h: Heap, i: nat, a: int, u: nat)
    requires Loose(h, a, i) && a < i && 1 <= i && Touch(h, i) && u in h.owner
    ensures u in Merged(h, i).owner && Unit(Merged(h, i), u)
  {
    hide Linked, Apart, Cut, Block, Sizes, Owns;
    assert Unit(h, u);
    MergeBlocks(h, i, a, h.owner[u]);
    MergeBlocks(h, i, a, h.ring[i]);
  }

  lemma MergeOwns(h: Heap, i: nat, a: int, y: nat)
    requires Loose(h, a, i) && a < i && 1 <= i && Touch(h, i) && Block(Merged(h, i), y)
    ensures y in Merged(h, i).size && Owns(Merged(h, i), y)
  {
    hide Linked, Apart, Cut, Block, Sizes, Unit;
    MergeBlocks(h, i, a, y);
    assert Owns(h, y) && Owns(h, h.ring[i]) && Owns(h, h.ring[i + 1]);
  }

  lemma MergePartition(h: Heap, i: nat, a: int)
    requires Loose(h, a, i) && a < i && 1 <= i && Touch(h, i)
    ensures h.ring[i + 1] in h.next
    ensures Partition(Merged(h, i))
  {
    hide Loose, Unit, Owns, Block, Cut;
    var g := Merged(h, i);
    forall u | u in g.owner
      ensures Unit(g, u)
    {
      MergeUnit(h, i, a, u);
    }
    forall y | Block(g, y)
      ensures y in g.size && Owns(g, y)
    {
      MergeOwns(h, i, a, y);
    }
  }

  lemma MergeKeeps(h: Heap, i: nat, a: int)
    requires Loose(h, a, i) && a < i && 1 <= i && Touch(h, i)
    ensures h.ring[i + 1] in h.next
    ensures Loose(Merged(h, i), a, -1)
  {
    hide Sizes, Linked, Apart, Partition, Merged;
    MergeLinked(h, i, a);
    MergeApart(h, i, a);
    MergePartition(h, i, a);
  }

  /** A place that is not touching after all. */
  lemma Tighten(h: Heap, i: nat, a: int)
    requires Loose(h, a, i) && !Touch(h, i)
    ensures Loose(h, a, -1)
  {
    hide Partition, LinkAt;
    if i + 1 < |h.ring| { LinkOf(h, i + 1); }
  }

  // ---- What malloc and morecore do to the list ----

  /** A free block that fits exactly leaves the ring. */
  function Taken(h: Heap, k: nat): Heap
    requires 1 <= k < |h.ring| && h.ring[k] in h.next
  {
    h.(ring := Cut(h.ring, k), live := h.live + {h.ring[k]}, next := h.next[h.ring[k - 1] := h.next[h.ring[k]]])
  }

  /** The last n units of a larger free block become a block of their own. */
  function Split(h: Heap, k: nat, n: nat): Heap
    requires k < |h.ring| && h.ring[k] in h.size && 1 <= n < h.size[h.ring[k]]
  {
    var p := h.ring[k];
    var x := p + h.size[p] - n;
    h.(size := h.size[p := h.size[p] - n][x := n], live := h.live + {x},
       owner := map u | u in h.owner :: if x <= u < x + n then x else h.owner[u])
  }

  /** n units from sbrk, as a block. */
  function Grown(h: Heap, x: nat, n: nat): Heap
  {
    h.(size := h.size[x := n], live := h.live + {x},
       owner := map u: nat | u in h.owner.Keys + Range(x, n) :: if x <= u < x + n then x else h.owner[u])
  }

  function Range(x: nat, n: nat): (s: set<nat>)
    ensures forall u: nat :: u in s <==> x <= u < x + n
  {
    if n == 0 then {} else Range(x, n - 1) + {x + n - 1}
  }

  lemma TakeKeeps(h: Heap, k: nat)
    requires Loose(h, -1, -1) && 1 <= k < |h.ring|
    ensures h.ring[k] in h.next && Loose(Taken(h, k), -1, -1) && h.ring[k] !in h.live
  {
    hide Sizes, Linked, Apart, Partition, Taken;
    TakeSizes(h, k);
    TakeApart(h, k);
    TakeLinked(h, k);
    TakePartition(h, k);
  }

  lemma TakeSizes(h: Heap, k: nat)
    requires Loose(h, -1, -1) && 1 <= k < |h.ring|
    ensures h.ring[k] in h.next && h.ring[k] !in h.live && Sizes(Taken(h, k))
  {
    hide Partition, Linked, Cut, Apart;
    LinkOf(h, k);
    CutAt(h.ring, k);
    Distinct(h, -1, -1);
    var g := Taken(h, k);
    assert h.ring[k] in h.ring;
    forall y | y in g.live
      ensures y !in g.ring
    {
      CutHas(h.ring, k, y);
    }
  }

  lemma TakeApart(h: Heap, k: nat)
    requires Loose(h, -1, -1) && 1 <= k < |h.ring| && h.ring[k] in h.next && Sizes(Taken(h, k))
    ensures Apart(Taken(h, k), -1, -1)
  {
    hide Partition, Linked, Cut, Sizes;
    CutAt(h.ring, k);
    var g := Taken(h, k);
    forall i, j | 0 <= i < j < |g.ring|
      ensures g.ring[i] in g.size && g.ring[i] + g.size[g.ring[i]] < g.ring[j]
    {
      var i', j' := if i < k then i else i + 1, if j < k then j else j + 1;
      assert g.ring[i] == h.ring[i'] && g.ring[j] == h.ring[j'];
      HasSize(h, i');
    }
  }

  lemma HasSize(h: Heap, i: nat)
    requires Sizes(h) && i < |h.ring|
    ensures h.ring[i] in h.size
  {
  }

  lemma TakeLinked(h: Heap, k: nat)
    requires Loose(h, -1, -1) && 1 <= k < |h.ring|
    ensures h.ring[k] in h.next && Linked(Taken(h, k))
  {
    hide Partition, Cut, Apart, LinkAt;
    CutAt(h.ring, k);
    Distinct(h, -1, -1);
    LinkOf(h, k);
    var g := Taken(h, k);
    forall j: nat | j < |g.ring|
      ensures LinkAt(g.ring, g.next, j)
    {
      MergeLink(h.ring, h.next, k - 1, j);
    }
  }

  lemma TakePartition(h: Heap, k: nat)
    requires Loose(h, -1, -1) && 1 <= k < |h.ring|
    ensures h.ring[k] in h.next && Partition(Taken(h, k))
  {
    hide Linked, Apart, Cut;
    LinkOf(h, k);
    Distinct(h, -1, -1);
    var g := Taken(h, k);
    assert h.ring[k] in h.ring;
    forall y: nat
      ensures Block(g, y) <==> Block(h, y)
    {
      CutHas(h.ring, k, y);
    }
    forall u | u in g.owner
      ensures Unit(g, u)
    {
      assert Unit(h, u);
    }
    forall y | Block(g, y)
      ensures y in g.size && Owns(g, y)
    {
      assert Block(h, y) && Owns(h, y);
    }
  }

  lemma SplitFresh(h: Heap, k: nat, n: nat)
    requires Loose(h, -1, -1) && 1 <= k < |h.ring| && h.ring[k] in h.size && 1 <= n < h.size[h.ring[k]]
    ensures var x := h.ring[k] + h.size[h.ring[k]] - n; !Block(h, x) && x > BASE && x != h.ring[k]
  {
    hide Linked, Apart;
    var p := h.ring[k];
    var x := p + h.size[p] - n;
    assert Block(h, p) && Owns(h, p);
    assert x in h.owner && h.owner[x] == p;
    if Block(h, x) {
      assert Owns(h, x);
      if x in h.ring {
        var i :| 0 <= i < |h.ring| && h.ring[i] == x;
      }
    }
  }

  lemma SplitKeeps(h: Heap, k: nat, n: nat)
    requires Loose(h, -1, -1) && 1 <= k < |h.ring| && h.ring[k] in h.size && 1 <= n < h.size[h.ring[k]]
    ensures Loose(Split(h, k, n), -1, -1)
  {
    hide Sizes, Linked, Apart, Partition, Split;
    SplitSizes(h, k, n);
    SplitLinked(h, k, n);
    SplitPartition(h, k, n);
  }

  lemma SplitLinked(h: Heap, k: nat, n: nat)
    requires Linked(h) && k < |h.ring| && h.ring[k] in h.size && 1 <= n < h.size[h.ring[k]]
    ensures Linked(Split(h, k, n))
  {
    hide LinkAt;
  }

  lemma SplitSizes(h: Heap, k: nat, n: nat)
    requires Loose(h, -1, -1) && 1 <= k < |h.ring| && h.ring[k] in h.size && 1 <= n < h.size[h.ring[k]]
    ensures Sizes(Split(h, k, n)) && Apart(Split(h, k, n), -1, -1)
  {
    hide Partition, Linked;
    SplitFresh(h, k, n);
    var g := Split(h, k, n);
    var x := h.ring[k] + h.size[h.ring[k]] - n;
    assert h.ring[k] in h.ring && h.ring[0] == BASE;
    forall i | 0 <= i < |g.ring|
      ensures g.ring[i] != x && g.ring[i] in g.size && g.size[g.ring[i]] <= h.size[h.ring[i]]
      ensures i >= 1 ==> g.size[g.ring[i]] >= 1
    {
      assert h.ring[i] in h.ring;
    }
  }

  lemma SplitBlocks(h: Heap, k: nat, n: nat, y: nat)
    requires Loose(h, -1, -1) && 1 <= k < |h.ring| && h.ring[k] in h.size && 1 <= n < h.size[h.ring[k]]
    ensures var x := h.ring[k] + h.size[h.ring[k]] - n;
            && (Block(Split(h, k, n), y) <==> Block(h, y) || y == x)
            && Block(h, h.ring[k]) && !Block(h, x)
  {
    hide Linked, Apart, Partition;
    SplitFresh(h, k, n);
    assert h.ring[k] in h.ring;
  }

  lemma SplitUnit(h: Heap, k: nat, n: nat, u: nat)
    requires Loose(h, -1, -1) && 1 <= k < |h.ring| && h.ring[k] in h.size && 1 <= n < h.size[h.ring[k]]
    requires u in h.owner
    ensures u in Split(h, k, n).owner && Unit(Split(h, k, n), u)
  {
    hide Linked, Apart, Block, Sizes;
    var p := h.ring[k];
    var x := p + h.size[p] - n;
    SplitBlocks(h, k, n, x);
    SplitBlocks(h, k, n, h.owner[u]);
    assert Owns(h, p) && Unit(h, u);
  }

  lemma SplitOwns(h: Heap, k: nat, n: nat, y: nat)
    requires Loose(h, -1, -1) && 1 <= k < |h.ring| && h.ring[k] in h.size && 1 <= n < h.size[h.ring[k]]
    requires Block(Split(h, k, n), y)
    ensures y in Split(h, k, n).size && Owns(Split(h, k, n), y)
  {
    hide Linked, Apart, Unit, Block, Sizes;
    var p := h.ring[k];
    SplitBlocks(h, k, n, y);
    assert Owns(h, p);
    assert Block(h, y) ==> y in h.size && Owns(h, y);
  }

  lemma SplitPartition(h: Heap, k: nat, n: nat)
    requires Loose(h, -1, -1) && 1 <= k < |h.ring| && h.ring[k] in h.size && 1 <= n < h.size[h.ring[k]]
    ensures Partition(Split(h, k, n))
  {
    hide Loose, Unit, Owns, Block;
    var g := Split(h, k, n);
    forall u | u in g.owner
      ensures Unit(g, u)
    {
      SplitUnit(h, k, n, u);
    }
    forall y | Block(g, y)
      ensures y in g.size && Owns(g, y)
    {
      SplitOwns(h, k, n, y);
    }
  }

  predicate Fresh(h: Heap, x: nat, n: nat)
  {
    x > BASE && n >= 1 && forall u | x <= u < x + n :: u !in h.owner
  }

  lemma GrowFresh(h: Heap, x: nat, n: nat)
    requires Loose(h, -1, -1) && Fresh(h, x, n)
    ensures !Block(h, x)
  {
    hide Linked, Apart, Unit;
    assert x !in h.owner;
  }

  lemma GrowSizes(h: Heap, x: nat, n: nat)
    requires Loose(h, -1, -1) && Fresh(h, x, n)
    ensures Sizes(Grown(h, x, n)) && Linked(Grown(h, x, n)) && Apart(Grown(h, x, n), -1, -1)
  {
    hide Partition, LinkAt;
    GrowFresh(h, x, n);
    forall i | 0 <= i < |h.ring|
      ensures h.ring[i] != x
    {
      assert h.ring[i] in h.ring;
    }
  }

  lemma GrowPartition(h: Heap, x: nat, n: nat)
    requires Loose(h, -1, -1) && Fresh(h, x, n)
    ensures Partition(Grown(h, x, n))
  {
    hide Linked, Apart, Range;
    GrowFresh(h, x, n);
    RangeHas(x, n);
    var g := Grown(h, x, n);
    forall u | u in g.owner
      ensures Unit(g, u)
    {
      if !(x <= u < x + n) { assert Unit(h, u); }
    }
    forall y | Block(g, y)
      ensures y in g.size && Owns(g, y)
    {
      if y != x {
        assert Block(h, y) && Owns(h, y);
      }
    }
  }

  lemma RangeHas(x: nat, n: nat)
    ensures forall u: nat :: u in Range(x, n) <==> x <= u < x + n
  {
  }

  lemma GrowKeeps(h: Heap, x: nat, n: nat)
    requires Loose(h, -1, -1) && Fresh(h, x, n)
    ensures Loose(Grown(h, x, n), -1, -1) && !Block(h, x)
  {
    hide Sizes, Linked, Apart, Partition, Grown, Block, Fresh;
    GrowFresh(h, x, n);
    GrowSizes(h, x, n);
    GrowPartition(h, x, n);
  }

  // ---- free as a whole ----

  /** Block i joined with the next one if they touch. */
  function Joined(h: Heap, i: nat): Heap
  {
    if Touch(h, i) then Merged(h, i) else h
  }

  lemma JoinKeeps(h: Heap, i: nat, a: int)
    requires Loose(h, a, i) && a < i && (Touch(h, i) ==> i >= 1)
    ensures Loose(Joined(h, i), a, -1)
  {
    hide Loose, Merged, Touch;
    if Touch(h, i) {
      MergeKeeps(h, i, a);
    } else {
      Tighten(h, i, a);
    }
  }

  /** The list with x put back at place t and joined with the neighbours it touches: free's result,
      apart from freep. */
  function Freed(h: Heap, t: nat, x: nat): Heap
    requires t < |h.ring| && h.ring[t] in h.next
  {
    Joined(Joined(Inserted(h, t, x), t + 1), t)
  }

  lemma FreeKeeps(h: Heap, t: nat, x: nat)
    requires Inv(h) && x in h.live && Between(h, t, x)
    ensures h.ring[t] in h.next && Loose(Freed(h, t, x), -1, -1)
    ensures h.ring[t] in Freed(h, t, x).ring
  {
    hide Loose, Inserted, Joined;
    InsertKeeps(h, t, x);
    var g := Inserted(h, t, x);
    JoinKeeps(g, t + 1, t);
    LooseSwap(Joined(g, t + 1), t);
    PlaceKept(h, t, x);
    if Touch(Joined(g, t + 1), t) {
      NotBase(Joined(g, t + 1), t);
    }
    JoinKeeps(Joined(g, t + 1), t, -1);
  }

  lemma LooseSwap(h: Heap, t: int)
    requires Loose(h, t, -1)
    ensures Loose(h, -1, t)
  {
    hide Linked, Partition;
  }

  /** base, of size 0, touches nothing. */
  lemma NotBase(h: Heap, t: nat)
    requires Loose(h, -1, t) && Touch(h, t)
    ensures t >= 1
  {
    hide Linked, Partition, Apart;
  }

  /** Neither join removes the block at place t. */
  lemma PlaceKept(h: Heap, t: nat, x: nat)
    requires t < |h.ring| && h.ring[t] in h.next
    ensures h.ring[t] in Freed(h, t, x).ring
  {
    hide Spliced, Cut;
    SplicedAt(h.ring, t, x);
    var g := Inserted(h, t, x);
    if Touch(g, t + 1) { CutAt(g.ring, t + 2); }
    var g' := Joined(g, t + 1);
    assert t + 1 < |g'.ring| && g'.ring[t] == h.ring[t];
    if Touch(g', t) { CutAt(g'.ring, t + 1); }
    assert Joined(g', t).ring[t] == h.ring[t];
  }

  predicate Storable(h: Heap, p: nat, x: nat)
  {
    p in h.size && p in h.next && x in h.size && h.next[p] in h.size && h.next[p] in h.next
  }

  /** The sizes and links after free's stores, for block x after free block p. */
  function StoredSize(h: Heap, p: nat, x: nat): map<nat, nat>
    requires Storable(h, p, x)
  {
    var q := h.next[p];
    var size1 := if x + h.size[x] == q then h.size[x := h.size[x] + h.size[q]] else h.size;
    if p + size1[p] == x then size1[p := size1[p] + size1[x]] else size1
  }

  function StoredNext(h: Heap, p: nat, x: nat): map<nat, nat>
    requires Storable(h, p, x)
  {
    var q := h.next[p];
    var size1 := if x + h.size[x] == q then h.size[x := h.size[x] + h.size[q]] else h.size;
    var next1 := h.next[x := if x + h.size[x] == q then h.next[q] else q];
    if p + size1[p] == x then next1[p := next1[x]] else next1[p := x]
  }

  /** They are those of the list that free is meant to leave. */
  lemma FreedMaps(h: Heap, t: nat, x: nat)
    requires Loose(h, -1, -1) && x in h.live && Between(h, t, x) && h.ring[t] in h.next
    ensures Storable(h, h.ring[t], x)
    ensures Freed(h, t, x).size == StoredSize(h, h.ring[t], x) && Freed(h, t, x).next == StoredNext(h, h.ring[t], x)
    ensures var g := Freed(h, t, x); g.live == h.live - {x} && g.freep == h.freep && g.owner.Keys == h.owner.Keys
  {
    hide Spliced, Cut, Partition, Apart;
    SplicedAt(h.ring, t, x);
    LinkOf(h, t);
    LinkOf(h, Succ(t, |h.ring|));
    HasSize(h, Succ(t, |h.ring|));
    Distinct(h, -1, -1);
    var g := Inserted(h, t, x);
    if Touch(g, t + 1) { CutAt(g.ring, t + 2); }
  }

  /** The freed units are found at p or right after it. */
  lemma StoredNear(h: Heap, p: nat, x: nat)
    requires Storable(h, p, x) && p != x
    ensures p in StoredSize(h, p, x) && p in StoredNext(h, p, x)
    ensures || StoredSize(h, p, x)[p] >= h.size[x]
            || (StoredNext(h, p, x)[p] == x && x in StoredSize(h, p, x) && StoredSize(h, p, x)[x] >= h.size[x])
  {
  }

  // ---- Searching ----

  /** How many steps lead from place k to place t of a ring of n. */
  function Dist(k: nat, t: nat, n: nat): int
  {
    if k <= t then t - k else n - k + t
  }

  /** free's loop stops at the place where x belongs, and nowhere else. */
  lemma StopsAt(h: Heap, k: nat, t: nat, x: nat)
    requires Loose(h, -1, -1) && Between(h, t, x) && x > BASE && k < |h.ring|
    ensures h.ring[k] in h.next
    ensures var p := h.ring[k]; var q := h.next[p];
            (x > p && x < q) || (p >= q && (x > p || x < q)) <==> k == t
  {
    hide Partition, Apart;
    LinkOf(h, k);
    if k < t {
      Rising(h, -1, -1, k, t);
      if k + 1 < t { Rising(h, -1, -1, k + 1, t); }
      Rising(h, -1, -1, k, k + 1);
    } else if k > t {
      if t + 1 < k { Rising(h, -1, -1, t + 1, k); }
      if k + 1 < |h.ring| { Rising(h, -1, -1, k, k + 1); }
    } else if k + 1 < |h.ring| {
      Rising(h, -1, -1, k, k + 1);
    }
  }

  /** Every live block belongs somewhere. */
  lemma {:induction false} PlaceOf(h: Heap, x: nat, m: nat) returns (t: nat)
    requires Sizes(h) && 1 <= m <= |h.ring| && x > BASE && x !in h.ring
    requires m < |h.ring| ==> x < h.ring[m]
    ensures Between(h, t, x)
    decreases m
  {
    hide Sizes;
    assert h.ring[m - 1] in h.ring;
    BaseFirst(h);
    if h.ring[m - 1] < x {
      t := m - 1;
    } else {
      t := PlaceOf(h, x, m - 1);
    }
  }

  lemma BaseFirst(h: Heap)
    requires Sizes(h)
    ensures |h.ring| >= 1 && h.ring[0] == BASE
  {
  }

  // ---- Facts for the code ----

  lemma LivePlace(h: Heap, x: nat) returns (t: nat)
    requires Inv(h) && x in h.live
    ensures x > BASE && x in h.size && Between(h, t, x)
  {
    hide Linked, Apart, Partition;
    t := PlaceOf(h, x, |h.ring|);
  }

  lemma IndexOf(s: seq<nat>, x: nat) returns (k: nat)
    requires x in s
    ensures k < |s| && s[k] == x
  {
    k :| k < |s| && s[k] == x;
  }

  lemma NextPlace(h: Heap, k: nat)
    requires Linked(h) && k < |h.ring|
    ensures h.ring[k] in h.next && h.next[h.ring[k]] == h.ring[Succ(k, |h.ring|)]
  {
    assert LinkAt(h.ring, h.next, k);
  }

  /** Joining blocks changes no live block's size. */
  lemma OthersKeepSize(h: Heap, t: nat, x: nat)
    requires Inv(h) && x in h.live && Between(h, t, x) && h.ring[t] in h.next
    ensures forall y | y in h.live && y != x ::
              y in h.size && y in Freed(h, t, x).size && Freed(h, t, x).size[y] == h.size[y]
  {
    hide Linked, Apart, Partition, Freed;
    FreedMaps(h, t, x);
    assert h.ring[t] in h.ring;
  }

  lemma FreepMoves(h: Heap, p: nat)
    requires Loose(h, -1, -1) && p in h.ring
    ensures Inv(h.(freep := p)) && p != 0
  {
    var i := IndexOf(h.ring, p);
    assert i == 0 || h.ring[i] > BASE;
  }

  lemma NextOf(h: Heap)
    requires Inv(h)
    ensures h.freep in h.size && h.freep in h.next && h.next[h.freep] in h.size
  {
    hide Apart, Partition;
    var i := IndexOf(h.ring, h.freep);
    LinkOf(h, i);
    HasSize(h, i);
    HasSize(h, Succ(i, |h.ring|));
  }

  /** What a larger heap keeps of a smaller one. */
  lemma GrownHas(h: Heap, x: nat, n: nat)
    requires Loose(h, -1, -1) && Fresh(h, x, n)
    ensures var g := Grown(h, x, n);
            && x in g.live && x in g.size && g.size[x] == n && x !in h.live && g.live - {x} == h.live
            && (forall y | y in h.live :: y in h.size && y in g.size && g.size[y] == h.size[y])
            && g.owner.Keys == h.owner.Keys + Range(x, n)
  {
    hide Linked, Apart, Partition, Range;
    GrowFresh(h, x, n);
  }

  lemma GrownFields(h: Heap, x: nat, n: nat)
    ensures var g := Grown(h, x, n);
            g == h.(size := h.size[x := n], live := g.live, owner := g.owner)
  {
  }

  /** base alone. */
  lemma BaseAlone(h: Heap)
    requires h.ring == [BASE] && BASE in h.next && h.next[BASE] == BASE && BASE in h.size && h.size[BASE] == 0
    requires h.live == {} && h.owner == map[] && h.freep == BASE
    ensures Inv(h)
  {
  }

  /** No block that malloc's search has passed, from place f on up to place k, has n units. */
  predicate Unfit(h: Heap, f: nat, k: nat, n: nat)
  {
    forall i: nat | i < |h.ring| && Dist(i, f, |h.ring|) > Dist(k, f, |h.ring|) ::
      h.ring[i] in h.size && h.size[h.ring[i]] < n
  }

  lemma LiveSizes(h: Heap)
    requires Inv(h)
    ensures forall x | x in h.live :: x in h.size
  {
    hide Linked, Apart, Partition;
  }

  lemma LinkIn(h: Heap, k: nat)
    requires Inv(h) && k < |h.ring|
    ensures h.ring[k] in h.next
  {
    hide Apart, Partition, Sizes;
    LinkOf(h, k);
  }

  /** Only base is empty. */
  lemma Roomy(h: Heap, k: nat, n: nat)
    requires Inv(h) && k < |h.ring| && h.ring[k] in h.size && h.size[h.ring[k]] >= n >= 1
    ensures k >= 1
  {
    hide Linked, Apart, Partition;
  }

  /** Taking a block, or part of one, for use. */
  lemma CarveFacts(h: Heap, k: nat, n: nat)
    requires Inv(h) && 1 <= k < |h.ring| && h.ring[k] in h.size && h.size[h.ring[k]] >= n >= 1 && h.ring[k] in h.next
    ensures var p := h.ring[k];
            var x := p + h.size[p] - n;
            var g := if h.size[p] == n then Taken(h, k) else Split(h, k, n);
            && Loose(g, -1, -1) && x !in h.live && g.live == h.live + {x} && h.ring[k - 1] in g.ring
            && g.owner.Keys == h.owner.Keys && g.freep == h.freep && x in g.size && g.size[x] == n
            && (h.size[p] == n ==> g.size == h.size && g.next == h.next[h.ring[k - 1] := h.next[p]])
            && (h.size[p] != n ==> g.size == h.size[p := h.size[p] - n][x := n] && g.next == h.next)
            && (forall y | y in h.live :: y in h.size && y in g.size && g.size[y] == h.size[y])
  {
    hide Linked, Apart, Partition, Cut;
    var p := h.ring[k];
    assert p in h.ring && h.ring[k - 1] in h.ring;
    CutAt(h.ring, k);
    if h.size[p] == n {
      TakeKeeps(h, k);
      assert Taken(h, k).ring[k - 1] == h.ring[k - 1];
    } else {
      SplitKeeps(h, k, n);
      SplitFresh(h, k, n);
    }
  }

  lemma SearchStart(h: Heap, f: nat, n: nat)
    requires Inv(h) && f < |h.ring|
    ensures var k := Succ(f, |h.ring|);
            && k < |h.ring| && h.ring[f] in h.next && h.next[h.ring[f]] == h.ring[k] && h.ring[k] in h.size
            && Unfit(h, f, k, n) && f == if k == 0 then |h.ring| - 1 else k - 1
  {
    hide Apart, Partition;
    NextPlace(h, f);
    HasSize(h, Succ(f, |h.ring|));
  }

  /** Block k is too small as well: the search is over if it has come round, and goes on otherwise. */
  lemma SearchOver(h: Heap, f: nat, k: nat, n: nat)
    requires Inv(h) && f < |h.ring| && k < |h.ring| && Unfit(h, f, k, n) && h.ring[k] in h.size && h.size[h.ring[k]] < n
    ensures h.ring[k] == h.ring[f] <==> k == f
    ensures k == f ==> forall i: nat | i < |h.ring| :: h.ring[i] in h.size && h.size[h.ring[i]] < n
    ensures k != f ==>
              && var k' := Succ(k, |h.ring|);
                 && k' < |h.ring| && h.ring[k] in h.next && h.next[h.ring[k]] == h.ring[k'] && h.ring[k'] in h.size
                 && Unfit(h, f, k', n) && Dist(k', f, |h.ring|) < Dist(k, f, |h.ring|) && Dist(k', f, |h.ring|) >= 0
                 && k == if k' == 0 then |h.ring| - 1 else k' - 1
  {
    hide Apart, Partition;
    Distinct(h, -1, -1);
    NextPlace(h, k);
    HasSize(h, Succ(k, |h.ring|));
  }
}
