/** kernel/bio.c: NBUF buffers on one doubly linked ring through array indices, most recently
    released first; `HEAD` stands for bcache.head. */
module BufferCache {
  import opened Sequences

  const NBUF: nat := 30
  const HEAD: nat := 30

  datatype Buf = Buf(dev: nat, blockno: nat, valid: bool, refcnt: nat)

  predicate Nodes(ring: seq<nat>)
  {
    |ring| >= 1 && ring[0] == HEAD && Distinct(ring) && forall k | 0 <= k < |ring| :: ring[k] <= NBUF
  }

  /** The node after position k of the ring. */
  function After(ring: seq<nat>, k: nat): nat
    requires k < |ring|
  {
    if k + 1 < |ring| then ring[k+1] else ring[0]
  }

  predicate LinkAt(next: seq<nat>, prev: seq<nat>, ring: seq<nat>, k: nat)
    requires |next| == |prev| == NBUF + 1 && Nodes(ring) && k < |ring|
  {
    next[ring[k]] == After(ring, k) && prev[After(ring, k)] == ring[k]
  }

  /** next/prev link exactly the nodes of `ring` in a circle that starts at the head. */
  predicate Linked(next: seq<nat>, prev: seq<nat>, ring: seq<nat>)
  {
    && |next| == |prev| == NBUF + 1 && Nodes(ring)
    && forall k: nat | k < |ring| :: LinkAt(next, prev, ring, k)
  }

  /** The stores that put b right after the head. */
  lemma LinkFront(next: seq<nat>, prev: seq<nat>, ring: seq<nat>, b: nat)
    requires Linked(next, prev, ring) && b < NBUF && b !in ring
    ensures next[HEAD] <= NBUF
    ensures Linked(next[b := next[HEAD]][HEAD := b], prev[b := HEAD][next[HEAD] := b], [HEAD, b] + ring[1..])
  {
    assert LinkAt(next, prev, ring, 0);
    var ring' := [HEAD, b] + ring[1..];
    var next' := next[b := next[HEAD]][HEAD := b];
    var prev' := prev[b := HEAD][next[HEAD] := b];
    assert Nodes(ring') by {
      assert forall k | 2 <= k < |ring'| :: ring'[k] == ring[k-1];
    }
    forall k: nat | k < |ring'|
      ensures LinkAt(next', prev', ring', k)
    {
      if k >= 2 {
        assert LinkAt(next, prev, ring, k - 1);
        assert ring'[k] == ring[k-1] && After(ring', k) == After(ring, k-1);
      }
    }
  }

  /** The stores that take ring[i] out. */
  lemma Unlink(next: seq<nat>, prev: seq<nat>, ring: seq<nat>, i: nat)
    requires Linked(next, prev, ring) && 1 <= i < |ring|
    ensures prev[ring[i]] == ring[i-1] && next[ring[i]] == After(ring, i)
    ensures Linked(next[ring[i-1] := After(ring, i)], prev[After(ring, i) := ring[i-1]], Without(ring, i))
  {
    assert LinkAt(next, prev, ring, i) && LinkAt(next, prev, ring, i - 1);
    WithoutDistinct(ring, i);
    var ring' := Without(ring, i);
    var next' := next[ring[i-1] := After(ring, i)];
    var prev' := prev[After(ring, i) := ring[i-1]];
    forall k: nat | k < |ring'|
      ensures LinkAt(next', prev', ring', k)
    {
      UnlinkAt(next, prev, ring, i, k);
    }
  }

  lemma UnlinkAt(next: seq<nat>, prev: seq<nat>, ring: seq<nat>, i: nat, k: nat)
    requires Linked(next, prev, ring) && 1 <= i < |ring| && k + 1 < |ring|
    requires Nodes(Without(ring, i))
    ensures LinkAt(next[ring[i-1] := After(ring, i)], prev[After(ring, i) := ring[i-1]], Without(ring, i), k)
  {
    var ring' := Without(ring, i);
    if k < i - 1 {
      assert LinkAt(next, prev, ring, k);
      assert ring'[k] == ring[k] && After(ring', k) == ring[k+1];
    } else if k == i - 1 {
      assert ring'[k] == ring[i-1] && After(ring', k) == After(ring, i);
    } else {
      assert LinkAt(next, prev, ring, k + 1);
      assert ring'[k] == ring[k+1] && After(ring', k) == After(ring, k+1);
    }
  }

  // ---- The cache ----

  /** Each cached block has one buffer, except block 0 of device 0, where boot leaves all buffers. */
  predicate Unique(bufs: seq<Buf>)
  {
    forall i, j | 0 <= i < j < |bufs| ::
      bufs[i].dev != 0 || bufs[i].blockno != 0 ==>
        !(bufs[i].dev == bufs[j].dev && bufs[i].blockno == bufs[j].blockno)
  }

  predicate Holds(b: Buf, dev: nat, blockno: nat)
  {
    b.dev == dev && b.blockno == blockno
  }

  /** The buffers as binit leaves them. */
  function BootBufs(): seq<Buf>
  {
    seq(NBUF, _ => Buf(0, 0, false, 0))
  }

  /** The exception is exact: at boot a block has two buffers if and only if it is block 0 of
      device 0, and there Unique, which every operation keeps, says nothing. */
  lemma BootDuplicatesIff(dev: nat, blockno: nat)
    ensures Unique(BootBufs())
    ensures (exists i, j | 0 <= i < j < NBUF ::
               Holds(BootBufs()[i], dev, blockno) && Holds(BootBufs()[j], dev, blockno))
            <==> dev == 0 && blockno == 0
  {
    if dev == 0 && blockno == 0 {
      assert Holds(BootBufs()[0], dev, blockno) && Holds(BootBufs()[1], dev, blockno);
    }
  }

  /** All buffers are on the ring, the later released the nearer to the front. */
  predicate Recency(order: seq<nat>, stamp: seq<nat>, clock: nat)
  {
    && |order| == |stamp| == NBUF
    && (forall i | 0 <= i < |order| :: order[i] < NBUF && stamp[order[i]] < clock)
    && (forall i, j | 0 <= i < j < |order| :: stamp[order[i]] > stamp[order[j]])
    && (forall b: nat | b < NBUF :: b in order)
  }

  lemma EmptyRing(next: seq<nat>, prev: seq<nat>)
    requires |next| == |prev| == NBUF + 1 && next[HEAD] == prev[HEAD] == HEAD
    ensures Linked(next, prev, [HEAD] + [])
  {
  }

  lemma InitialRecency(order: seq<nat>, stamp: seq<nat>)
    requires |order| == NBUF && stamp == seq(NBUF, i => i)
    requires forall i | 0 <= i < NBUF :: order[i] == NBUF - 1 - i
    ensures Recency(order, stamp, NBUF)
  {
    forall b: nat | b < NBUF
      ensures b in order
    {
      assert order[NBUF - 1 - b] == b;
    }
  }

  /** Moving order[i] to the front at time `clock` keeps the order by recency. */
  lemma MoveToFront(order: seq<nat>, stamp: seq<nat>, clock: nat, i: nat)
    requires Recency(order, stamp, clock) && i < |order|
    ensures Recency([order[i]] + Without(order, i), stamp[order[i] := clock], clock + 1)
  {
    var b := order[i];
    var order' := [b] + Without(order, i);
    var stamp' := stamp[b := clock];
    forall k | 1 <= k < |order'|
      ensures stamp'[order'[k]] == stamp[order[if k <= i then k - 1 else k]]
      ensures order'[k] == order[if k <= i then k - 1 else k] && order'[k] != b
    {
    }
    forall c: nat | c < NBUF
      ensures c in order'
    {
      assert c in order;
      var j :| 0 <= j < |order| && order[j] == c;
      assert order'[if j == i then 0 else if j < i then j + 1 else j] == c;
    }
  }

  datatype GetResult = NoBuffers | Hit(b: nat) | Recycled(b: nat)

  class Bcache {
    const bufs: array<Buf>
    const next: array<nat>
    const prev: array<nat>
    /** The buffers from most to least recently released, and the time of each one's release. */
    ghost var order: seq<nat>
    ghost var stamp: seq<nat>
    ghost var clock: nat

    ghost predicate Valid()
      reads this, bufs, next, prev
    {
      && bufs.Length == NBUF && next.Length == NBUF + 1 && prev.Length == NBUF + 1 && next != prev
      && Linked(next[..], prev[..], [HEAD] + order)
      && Recency(order, stamp, clock)
      && Unique(bufs[..])
    }

    /** binit: every buffer is linked in at the front in turn. */
    constructor ()
      ensures Valid() && fresh(bufs) && fresh(next) && fresh(prev)
      ensures bufs[..] == BootBufs()
    {
      hide Linked, Recency;
      bufs := new Buf[NBUF](_ => Buf(0, 0, false, 0));
      next := new nat[NBUF + 1](_ => HEAD);
      prev := new nat[NBUF + 1](_ => HEAD);
      order := [];
      stamp := seq(NBUF, i => i);
      clock := NBUF;
      new;
      EmptyRing(next[..], prev[..]);
      var b := 0;
      while b < NBUF
        invariant 0 <= b <= NBUF && |order| == b
        invariant forall i | 0 <= i < b :: order[i] == b - 1 - i
        invariant Linked(next[..], prev[..], [HEAD] + order)
        invariant stamp == seq(NBUF, i => i) && clock == NBUF
        invariant forall i | 0 <= i < NBUF :: bufs[i] == Buf(0, 0, false, 0)
      {
        LinkIn(b);
        b := b + 1;
      }
      InitialRecency(order, stamp);
    }

    /** The four stores that link b in after the head. */
    method LinkIn(b: nat)
      requires next.Length == NBUF + 1 && prev.Length == NBUF + 1 && next != prev
      requires b < NBUF && b !in order && Linked(next[..], prev[..], [HEAD] + order)
      modifies this`order, next, prev
      ensures order == [b] + old(order) && Linked(next[..], prev[..], [HEAD] + order)
    {
      ghost var ring := [HEAD] + order;
      LinkFront(next[..], prev[..], ring, b);
      next[b] := next[HEAD];
      prev[b] := HEAD;
      prev[next[HEAD]] := b;
      next[HEAD] := b;
      order := [b] + order;
      assert [HEAD, b] + ring[1..] == [HEAD] + order;
    }

    /** The two stores of brelse that take b out of the ring. */
    method LinkOut(b: nat, ghost i: nat)
      requires next.Length == NBUF + 1 && prev.Length == NBUF + 1 && next != prev
      requires i < |order| && order[i] == b && Linked(next[..], prev[..], [HEAD] + order)
      modifies this`order, next, prev
      ensures order == Without(old(order), i) && Linked(next[..], prev[..], [HEAD] + order)
    {
      ghost var ring := [HEAD] + order;
      Unlink(next[..], prev[..], ring, i + 1);
      prev[next[b]] := prev[b];
      next[prev[b]] := next[b];
      order := Without(order, i);
      assert Without(ring, i + 1) == [HEAD] + order;
    }

    /** bget: the buffer already holding the block, or else the least recently released
        buffer that nobody references, or else the "no buffers" panic. */
    method Bget(dev: nat, blockno: nat) returns (r: GetResult)
      requires Valid()
      modifies bufs
      ensures Valid()
      ensures r.Hit? ==>
                && r.b < NBUF && Holds(old(bufs[r.b]), dev, blockno)
                && bufs[..] == old(bufs[..])[r.b := old(bufs[r.b]).(refcnt := old(bufs[r.b]).refcnt + 1)]
      ensures !r.Hit? ==> forall c | 0 <= c < NBUF :: !Holds(old(bufs[c]), dev, blockno)
      ensures r.Recycled? ==>
                && r.b < NBUF && old(bufs[r.b]).refcnt == 0
                && bufs[..] == old(bufs[..])[r.b := Buf(dev, blockno, false, 1)]
                && forall c | 0 <= c < NBUF && old(bufs[c]).refcnt == 0 :: stamp[r.b] <= stamp[c]
      ensures r.NoBuffers? ==>
                bufs[..] == old(bufs[..]) && forall c | 0 <= c < NBUF :: bufs[c].refcnt > 0
    {
      hide Unique;
      ghost var ring := [HEAD] + order;
      assert LinkAt(next[..], prev[..], ring, 0);
      var b := next[HEAD];
      ghost var k := 0;
      while b != HEAD
        invariant 0 <= k <= NBUF && b == After(ring, k)
        invariant forall j | 0 <= j < k :: !Holds(bufs[order[j]], dev, blockno)
        invariant bufs[..] == old(bufs[..])
        decreases NBUF - k
      {
        assert b == order[k];
        if bufs[b].dev == dev && bufs[b].blockno == blockno {
          ghost var was := bufs[..];
          bufs[b] := bufs[b].(refcnt := bufs[b].refcnt + 1);
          SameKeysUnique(was, bufs[..]);
          return Hit(b);
        }
        assert LinkAt(next[..], prev[..], ring, k + 1);
        b := next[b];
        k := k + 1;
      }
      assert k == NBUF;
      assert LinkAt(next[..], prev[..], ring, NBUF);
      NoneHolds(order, stamp, clock, bufs[..], dev, blockno);
      b := prev[HEAD];
      k := NBUF;
      while b != HEAD
        invariant 0 <= k <= NBUF && b == ring[k]
        invariant forall j | k <= j < NBUF :: bufs[order[j]].refcnt > 0
        invariant bufs[..] == old(bufs[..])
        decreases k
      {
        assert b == order[k-1];
        if bufs[b].refcnt == 0 {
          ghost var was := bufs[..];
          bufs[b] := Buf(dev, blockno, false, 1);
          NewKeyUnique(was, b, bufs[b]);
          OldestFree(order, stamp, clock, was, k - 1);
          return Recycled(b);
        }
        assert LinkAt(next[..], prev[..], ring, k - 1);
        b := prev[b];
        k := k - 1;
      }
      AllBusy(order, stamp, clock, bufs[..]);
      return NoBuffers;
    }

    /** brelse: drop a reference; the last one out moves the buffer to the front. */
    method Brelse(b: nat)
      requires Valid() && b < NBUF && bufs[b].refcnt > 0
      modifies this, bufs, next, prev
      ensures Valid()
      ensures bufs[..] == old(bufs[..])[b := old(bufs[b]).(refcnt := old(bufs[b]).refcnt - 1)]
      ensures bufs[b].refcnt > 0 ==> order == old(order) && stamp == old(stamp)
      ensures bufs[b].refcnt == 0 ==>
                && order[0] == b && stamp == old(stamp)[b := old(clock)]
                && forall c | 0 <= c < NBUF && c != b :: stamp[c] < stamp[b]
    {
      hide Unique, Linked;
      ghost var was := bufs[..];
      bufs[b] := bufs[b].(refcnt := bufs[b].refcnt - 1);
      SameKeysUnique(was, bufs[..]);
      if bufs[b].refcnt == 0 {
        assert b in order;
        ghost var i :| 0 <= i < |order| && order[i] == b;
        StampsBelow(order, stamp, clock);
        MoveToFront(order, stamp, clock, i);
        OutOfOrder(order, stamp, clock, i);
        LinkOut(b, i);
        LinkIn(b);
        stamp := stamp[b := clock];
        clock := clock + 1;
      }
    }

    method Bpin(b: nat)
      requires Valid() && b < NBUF
      modifies bufs
      ensures Valid()
      ensures bufs[..] == old(bufs[..])[b := old(bufs[b]).(refcnt := old(bufs[b]).refcnt + 1)]
    {
      hide Unique, Linked, Recency;
      ghost var was := bufs[..];
      bufs[b] := bufs[b].(refcnt := bufs[b].refcnt + 1);
      SameKeysUnique(was, bufs[..]);
    }

    method Bunpin(b: nat)
      requires Valid() && b < NBUF && bufs[b].refcnt > 0
      modifies bufs
      ensures Valid()
      ensures bufs[..] == old(bufs[..])[b := old(bufs[b]).(refcnt := old(bufs[b]).refcnt - 1)]
    {
      hide Unique, Linked, Recency;
      ghost var was := bufs[..];
      bufs[b] := bufs[b].(refcnt := bufs[b].refcnt - 1);
      SameKeysUnique(was, bufs[..]);
    }
  }

  lemma SameKeysUnique(a: seq<Buf>, b: seq<Buf>)
    requires |a| == |b| && Unique(a)
    requires forall i | 0 <= i < |a| :: a[i].dev == b[i].dev && a[i].blockno == b[i].blockno
    ensures Unique(b)
  {
  }

  lemma NewKeyUnique(a: seq<Buf>, k: nat, n: Buf)
    requires k < |a| && Unique(a)
    requires forall i | 0 <= i < |a| :: !Holds(a[i], n.dev, n.blockno)
    ensures Unique(a[k := n])
  {
  }

  /** The free buffer nearest the tail is the least recently released free buffer. */
  lemma OldestFree(order: seq<nat>, stamp: seq<nat>, clock: nat, bufs: seq<Buf>, k: nat)
    requires Recency(order, stamp, clock) && |bufs| == NBUF && k < NBUF
    requires forall j | k < j < NBUF :: bufs[order[j]].refcnt > 0
    ensures forall c: nat | c < NBUF && bufs[c].refcnt == 0 :: stamp[order[k]] <= stamp[c]
  {
    forall c: nat | c < NBUF && bufs[c].refcnt == 0
      ensures stamp[order[k]] <= stamp[c]
    {
      assert c in order;
      var j :| 0 <= j < |order| && order[j] == c;
    }
  }

  lemma NoneHolds(order: seq<nat>, stamp: seq<nat>, clock: nat, bufs: seq<Buf>, dev: nat, blockno: nat)
    requires Recency(order, stamp, clock) && |bufs| == NBUF
    requires forall j | 0 <= j < NBUF :: !Holds(bufs[order[j]], dev, blockno)
    ensures forall c | 0 <= c < NBUF :: !Holds(bufs[c], dev, blockno)
  {
    forall c: nat | c < NBUF
      ensures !Holds(bufs[c], dev, blockno)
    {
      assert c in order;
      var j :| 0 <= j < |order| && order[j] == c;
    }
  }

  lemma AllBusy(order: seq<nat>, stamp: seq<nat>, clock: nat, bufs: seq<Buf>)
    requires Recency(order, stamp, clock) && |bufs| == NBUF
    requires forall j | 0 <= j < NBUF :: bufs[order[j]].refcnt > 0
    ensures forall c | 0 <= c < NBUF :: bufs[c].refcnt > 0
  {
    forall c: nat | c < NBUF
      ensures bufs[c].refcnt > 0
    {
      assert c in order;
      var j :| 0 <= j < |order| && order[j] == c;
    }
  }

  lemma StampsBelow(order: seq<nat>, stamp: seq<nat>, clock: nat)
    requires Recency(order, stamp, clock)
    ensures forall c: nat | c < NBUF :: stamp[c] < clock
  {
    forall c: nat | c < NBUF
      ensures stamp[c] < clock
    {
      assert c in order;
      var j :| 0 <= j < |order| && order[j] == c;
    }
  }

  lemma OutOfOrder(order: seq<nat>, stamp: seq<nat>, clock: nat, i: nat)
    requires Recency(order, stamp, clock) && i < |order|
    ensures order[i] !in Without(order, i)
  {
  }
}
