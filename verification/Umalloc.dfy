/** user/umalloc.c: malloc, free and morecore. */
module Umalloc {
  import opened FreeList

  const MIN_CORE := 4096
  /** sizeof(Header) */
  const UNIT := 16

  /** The block of nbytes bytes, in headers: enough for the bytes and the header itself. */
  function Units(nbytes: nat): (n: nat)
    ensures n >= 1 && (n - 1) * UNIT >= nbytes && (n >= 2 ==> (n - 2) * UNIT < nbytes)
  {
    (nbytes + UNIT - 1) / UNIT + 1
  }

  function Core(nu: nat): nat
  {
    if nu < MIN_CORE then MIN_CORE else nu
  }

  /** What sbrk's int parameter makes of the byte count. */
  function AsInt(bytes: nat): int
  {
    var w := bytes % 0x1_0000_0000;
    if w < 0x8000_0000 then w else w - 0x1_0000_0000
  }

  /** sbrk does not get the count that morecore means. */
  predicate Wraps(nu: nat)
  {
    AsInt(Core(nu) * UNIT) != Core(nu) * UNIT
  }

  /** sbrk gets the count that morecore means exactly when it is below 2^31. */
  lemma SbrkCount(nu: nat)
    requires nu <= 0x1000_0001
    ensures !Wraps(nu) <==> Core(nu) * UNIT < 0x8000_0000
  {
  }

  /** A request for 2 GB shrinks the process instead. */
  lemma HugeRequestShrinks()
    ensures AsInt(Core(Units(0x7fff_ffff)) * UNIT) < 0
  {
  }

  class Allocator {
    var next: map<nat, nat>
    var size: map<nat, nat>
    var freep: nat
    ghost var ring: seq<nat>
    ghost var live: set<nat>
    ghost var owner: map<nat, nat>

    ghost function Img(): Heap
      reads this
    {
      Heap(next, size, freep, ring, live, owner)
    }

    /** Before the first malloc there is no list. */
    ghost predicate Valid()
      reads this
    {
      if freep == 0 then live == {} && owner == map[] else Inv(Img())
    }

    constructor ()
      ensures Valid() && live == {} && owner == map[]
    {
      next, size, freep := map[], map[], 0;
      ring, live, owner := [], {}, map[];
    }

    /** free's loop: the free block p that bp comes right after, or the last one when that is base's
        side of the ring. */
    method FindPlace(bp: nat, ghost t: nat) returns (p: nat)
      requires Inv(Img()) && bp > BASE && Between(Img(), t, bp)
      ensures p == ring[t]
    {
      hide Apart, Partition, LinkAt, Linked, Sizes;
      ghost var h := Img();
      p := freep;
      ghost var k: nat := IndexOf(ring, freep);
      StopsAt(h, k, t, bp);
      while !(bp > p && bp < next[p])
        invariant k < |ring| && p == ring[k] && p in next
        invariant (bp > p && bp < next[p]) || (p >= next[p] && (bp > p || bp < next[p])) <==> k == t
        decreases Dist(k, t, |ring|)
      {
        if p >= next[p] && (bp > p || bp < next[p]) {
          break;
        }
        NextPlace(h, k);
        k := Succ(k, |ring|);
        StopsAt(h, k, t, bp);
        p := next[p];
      }
    }

    /** Put a block back: it is live no longer, no unit is lost, no other live block changes, and no
        two free blocks are adjacent. The list is left at the block or just before it. */
    method Free(ap: nat)
      requires Inv(Img()) && ap >= 1 && ap - 1 in live
      modifies this
      ensures Inv(Img()) && freep != 0 && live == old(live) - {ap - 1} && owner.Keys == old(owner.Keys)
      ensures forall x | x in live :: x in size && x in old(size) && size[x] == old(size)[x]
      ensures ap - 1 in old(size) && freep in size && freep in next && next[freep] in size
      ensures size[freep] >= old(size)[ap - 1] || size[next[freep]] >= old(size)[ap - 1]
    {
      hide Freed, Loose, StoredSize, StoredNext;
      ghost var h := Img();
      var bp := ap - 1;
      ghost var t := LivePlace(h, bp);
      var p := FindPlace(bp, t);
      FreeKeeps(h, t, bp);
      FreedMaps(h, t, bp);
      OthersKeepSize(h, t, bp);
      StoredNear(h, p, bp);
      Link(bp, p);
      ring, live, owner := Freed(h, t, bp).ring, Freed(h, t, bp).live, Freed(h, t, bp).owner;
      freep := p;
      FreepMoves(Freed(h, t, bp), p);
      assert Img() == Freed(h, t, bp).(freep := p);
      NextOf(Img());
    }

    /** free's stores. */
    method Link(bp: nat, p: nat)
      requires Storable(Img(), p, bp)
      modifies this`size, this`next
      ensures size == StoredSize(old(Img()), p, bp) && next == StoredNext(old(Img()), p, bp)
    {
      if bp + size[bp] == next[p] {
        size := size[bp := size[bp] + size[next[p]]];
        next := next[bp := next[next[p]]];
      } else {
        next := next[bp := next[p]];
      }
      if p + size[p] == bp {
        size := size[p := size[p] + size[bp]];
        next := next[p := next[bp]];
      } else {
        next := next[p := bp];
      }
    }

    /** Ask for at least nu units; brk is what sbrk returns, or negative. On success some free block,
        freep's or the next one, has nu units. */
    method Morecore(nu: nat, brk: int) returns (p: nat)
      requires Inv(Img()) && nu >= 1 && (brk >= 0 ==> Fresh(Img(), brk, Core(nu)))
      modifies this
      ensures brk < 0 ==> p == 0 && Img() == old(Img())
      ensures brk >= 0 ==>
                && Inv(Img()) && p == freep && p != 0 && live == old(live)
                && owner.Keys == old(owner.Keys) + Range(brk, Core(nu))
                && (forall x | x in live :: x in size && x in old(size) && size[x] == old(size)[x])
                && p in size && p in next && next[p] in size && (size[p] >= nu || size[next[p]] >= nu)
    {
      hide Loose, Range, Grown, Fresh;
      if brk < 0 {
        return 0;
      }
      ghost var h := Img();
      GrowKeeps(h, brk, Core(nu));
      GrownHas(h, brk, Core(nu));
      var hp: nat := brk;
      size := size[hp := Core(nu)];
      live, owner := Grown(h, hp, Core(nu)).live, Grown(h, hp, Core(nu)).owner;
      GrownFields(h, hp, Core(nu));
      assert Img() == Grown(h, hp, Core(nu));
      Free(hp + 1);
      p := freep;
    }

    /** Take n units from the free block p, after prevp, which has at least that many: all of it, or
        its tail. */
    method Carve(prevp: nat, p: nat, n: nat, ghost k: nat) returns (x: nat)
      requires Inv(Img()) && n >= 1 && k < |ring| && p == ring[k] && p in size && size[p] >= n
      requires prevp == ring[if k == 0 then |ring| - 1 else k - 1]
      modifies this
      ensures Inv(Img()) && freep != 0 && owner.Keys == old(owner.Keys)
      ensures x !in old(live) && live == old(live) + {x} && x in size && size[x] == n
      ensures forall y | y in old(live) :: y in size && y in old(size) && size[y] == old(size)[y]
    {
      hide Loose, Taken, Split, Sizes;
      ghost var h := Img();
      Roomy(h, k, n);
      LinkIn(h, k);
      ghost var g := if size[p] == n then Taken(h, k) else Split(h, k, n);
      CarveFacts(h, k, n);
      x := p;
      if size[p] == n {
        next := next[prevp := next[p]];
      } else {
        size := size[p := size[p] - n];
        x := p + size[p];
        size := size[x := n];
      }
      ring, live, owner := g.ring, g.live, g.owner;
      freep := prevp;
      assert Img() == g.(freep := prevp);
      FreepMoves(g, prevp);
    }

    /** malloc for a number of units, with what sbrk will return if asked. `wild`: nothing fits, and the
        count that morecore would hand to sbrk is not the one it means; the model ends there. */
    method MallocUnits(nunits: nat, brk: int) returns (ap: nat, ghost grew: bool, wild: bool)
      requires Inv(Img()) && freep != 0 && nunits >= 1 && nunits <= 0x1000_0001
      requires brk >= 0 && !Wraps(nunits) ==> Fresh(Img(), brk, Core(nunits))
      modifies this
      ensures Inv(Img()) && freep != 0 && (grew ==> brk >= 0 && !Wraps(nunits))
      ensures owner.Keys == if grew then old(owner.Keys) + Range(brk, Core(nunits)) else old(owner.Keys)
      ensures wild <==> ap == 0 && Wraps(nunits)
      ensures ap == 0 ==> (wild || brk < 0) && !grew && live == old(live)
      ensures ap == 0 ==> forall i: nat | i < |ring| :: ring[i] in size && size[ring[i]] < nunits
      ensures ap != 0 ==>
                ap - 1 !in old(live) && live == old(live) + {ap - 1} && ap - 1 in size && size[ap - 1] == nunits
      ensures forall x | x in old(live) :: x in size && x in old(size) && size[x] == old(size)[x]
    {
      hide Loose, Range, Unfit;
      grew, wild := false, false;
      LiveSizes(Img());
      var prevp := freep;
      ghost var f: nat := IndexOf(ring, freep);
      SearchStart(Img(), f, nunits);
      var p := next[prevp];
      ghost var k: nat, fit: nat := Succ(f, |ring|), 0;
      while true
        invariant Inv(Img()) && freep != 0 && f < |ring| && ring[f] == freep && k < |ring| && p == ring[k]
        invariant prevp == ring[if k == 0 then |ring| - 1 else k - 1] && p in size
        invariant live == old(live) && forall x | x in live :: x in size && x in old(size) && size[x] == old(size)[x]
        invariant !wild && (grew ==> brk >= 0 && !Wraps(nunits))
        invariant owner.Keys == if grew then old(owner.Keys) + Range(brk, Core(nunits)) else old(owner.Keys)
        invariant grew ==> fit < |ring| && ring[fit] in size && size[ring[fit]] >= nunits
        invariant !grew ==> Img() == old(Img())
        invariant Unfit(Img(), f, k, nunits)
        decreases !grew, Dist(k, f, |ring|)
      {
        if size[p] >= nunits {
          var x := Carve(prevp, p, nunits, k);
          return x + 1, grew, false;
        }
        SearchOver(Img(), f, k, nunits);
        if p == freep {
          assert !grew;
          if AsInt(Core(nunits) * UNIT) != Core(nunits) * UNIT {
            return 0, false, true;
          }
          p := Morecore(nunits, brk);
          if p == 0 {
            return 0, false, false;
          }
          grew := true;
          f := IndexOf(ring, freep);
          SearchStart(Img(), f, nunits);
          k := Succ(f, |ring|);
          fit := if size[p] >= nunits then f else k;
        } else {
          k := Succ(k, |ring|);
        }
        prevp := p;
        p := next[p];
      }
    }

    /** A block of at least nbytes bytes besides its header; or 0 when no free block is large enough and
        sbrk refuses, or cannot be given the count (`wild`). The block was not live before, nothing
        else that is live changes, and every unit obtained from sbrk still belongs to exactly one
        block. */
    method Malloc(nbytes: nat, brk: int) returns (ap: nat, ghost grew: bool, wild: bool)
      requires Valid() && nbytes < 0x1_0000_0000
      requires brk >= 0 && !Wraps(Units(nbytes)) ==> Fresh(Img(), brk, Core(Units(nbytes)))
      modifies this
      ensures Valid() && freep != 0 && (grew ==> brk >= 0)
      ensures owner.Keys == if grew then old(owner.Keys) + Range(brk, Core(Units(nbytes))) else old(owner.Keys)
      ensures wild <==> ap == 0 && Core(Units(nbytes)) * UNIT >= 0x8000_0000
      ensures ap == 0 ==> (wild || brk < 0) && !grew && live == old(live)
      ensures ap == 0 ==> forall i: nat | i < |ring| :: ring[i] in size && size[ring[i]] < Units(nbytes)
      ensures ap != 0 ==> ap - 1 !in old(live) && live == old(live) + {ap - 1}
      ensures ap != 0 ==> ap - 1 in size && size[ap - 1] == Units(nbytes) && (size[ap - 1] - 1) * UNIT >= nbytes
      ensures forall x | x in old(live) :: x in size && x in old(size) && size[x] == old(size)[x]
    {
      hide Loose, Range;
      if freep == 0 {
        next, size := next[BASE := BASE], size[BASE := 0];
        freep := BASE;
        ring := [BASE];
        BaseAlone(Img());
      } else {
        LiveSizes(Img());
      }
      SbrkCount(Units(nbytes));
      ap, grew, wild := MallocUnits(Units(nbytes), brk);
    }
  }
}
