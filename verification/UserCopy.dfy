/** kernel/vm.c walkaddr, copyin, copyout and copyinstr: page-by-page copies, seen as reads and writes of
    one flat range of user bytes. A page table is the finite map that module PageTable shows it to be. */
module UserCopy {
  import opened Disk
  import opened PageTable
  import AddressSpaces

  type Page = p: seq<byte> | |p| == 4096 witness seq(4096, _ => 0)

  /** The bytes of every physical page, and the leaf PTE of every mapped page. */
  datatype Mem = Mem(ram: map<nat, Page>, ptes: map<nat, nat>)

  /** PTE_U and PTE_W of a PTE. */
  predicate UserBit(pte: nat) { pte / 16 % 2 == 1 }

  predicate WriteBit(pte: nat) { pte / 4 % 2 == 1 }

  /** Page v may be read, or written, on behalf of the user. */
  predicate PageOk(m: Mem, v: nat, write: bool)
  {
    && v < MAXVPN && v in m.ptes && Valid(m.ptes[v]) && UserBit(m.ptes[v]) && (write ==> WriteBit(m.ptes[v]))
    && Ppn(m.ptes[v]) in m.ram
  }

  /** The virtual page of an address, and the place in it. */
  function Vpn(va: nat): nat { va / PGSIZE }

  function Offset(va: nat): (o: nat)
    ensures o < PGSIZE
  {
    va % PGSIZE
  }

  /** The user byte at an address. */
  function ByteAt(m: Mem, va: nat): byte
    requires PageOk(m, Vpn(va), false)
  {
    m.ram[Ppn(m.ptes[Vpn(va)])][Offset(va)]
  }

  /** No two user pages share a physical page; ProcSpaceUnshared proves it of all of xv6's. */
  ghost predicate Unshared(m: Mem)
  {
    forall v, w | PageOk(m, v, false) && PageOk(m, w, false) && v != w :: Ppn(m.ptes[v]) != Ppn(m.ptes[w])
  }

  /** The address space of page table root in vm, over any contents of memory. */
  ghost function SpaceOf(vm: Vm, root: nat, ram: map<nat, Page>): Mem
    requires root in vm.trees
  {
    Mem(ram, map v: nat | v < MAXVPN && Leaf(vm, root, v) != 0 :: Leaf(vm, root, v))
  }

  /** Page tables as the kernel keeps them share no user page: below USERTOP each physical page is one
      user page, and the two pages above are not the user's. */
  lemma UserSpaceUnshared(vm: Vm, root: nat, tf: nat, tramp: nat, ram: map<nat, Page>)
    requires Inv(vm) && AddressSpaces.TopPages(vm, root, tf, tramp) && !UserBit(tf) && !UserBit(tramp)
    ensures Unshared(SpaceOf(vm, root, ram))
  {
    hide Leaf, Valid, UserBit, WriteBit, Ppn, Books, Trees;
    var m := SpaceOf(vm, root, ram);
    forall v: nat, w: nat | PageOk(m, v, false) && PageOk(m, w, false) && v != w
      ensures Ppn(m.ptes[v]) != Ppn(m.ptes[w])
    {
      assert v < USERTOP && w < USERTOP;
      assert UserLeaf(vm, root, v) && UserLeaf(vm, root, w);
    }
  }

  /** The PTEs that proc_pagetable gives those two pages are not the user's. */
  lemma TopsNotUser(p: nat)
    ensures !UserBit(Pte(p, OrV(PTE_R + PTE_W))) && !UserBit(Pte(p, OrV(PTE_R + PTE_X)))
  {
    assert (p * 1024 + 7) / 16 == p * 64 && (p * 1024 + 11) / 16 == p * 64;
  }

  /** So an address space that proc_pagetable made, whatever user memory it has, is unshared. */
  lemma ProcSpaceUnshared(vm: Vm, root: nat, tf: nat, trampoline: nat, ram: map<nat, Page>)
    requires Inv(vm)
    requires AddressSpaces.TopPages(vm, root, Pte(tf, OrV(PTE_R + PTE_W)), Pte(trampoline, OrV(PTE_R + PTE_X)))
    ensures Unshared(SpaceOf(vm, root, ram))
  {
    hide Pte, OrV, UserBit, Unshared, SpaceOf, Leaf;
    TopsNotUser(tf);
    TopsNotUser(trampoline);
    UserSpaceUnshared(vm, root, Pte(tf, OrV(PTE_R + PTE_W)), Pte(trampoline, OrV(PTE_R + PTE_X)), ram);
  }

  /** How many of the n bytes from va on can be accessed before the first that cannot. */
  function Reach(m: Mem, va: nat, n: nat, write: bool): (k: nat)
    ensures k <= n && (k < n ==> !PageOk(m, Vpn(va + k), write))
    ensures forall a: nat | va <= a < va + k :: PageOk(m, Vpn(a), write)
    decreases n
  {
    if n == 0 || !PageOk(m, Vpn(va), write) then 0 else Reach(m, va + 1, n - 1, write) + 1
  }

  /** The bytes of one accessible page count together. */
  lemma {:induction false} ReachPage(m: Mem, va: nat, n: nat, c: nat, write: bool)
    requires c <= n && Offset(va) + c <= PGSIZE && (c > 0 ==> PageOk(m, Vpn(va), write))
    ensures Reach(m, va, n, write) == c + Reach(m, va + c, n - c, write)
    decreases c
  {
    if c > 0 {
      if c > 1 { SamePage(va, 1); }
      ReachPage(m, va + 1, n - 1, c - 1, write);
    }
  }

  lemma SamePage(va: nat, c: nat)
    requires Offset(va) + c < PGSIZE
    ensures Vpn(va + c) == Vpn(va) && Offset(va + c) == Offset(va) + c
  {
  }

  /** How many bytes from va on a copy takes in one page. */
  function Chunk(va: nat, len: nat): (c: nat)
    ensures c <= len && Offset(va) + c <= PGSIZE && (len > 0 ==> c > 0)
    ensures c < len ==> Offset(va + c) == 0 && Vpn(va + c) == Vpn(va) + 1
  {
    var n := PGSIZE - Offset(va);
    if n > len then len else n
  }

  /** The user bytes from va on, up to va + k. */
  predicate Bytes(m: Mem, va: nat, k: nat, s: seq<byte>)
  {
    |s| == k && forall a: nat | va <= a < va + k :: PageOk(m, Vpn(a), false) && s[a - va] == ByteAt(m, a)
  }

  /** A piece of one page is the user bytes there. */
  lemma PieceIs(m: Mem, va: nat, c: nat)
    requires PageOk(m, Vpn(va), false) && Offset(va) + c <= PGSIZE
    ensures Bytes(m, va, c, m.ram[Ppn(m.ptes[Vpn(va)])][Offset(va)..Offset(va) + c])
  {
    hide Ppn, Vpn, Offset;
    OffsetFits(va);
    var p := m.ram[Ppn(m.ptes[Vpn(va)])][Offset(va)..Offset(va) + c];
    forall a: nat | va <= a < va + c
      ensures PageOk(m, Vpn(a), false) && p[a - va] == ByteAt(m, a)
    {
      SamePage(va, a - va);
    }
  }

  lemma OffsetFits(va: nat)
    ensures Offset(va) < PGSIZE
  {
  }

  lemma BytesJoin(m: Mem, va: nat, s: seq<byte>, t: seq<byte>)
    requires Bytes(m, va, |s|, s) && Bytes(m, va + |s|, |t|, t)
    ensures Bytes(m, va, |s| + |t|, s + t)
  {
    hide PageOk, ByteAt, Vpn;
    forall a: nat | va <= a < va + |s| + |t|
      ensures PageOk(m, Vpn(a), false) && (s + t)[a - va] == ByteAt(m, a)
    {
      if a >= va + |s| {
        assert (s + t)[a - va] == t[a - (va + |s|)];
      }
    }
  }

  /** m' is m with s written at user address va: those bytes and no other user byte, and no page that is
      not a writable user page. */
  ghost predicate Wrote(m: Mem, m': Mem, va: nat, s: seq<byte>)
  {
    && m'.ptes == m.ptes && m'.ram.Keys == m.ram.Keys
    && (forall a: nat | PageOk(m, Vpn(a), false) ::
          ByteAt(m', a) == if va <= a < va + |s| then s[a - va] else ByteAt(m, a))
    && (forall p | p in m.ram && (forall v | PageOk(m, v, true) :: Ppn(m.ptes[v]) != p) :: m'.ram[p] == m.ram[p])
  }

  /** memmove of c bytes into the page of va. */
  function Patched(m: Mem, va: nat, s: seq<byte>): Mem
    requires PageOk(m, Vpn(va), true) && Offset(va) + |s| <= PGSIZE
  {
    var p := Ppn(m.ptes[Vpn(va)]);
    var o := Offset(va);
    m.(ram := m.ram[p := m.ram[p][..o] + s + m.ram[p][o + |s|..]])
  }

  lemma WithinPage(va: nat, c: nat, a: nat)
    requires Offset(va) + c <= PGSIZE && va <= a < va + c
    ensures Vpn(a) == Vpn(va)
  {
    SamePage(va, a - va);
  }

  lemma PatchByte(m: Mem, va: nat, s: seq<byte>, a: nat)
    requires PageOk(m, Vpn(va), true) && Offset(va) + |s| <= PGSIZE && Unshared(m) && PageOk(m, Vpn(a), false)
    ensures ByteAt(Patched(m, va, s), a) == if va <= a < va + |s| then s[a - va] else ByteAt(m, a)
  {
    hide Ppn, Valid, UserBit, WriteBit;
    var o := Offset(va);
    if va <= a < va + |s| { WithinPage(va, |s|, a); }
    if Vpn(a) == Vpn(va) { assert a - va == Offset(a) - o; }
  }

  lemma PatchWrote(m: Mem, va: nat, s: seq<byte>)
    requires PageOk(m, Vpn(va), true) && Offset(va) + |s| <= PGSIZE && Unshared(m)
    ensures Wrote(m, Patched(m, va, s), va, s)
  {
    hide Offset, Vpn, Unshared;
    forall a: nat | PageOk(m, Vpn(a), false)
      ensures ByteAt(Patched(m, va, s), a) == if va <= a < va + |s| then s[a - va] else ByteAt(m, a)
    {
      PatchByte(m, va, s, a);
    }
  }

  lemma WroteTwice(m: Mem, m1: Mem, m2: Mem, va: nat, s: seq<byte>, t: seq<byte>)
    requires Wrote(m, m1, va, s) && Wrote(m1, m2, va + |s|, t)
    ensures Wrote(m, m2, va, s + t)
  {
    hide Ppn, Valid, UserBit, WriteBit, Vpn, ByteAt;
    forall a: nat | PageOk(m, Vpn(a), false)
      ensures ByteAt(m2, a) == if va <= a < va + |s| + |t| then (s + t)[a - va] else ByteAt(m, a)
    {
      assert PageOk(m1, Vpn(a), false);
      if va + |s| <= a < va + |s| + |t| {
        assert (s + t)[a - va] == t[a - (va + |s|)];
      }
    }
    assert forall v :: PageOk(m1, v, true) <==> PageOk(m, v, true);
  }

  /** What was copied out reads back. */
  lemma CopyRoundTrip(m: Mem, m': Mem, va: nat, s: seq<byte>)
    requires Wrote(m, m', va, s) && Reach(m, va, |s|, true) == |s|
    ensures Bytes(m', va, |s|, s)
  {
    hide Ppn, Valid, UserBit, WriteBit, Vpn, ByteAt;
    forall a: nat | va <= a < va + |s|
      ensures PageOk(m', Vpn(a), false) && s[a - va] == ByteAt(m', a)
    {
      assert PageOk(m, Vpn(a), true);
      assert PageOk(m, Vpn(a), false);
    }
  }

  lemma PatchedKeys(m: Mem, va: nat, s: seq<byte>)
    requires PageOk(m, Vpn(va), true) && Offset(va) + |s| <= PGSIZE
    ensures Patched(m, va, s).ptes == m.ptes && Patched(m, va, s).ram.Keys == m.ram.Keys
  {
  }

  lemma NothingWrote(m: Mem, va: nat)
    ensures Wrote(m, m, va, [])
  {
  }

  /** Writing user bytes changes nobody's access. */
  lemma SameAccess(m: Mem, m1: Mem, v: nat, write: bool)
    requires m1.ptes == m.ptes && m1.ram.Keys == m.ram.Keys
    ensures PageOk(m1, v, write) == PageOk(m, v, write)
  {
  }

  lemma ReachStops(m: Mem, va: nat, n: nat, write: bool)
    requires !PageOk(m, Vpn(va), write)
    ensures Reach(m, va, n, write) == 0
  {
  }

  lemma ReachNone(m: Mem, va: nat, write: bool)
    ensures Reach(m, va, 0, write) == 0
  {
  }

  lemma ChunkFits(va: nat, len: nat)
    ensures Chunk(va, len) <= len && Offset(va) + Chunk(va, len) <= PGSIZE && (len > 0 ==> Chunk(va, len) > 0)
  {
  }

  /** One page's part of a write, after others. */
  lemma WrotePage(m: Mem, m1: Mem, a: nat, s: seq<byte>)
    requires Unshared(m) && m1.ptes == m.ptes && m1.ram.Keys == m.ram.Keys
    requires PageOk(m, Vpn(a), true) && Offset(a) + |s| <= PGSIZE
    ensures PageOk(m1, Vpn(a), true) && Wrote(m1, Patched(m1, a, s), a, s)
  {
    hide Offset, Vpn, Wrote, Patched;
    forall v: nat, w: bool
      ensures PageOk(m1, v, w) == PageOk(m, v, w)
    {
      SameAccess(m, m1, v, w);
    }
    PatchWrote(m1, a, s);
  }

  /** copyout has written the first `done` bytes of src. */
  ghost predicate Progress(m: Mem, m1: Mem, va: nat, src: seq<byte>, done: nat)
  {
    && done <= |src| && m1.ptes == m.ptes && m1.ram.Keys == m.ram.Keys && Wrote(m, m1, va, src[..done])
    && Reach(m, va, |src|, true) == done + Reach(m, va + done, |src| - done, true)
  }

  lemma ProgressStart(m: Mem, va: nat, src: seq<byte>)
    ensures Progress(m, m, va, src, 0)
  {
    hide Wrote, Reach;
    NothingWrote(m, va);
  }

  lemma ProgressStep(m: Mem, m1: Mem, va: nat, src: seq<byte>, done: nat)
    requires Unshared(m) && Progress(m, m1, va, src, done) && PageOk(m1, Vpn(va + done), true)
    ensures var c := Chunk(va + done, |src| - done);
            && Offset(va + done) + c <= PGSIZE && done + c <= |src| && (done < |src| ==> c > 0)
            && Progress(m, Patched(m1, va + done, src[done..done + c]), va, src, done + c)
  {
    hide Wrote, Reach, Vpn, Offset, Chunk, Patched, Unshared;
    var a := va + done;
    var c := Chunk(a, |src| - done);
    ChunkFits(a, |src| - done);
    SameAccess(m, m1, Vpn(a), true);
    var piece := src[done..done + c];
    WrotePage(m, m1, a, piece);
    PatchedKeys(m1, a, piece);
    WroteTwice(m, m1, Patched(m1, a, piece), va, src[..done], piece);
    assert src[..done] + piece == src[..done + c];
    ReachPage(m, a, |src| - done, c, true);
  }

  lemma ProgressEnd(m: Mem, m1: Mem, va: nat, src: seq<byte>, done: nat)
    requires Progress(m, m1, va, src, done) && (done < |src| ==> !PageOk(m1, Vpn(va + done), true))
    ensures done == Reach(m, va, |src|, true) && Wrote(m, m1, va, src[..done])
  {
    hide Wrote, Reach, Vpn;
    if done < |src| {
      SameAccess(m, m1, Vpn(va + done), true);
      ReachStops(m, va + done, |src| - done, true);
    } else {
      ReachNone(m, va + done, true);
    }
  }

  /** The length of the string at va if its NUL is among the first n bytes and all bytes up to it can be
      read, else -1. */
  function StringAt(m: Mem, va: nat, n: nat): (k: int)
    ensures -1 <= k < n
    ensures k >= 0 ==> forall a: nat | va <= a <= va + k :: PageOk(m, Vpn(a), false)
    ensures k >= 0 ==> ByteAt(m, va + k) == 0 && forall a: nat | va <= a < va + k :: ByteAt(m, a) != 0
    decreases n
  {
    if n == 0 || !PageOk(m, Vpn(va), false) then -1
    else if ByteAt(m, va) == 0 then 0
    else
      var k := StringAt(m, va + 1, n - 1);
      if k < 0 then -1 else k + 1
  }

  /** Bytes that are no NUL are passed over. */
  lemma {:induction false} StringPasses(m: Mem, va: nat, n: nat, c: nat)
    requires c <= n && forall a: nat | va <= a < va + c :: PageOk(m, Vpn(a), false) && ByteAt(m, a) != 0
    ensures StringAt(m, va, n) == After(StringAt(m, va + c, n - c), c)
    decreases c
  {
    hide PageOk, ByteAt;
    if c > 0 {
      StringPasses(m, va + 1, n - 1, c - 1);
    }
  }

  /** A string length found k bytes further on. */
  function After(k: int, skipped: nat): int
  {
    if k < 0 then -1 else k + skipped
  }

  lemma NoBytes(m: Mem, va: nat)
    ensures Bytes(m, va, 0, [])
  {
  }

  lemma StringStops(m: Mem, va: nat, n: nat)
    requires !PageOk(m, Vpn(va), false)
    ensures StringAt(m, va, n) == -1
  {
  }

  lemma StringNone(m: Mem, va: nat)
    ensures StringAt(m, va, 0) == -1
  {
  }

  lemma PieceFront(m: Mem, va: nat, piece: seq<byte>, k: nat)
    requires Bytes(m, va, |piece|, piece) && k <= |piece|
    ensures Bytes(m, va, k, piece[..k])
  {
    hide PageOk, ByteAt, Vpn;
  }

  /** What the first NUL of a page's piece, or its absence, means for the string. */
  lemma PieceString(m: Mem, va: nat, n: nat, piece: seq<byte>, k: nat, got: bool)
    requires |piece| <= n && Bytes(m, va, |piece|, piece) && k <= |piece|
    requires (forall i | 0 <= i < k :: piece[i] != 0) && (if got then k < |piece| && piece[k] == 0 else k == |piece|)
    ensures StringAt(m, va, n) == if got then k else After(StringAt(m, va + k, n - k), k)
  {
    hide PageOk, ByteAt, Vpn;
    forall a: nat | va <= a < va + k
      ensures PageOk(m, Vpn(a), false) && ByteAt(m, a) != 0
    {
      assert piece[a - va] == ByteAt(m, a);
    }
    StringPasses(m, va, n, k);
    if got {
      assert piece[va + k - va] == ByteAt(m, va + k);
    }
  }

  class UserMemory {
    var ram: map<nat, Page>
    var ptes: map<nat, nat>

    ghost function Img(): Mem
      reads this
    {
      Mem(ram, ptes)
    }

    /** The physical page for reading user page v; false where walkaddr returns 0. */
    method Walkaddr(v: nat) returns (ok: bool, p: nat)
      requires forall w | w in ptes && Valid(ptes[w]) :: Ppn(ptes[w]) in ram
      ensures ok == PageOk(Img(), v, false)
      ensures ok ==> p == Ppn(ptes[v])
    {
      p := 0;
      if v >= MAXVPN {
        return false, 0;
      }
      ok := v in ptes && Valid(ptes[v]) && UserBit(ptes[v]);
      if ok {
        p := Ppn(ptes[v]);
      }
    }

    /** memmove into the page of user address a. */
    method Memmove(a: nat, s: seq<byte>)
      requires PageOk(Img(), Vpn(a), true) && Offset(a) + |s| <= PGSIZE
      modifies this`ram
      ensures Img() == Patched(old(Img()), a, s)
    {
      var p, o := Ppn(ptes[Vpn(a)]), Offset(a);
      ram := ram[p := ram[p][..o] + s + ram[p][o + |s|..]];
    }

    /** Copy out to user address va, page by page: all of src, or the part of it before the first page
        that the user may not write. */
    method Copyout(va: nat, src: seq<byte>) returns (ok: bool, ghost wrote: nat)
      requires Unshared(Img()) && forall w | w in ptes && Valid(ptes[w]) :: Ppn(ptes[w]) in ram
      modifies this`ram
      ensures wrote == Reach(old(Img()), va, |src|, true) && ok == (wrote == |src|)
      ensures Wrote(old(Img()), Img(), va, src[..wrote])
    {
      hide Valid, UserBit, WriteBit, Ppn, Vpn, Offset, Chunk, Reach, Unshared, Wrote, Patched;
      ghost var m := Img();
      ProgressStart(m, va, src);
      var done: nat := 0;
      while done < |src|
        invariant done <= |src| && Progress(m, Img(), va, src, done)
      {
        var a := va + done;
        var v := Vpn(a);
        if v >= MAXVPN || v !in ptes || !Valid(ptes[v]) || !UserBit(ptes[v]) || !WriteBit(ptes[v]) {
          ProgressEnd(m, Img(), va, src, done);
          return false, done;
        }
        ProgressStep(m, Img(), va, src, done);
        var c := Chunk(a, |src| - done);
        Memmove(a, src[done..done + c]);
        done := done + c;
      }
      ProgressEnd(m, Img(), va, src, done);
      ok, wrote := true, done;
    }

    /** Copy in from user address va: the user's bytes there, all len of them or those before the first
        page that the user may not read. */
    method Copyin(va: nat, len: nat) returns (ok: bool, dst: seq<byte>)
      requires forall w | w in ptes && Valid(ptes[w]) :: Ppn(ptes[w]) in ram
      ensures |dst| == Reach(Img(), va, len, false) && ok == (|dst| == len)
      ensures Bytes(Img(), va, |dst|, dst)
    {
      hide Valid, UserBit, WriteBit, Vpn, Offset, Chunk, Reach, Bytes;
      ghost var m := Img();
      NoBytes(m, va);
      dst := [];
      while |dst| < len
        invariant |dst| <= len && Bytes(m, va, |dst|, dst)
        invariant Reach(m, va, len, false) == |dst| + Reach(m, va + |dst|, len - |dst|, false)
      {
        var a := va + |dst|;
        var mapped, p := Walkaddr(Vpn(a));
        if !mapped {
          ReachStops(m, a, len - |dst|, false);
          return false, dst;
        }
        var c := Chunk(a, len - |dst|);
        ChunkFits(a, len - |dst|);
        PieceIs(m, a, c);
        ReachPage(m, a, len - |dst|, c, false);
        var piece := ram[p][Offset(a)..Offset(a) + c];
        BytesJoin(m, va, dst, piece);
        dst := dst + piece;
      }
      ReachNone(m, va + |dst|, false);
      ok := true;
    }

    /** Copy a string in: true exactly when its NUL is within max bytes and readable, and then dst is the
        string without it. */
    method Copyinstr(va: nat, max: nat) returns (ok: bool, dst: seq<byte>)
      requires forall w | w in ptes && Valid(ptes[w]) :: Ppn(ptes[w]) in ram
      ensures ok == (StringAt(Img(), va, max) >= 0)
      ensures ok ==> |dst| == StringAt(Img(), va, max) && Bytes(Img(), va, |dst|, dst)
    {
      hide Valid, UserBit, WriteBit, Vpn, Offset, Chunk, StringAt, Bytes;
      ghost var m := Img();
      NoBytes(m, va);
      dst := [];
      var got := false;
      while !got && |dst| < max
        invariant |dst| <= max && Bytes(m, va, |dst|, dst)
        invariant !got ==> StringAt(m, va, max) == After(StringAt(m, va + |dst|, max - |dst|), |dst|)
        invariant got ==> StringAt(m, va, max) == |dst|
        decreases !got, max - |dst|
      {
        var a := va + |dst|;
        var mapped, p := Walkaddr(Vpn(a));
        if !mapped {
          StringStops(m, a, max - |dst|);
          return false, dst;
        }
        var c := Chunk(a, max - |dst|);
        ChunkFits(a, max - |dst|);
        PieceIs(m, a, c);
        var piece := ram[p][Offset(a)..Offset(a) + c];
        var k;
        got, k := FindNul(piece);
        PieceString(m, a, max - |dst|, piece, k, got);
        PieceFront(m, a, piece, k);
        BytesJoin(m, va, dst, piece[..k]);
        dst := dst + piece[..k];
      }
      ok := got;
      StringNone(m, va + |dst|);
    }
  }

  /** copyinstr's inner loop: the first NUL of a piece. */
  method FindNul(piece: seq<byte>) returns (got: bool, k: nat)
    ensures k <= |piece| && (forall i | 0 <= i < k :: piece[i] != 0) && (got ==> k < |piece| && piece[k] == 0)
    ensures !got ==> k == |piece|
  {
    k := 0;
    while k < |piece|
      invariant k <= |piece| && forall i | 0 <= i < k :: piece[i] != 0
    {
      if piece[k] == 0 {
        return true, k;
      }
      k := k + 1;
    }
    got := false;
  }
}
