/** mkfs/mkfs.c: the image builder, whose result is the file system's valid start. */
module Mkfs {
  import opened Disk
  import opened FsImage
  import FileSystem

  const FSSIZE: nat := 2000
  const NINODES: nat := 200
  const NLOG: nat := 30

  /** boot, superblock, log, inode blocks and one bitmap block come first. */
  const LAYOUT: Superblock :=
    Superblock(FSSIZE, 2 + NLOG + (NINODES / 16 + 1), 2 + NLOG, 2 + NLOG + (NINODES / 16 + 1) + (FSSIZE / BPB + 1))

  /** The bitmap balloc(used) writes: the first `used` blocks in use. */
  function PrefixBits(used: nat): (bits: seq<byte>)
    requires used <= BPB
    ensures |bits| == BSIZE
    ensures forall b: nat | b < BPB :: Used(bits, b) <==> b < used
  {
    if used == 0 then ZeroBitsUnused(); ZeroBlock()
    else
      var bits := PrefixBits(used - 1);
      MarkPrefix(bits, used - 1);
      MarkUsed(bits, used - 1)
  }

  lemma {:induction false} ZeroBit(k: nat)
    ensures !Bit(0, k)
  {
    if k > 0 { ZeroBit(k - 1); }
  }

  lemma ZeroBitsUnused()
    ensures forall b: nat | b < BPB :: !Used(ZeroBlock(), b)
  {
    forall b: nat | b < BPB
      ensures !Used(ZeroBlock(), b)
    {
      ZeroBit(b % 8);
    }
  }

  lemma MarkPrefix(bits: seq<byte>, n: nat)
    requires |bits| == BSIZE && n < BPB && forall b: nat | b < BPB :: Used(bits, b) <==> b < n
    ensures forall b: nat | b < BPB :: Used(MarkUsed(bits, n), b) <==> b < n + 1
  {
    forall b: nat | b < BPB
      ensures Used(MarkUsed(bits, n), b) <==> b < n + 1
    {
      hide Used, MarkUsed;
      MarkUsedOnly(bits, n, b);
    }
  }

  /** File i has exactly the blocks its first `extent` bytes need, the indirect block among them. */
  ghost predicate TightTo(fs: Fs, i: nat, extent: nat)
    requires Shape(fs) && i in fs.inodes
  {
    && (forall bn | 0 <= bn < MAXFILE :: At(fs, i, SlotOf(bn)) != 0 <==> bn * BSIZE < extent)
    && (At(fs, i, IND) != 0 <==> NDIRECT * BSIZE < extent)
  }

  /** How many blocks a file of `extent` bytes takes. */
  function Blocks(extent: nat): nat
  {
    (extent + BSIZE - 1) / BSIZE + if extent > NDIRECT * BSIZE then 1 else 0
  }

  ghost predicate Tight(fs: Fs, i: nat)
    requires Shape(fs) && i in fs.inodes
  {
    TightTo(fs, i, fs.inodes[i].size)
  }

  /** The size main() gives the root directory at the end. */
  function RoundedUp(size: nat): nat
  {
    (size / BSIZE + 1) * BSIZE
  }

  /** Rounding the root directory's size up leaves no hole exactly when it was not already a
      multiple of the block size. */
  lemma RoundingSafeIff(fs: Fs, root: nat)
    requires Shape(fs) && root in fs.inodes && Tight(fs, root) && RoundedUp(fs.inodes[root].size) <= MAXFILE * BSIZE
    ensures Shape(WithSize(fs, root, RoundedUp(fs.inodes[root].size)))
    ensures Mapped(WithSize(fs, root, RoundedUp(fs.inodes[root].size)), root) <==> fs.inodes[root].size % BSIZE != 0
  {
    hide Word;
    var size := fs.inodes[root].size;
    var fs2 := WithSize(fs, root, RoundedUp(size));
    assert forall bn | 0 <= bn < MAXFILE :: At(fs2, root, SlotOf(bn)) == At(fs, root, SlotOf(bn));
    var last := size / BSIZE;
    assert last < MAXFILE && last * BSIZE < RoundedUp(size);
    assert At(fs, root, SlotOf(last)) != 0 <==> last * BSIZE < size;
    forall bn | 0 <= bn < MAXFILE && bn * BSIZE < RoundedUp(size) && size % BSIZE != 0
      ensures bn * BSIZE < size
    {
    }
  }

  lemma TightIsMapped(fs: Fs)
    requires Shape(fs) && forall i | i in fs.inodes :: Tight(fs, i)
    ensures AllMapped(fs)
  {
    hide At;
  }

  lemma FreshInode(fs: Fs, owner: Owner, inum: nat, typ: nat)
    requires Accounted(fs, owner) && inum !in fs.inodes && forall k | k in fs.inodes :: Tight(fs, k)
    ensures var fs' := fs.(inodes := fs.inodes[inum := Inode(typ, 1, 0, seq(13, _ => 0))]);
            Accounted(fs', owner) && forall k | k in fs'.inodes :: Tight(fs', k)
  {
    hide Used, Word;
    var fs' := fs.(inodes := fs.inodes[inum := Inode(typ, 1, 0, seq(13, _ => 0))]);
    assert Shape(fs');
    assert forall j | 0 <= j < SLOTS :: At(fs', inum, j) == 0;
    assert forall k, j | k in fs.inodes && 0 <= j < SLOTS :: At(fs', k, j) == At(fs, k, j);
    assert UsedData(fs') == UsedData(fs);
    forall k | k in fs'.inodes
      ensures Tight(fs', k)
    {
      if k != inum { assert Tight(fs, k); }
    }
  }

  /** mkfs's allocation is balloc's: the block was zero already, and one more prefix bit is set. */
  lemma NextBlockIsTaken(fs: Fs, r: nat)
    requires Shape(fs) && fs.sb == LAYOUT && r < FSSIZE && fs.bitmap == PrefixBits(r) && fs.blocks[r] == ZeroBlock()
    ensures !Used(fs.bitmap, r) && Taken(fs, r) == fs.(bitmap := PrefixBits(r + 1))
  {
    hide Used;
    assert fs.blocks[r := ZeroBlock()] == fs.blocks;
  }

  lemma EmptyImage(fs: Fs)
    requires fs.sb == LAYOUT && fs.bitmap == PrefixBits(LAYOUT.datastart) && |fs.blocks| == FSSIZE && fs.inodes == map[]
    ensures Accounted(fs, map[])
  {
    assert UsedData(fs) == {};
  }

  /** Mapping block bn when the first extent bytes are mapped, up to bn * BSIZE at least. */
  lemma TightGrows(fs: Fs, fs': Fs, i: nat, extent: nat, bn: nat, extent': nat)
    requires Shape(fs) && Shape(fs') && i in fs.inodes && i in fs'.inodes && bn < MAXFILE && TightTo(fs, i, extent)
    requires At(fs', i, SlotOf(bn)) != 0 && (At(fs', i, IND) != 0 <==> At(fs, i, IND) != 0 || bn >= NDIRECT)
    requires forall m | 0 <= m < SLOTS && m != SlotOf(bn) && m != IND :: At(fs', i, m) == At(fs, i, m)
    requires bn * BSIZE <= extent < extent' <= (bn + 1) * BSIZE
    ensures TightTo(fs', i, extent')
  {
    hide At;
    forall c | 0 <= c < MAXFILE
      ensures At(fs', i, SlotOf(c)) != 0 <==> c * BSIZE < extent'
    {
      assert At(fs, i, SlotOf(c)) != 0 <==> c * BSIZE < extent;
    }
  }

  lemma PutKeepsTight(fs: Fs, owner: Owner, i: nat, o: nat, data: Block, k: nat, extent: nat)
    requires Accounted(fs, owner) && i in fs.inodes && AddrOfOk(fs, i, o) && k in fs.inodes
    ensures Shape(Put(fs, AddrOf(fs, i, o), data))
    ensures TightTo(fs, k, extent) ==> TightTo(Put(fs, AddrOf(fs, i, o), data), k, extent)
  {
    hide At;
    PutKeepsMaps(fs, owner, UsedData(fs), i, SlotOf(o / BSIZE), data);
  }

  lemma ExtendsKeepsTight(fs: Fs, fs': Fs, i: nat, k: nat, extent: nat)
    requires Extends(fs, fs', i) && k in fs.inodes && k != i
    ensures TightTo(fs, k, extent) ==> TightTo(fs', k, extent)
  {
    hide At;
  }

  /** The piece of the bytes that goes into the block at size + tot. */
  lemma ChunkFits(size: nat, tot: nat, n: nat, n1: nat)
    requires tot < n && n1 == FileSystem.Min(n - tot, ((size + tot) / BSIZE + 1) * BSIZE - (size + tot))
    requires tot == 0 || (size + tot) % BSIZE == 0
    ensures 0 < n1 <= n - tot && (size + tot) % BSIZE + n1 <= BSIZE
    ensures (size + tot) / BSIZE < MAXFILE ==> size + tot + n1 <= MAXFILE * BSIZE
    ensures tot + n1 == n || (size + tot + n1) % BSIZE == 0
  {
    FileSystem.BlockEnd(size + tot, n1, n - tot);
  }

  /** What iappend came to. */
  datatype Outcome = Appended | TooLong | NoRoom

  /** How appending n bytes to a file of `size` bytes ends: mkfs stops at the longest file (its assertion)
      or, before that, at the end of the image. */
  function Fate(freeblock: nat, size: nat, n: nat): Outcome
  {
    if freeblock + Blocks(FileSystem.Min(size + n, MAXFILE * BSIZE)) - Blocks(size) > FSSIZE then NoRoom
    else if size + n > MAXFILE * BSIZE then TooLong else Appended
  }

  lemma BlocksGrow(a: nat, b: nat)
    requires a <= b
    ensures Blocks(a) <= Blocks(b)
  {
  }

  /** What having got to byte `end`, or failing to get there, says about the fate. */
  lemma FateIs(freeblock: nat, size: nat, n: nat, end: nat)
    requires size <= end <= MAXFILE * BSIZE && end <= size + n
    ensures freeblock + Blocks(end) - Blocks(size) > FSSIZE ==> Fate(freeblock, size, n) == NoRoom
    ensures freeblock + Blocks(end) - Blocks(size) <= FSSIZE && end == size + n ==> Fate(freeblock, size, n) == Appended
    ensures freeblock + Blocks(end) - Blocks(size) <= FSSIZE && end == MAXFILE * BSIZE < size + n ==>
              Fate(freeblock, size, n) == TooLong
  {
    BlocksGrow(end, FileSystem.Min(size + n, MAXFILE * BSIZE));
  }

  /** In a tight file the next chunk takes the blocks that the growing file needs. */
  lemma NeedIsBlocks(fs: Fs, i: nat, off: nat, n: nat)
    requires Shape(fs) && i in fs.inodes && TightTo(fs, i, off) && 0 < n
    requires off % BSIZE + n <= BSIZE && off + n <= MAXFILE * BSIZE
    ensures var fbn := off / BSIZE;
            && fbn < MAXFILE
            && Blocks(off + n) - Blocks(off) ==
               (if At(fs, i, SlotOf(fbn)) == 0 then 1 else 0) + if fbn >= NDIRECT && At(fs, i, IND) == 0 then 1 else 0
  {
    hide At;
    var fbn := off / BSIZE;
    assert At(fs, i, SlotOf(fbn)) != 0 <==> fbn * BSIZE < off;
    assert fbn * BSIZE < off <==> off % BSIZE != 0;
  }

  lemma NothingYet(fs: Fs, i: nat, o: nat, data: seq<byte>)
    requires Shape(fs) && i in fs.inodes && o <= MAXFILE * BSIZE
    ensures Stored(fs, fs, i, o, data[..0])
  {
  }

  /** Without an indirect block there are no indirect addresses. */
  lemma NoSlots(fs: Fs, i: nat, j: nat)
    requires Shape(fs) && i in fs.inodes && IND < j < SLOTS && fs.inodes[i].addrs[IND] == 0
    ensures At(fs, i, j) == 0
  {
  }

  class Builder {
    var blocks: seq<Block>
    var inodes: map<nat, Inode>
    var freeblock: nat
    var freeinode: nat
    ghost var owner: Owner

    /** The image, with the bitmap that balloc(freeblock) will write. */
    ghost function Img(): Fs
      reads this
    {
      Fs(LAYOUT, if freeblock <= BPB then PrefixBits(freeblock) else [], blocks, inodes)
    }

    /** Blocks that mapping block fbn of file i takes: it, and the indirect block, if missing. */
    ghost function Need(i: nat, fbn: nat): nat
      reads this
      requires Shape(Img()) && i in inodes && fbn < MAXFILE
    {
      (if At(Img(), i, SlotOf(fbn)) == 0 then 1 else 0) + if fbn >= NDIRECT && At(Img(), i, IND) == 0 then 1 else 0
    }

    /** Unallocated blocks are still zero. */
    ghost predicate Clean()
      reads this
    {
      && LAYOUT.datastart <= freeblock <= FSSIZE && |blocks| == FSSIZE
      && forall b | freeblock <= b < FSSIZE :: blocks[b] == ZeroBlock()
    }

    ghost predicate Valid()
      reads this
    {
      && Clean() && Accounted(Img(), owner)
      && (forall i | i in inodes :: Tight(Img(), i))
      && 0 < freeinode && forall i | i in inodes :: 0 < i < freeinode
    }

    /** The zeroed image with nothing in it. */
    constructor ()
      ensures Valid() && inodes == map[] && freeinode == 1 && freeblock == LAYOUT.datastart
    {
      blocks := seq(FSSIZE, _ => ZeroBlock());
      inodes := map[];
      freeblock := LAYOUT.datastart;
      freeinode := 1;
      owner := map[];
      new;
      EmptyImage(Img());
    }

    /** A new inode with one link and no blocks. */
    method Ialloc(typ: nat) returns (inum: nat)
      requires Valid()
      modifies this`inodes, this`freeinode
      ensures Valid() && inum == old(freeinode) && freeinode == inum + 1
      ensures inodes == old(inodes)[inum := Inode(typ, 1, 0, seq(13, _ => 0))]
    {
      hide At, Used, Ledger, UsedData, TightTo;
      ghost var fs := Img();
      FreshInode(fs, owner, freeinode, typ);
      inum := freeinode;
      freeinode := freeinode + 1;
      inodes := inodes[inum := Inode(typ, 1, 0, seq(13, _ => 0))];
      assert Img() == fs.(inodes := inodes);
    }

    /** slot j of inode i = freeblock++ */
    method NextBlock(i: nat, j: nat) returns (r: nat)
      requires Clean() && Accounted(Img(), owner) && i in inodes && j < SLOTS && freeblock < FSSIZE
      requires At(Img(), i, j) == 0 && (j > IND ==> At(Img(), i, IND) != 0)
      modifies this`blocks, this`inodes, this`freeblock, this`owner
      ensures Clean() && Accounted(Img(), owner) && Extends(old(Img()), Img(), i) && i in inodes
      ensures r == old(freeblock) && freeblock == r + 1 && At(Img(), i, j) == r
      ensures forall m | 0 <= m < SLOTS && m != j :: At(Img(), i, m) == At(old(Img()), i, m)
    {
      hide At, Used, Ledger, UsedData, Extends, SetWord, MarkUsed;
      ghost var fs := Img();
      r := freeblock;
      freeblock := freeblock + 1;
      NextBlockIsTaken(fs, r);
      AllocEffect(fs, owner, i, j, r);
      var ip := inodes[i];
      if j <= IND {
        inodes := inodes[i := ip.(addrs := ip.addrs[j := r])];
      } else {
        var ind := ip.addrs[IND];
        OwnedBelow(fs, owner, i, IND, r);
        blocks := blocks[ind := SetWord(blocks[ind], j - 13, r)];
      }
      owner := owner[r := (i, j)];
      assert Img() == Assign(Taken(fs, r), i, j, r);
    }

    /** iappend's block lookup: the address of file block fbn, allocated if it has none; not ok when
        that would take a block past the end of the image. */
    method MapBlock(i: nat, fbn: nat) returns (ok: bool, x: nat)
      requires Clean() && Accounted(Img(), owner) && i in inodes && fbn < MAXFILE
      modifies this`blocks, this`inodes, this`freeblock, this`owner
      ensures Clean() && Accounted(Img(), owner) && Extends(old(Img()), Img(), i) && i in inodes
      ensures ok ==> x == At(Img(), i, SlotOf(fbn)) != 0
      ensures ok ==> freeblock == old(freeblock + Need(i, fbn))
      ensures ok ==> (At(Img(), i, IND) != 0 <==> At(old(Img()), i, IND) != 0 || fbn >= NDIRECT)
      ensures !ok ==> old(freeblock + Need(i, fbn)) > FSSIZE
      ensures forall m | 0 <= m < SLOTS && m != SlotOf(fbn) && m != IND :: At(Img(), i, m) == At(old(Img()), i, m)
    {
      hide At, Used, Ledger, UsedData, Extends, Word, PrefixBits, AddrOf, ByteAt;
      ghost var fs := Img();
      ok := true;
      SelfExtends(fs, i);
      SlotValue(fs, i, SlotOf(fbn));
      if fbn < NDIRECT {
        x := inodes[i].addrs[fbn];
        if x == 0 {
          if freeblock == FSSIZE {
            return false, 0;
          }
          x := NextBlock(i, fbn);
        }
        return;
      }
      if inodes[i].addrs[IND] == 0 {
        if freeblock == FSSIZE {
          NoSlots(fs, i, SlotOf(fbn));
          return false, 0;
        }
        x := NextBlock(i, IND);
      }
      ghost var fs1 := Img();
      SlotValue(fs1, i, SlotOf(fbn));
      x := Word(blocks[inodes[i].addrs[IND]], fbn - NDIRECT);
      if x == 0 {
        if freeblock == FSSIZE {
          return false, 0;
        }
        x := NextBlock(i, fbn + 1);
        ExtendsTransitive(fs, fs1, Img(), i);
      }
    }

    /** One turn of iappend: bytes off.. of file i, up to the end of their block. */
    method AppendChunk(i: nat, off: nat, piece: seq<byte>) returns (ok: bool)
      requires Clean() && Accounted(Img(), owner) && i in inodes
      requires 0 < |piece| && off % BSIZE + |piece| <= BSIZE && off + |piece| <= MAXFILE * BSIZE
      requires TightTo(Img(), i, off) && forall k | k in inodes && k != i :: Tight(Img(), k)
      modifies this`blocks, this`inodes, this`freeblock, this`owner
      ensures Clean() && Accounted(Img(), owner) && i in inodes
      ensures ok ==> freeblock == old(freeblock) + Blocks(off + |piece|) - Blocks(off)
      ensures !ok ==> old(freeblock) + Blocks(off + |piece|) - Blocks(off) > FSSIZE
      ensures ok ==> Stored(old(Img()), Img(), i, off, piece)
      ensures ok ==> TightTo(Img(), i, off + |piece|) && forall k | k in inodes && k != i :: Tight(Img(), k)
    {
      hide At, Used, Ledger, UsedData, TightTo, Stored, Patched, Word, Blocks;
      ghost var fs, owner0 := Img(), owner;
      var fbn := off / BSIZE;
      NeedIsBlocks(fs, i, off, |piece|);
      var x;
      ok, x := MapBlock(i, fbn);
      if !ok {
        return;
      }
      ghost var fs1 := Img();
      ChunkEffect(fs, owner0, fs1, owner, i, off, piece);
      TightGrows(fs, fs1, i, off, fbn, off + |piece|);
      OwnedBelow(fs1, owner, i, SlotOf(fbn), freeblock);
      ghost var data := Patched(blocks[x], off, piece);
      forall k | k in inodes && k != i
        ensures TightTo(fs1, k, fs1.inodes[k].size)
      {
        ExtendsKeepsTight(fs, fs1, i, k, fs.inodes[k].size);
      }
      forall k | k in inodes
        ensures TightTo(Put(fs1, x, data), k, if k == i then off + |piece| else fs1.inodes[k].size)
      {
        PutKeepsTight(fs1, owner, i, off, data, k, if k == i then off + |piece| else fs1.inodes[k].size);
      }
      blocks := blocks[x := Patched(blocks[x], off, piece)];
    }

    /** iappend's loop over the blocks of the new bytes. */
    method AppendChunks(i: nat, data: seq<byte>) returns (r: Outcome)
      requires Valid() && i in inodes
      modifies this`blocks, this`inodes, this`freeblock, this`owner
      ensures r == Fate(old(freeblock), old(inodes[i].size), |data|)
      ensures r == Appended ==>
                && Clean() && Accounted(Img(), owner) && i in inodes
                && old(inodes[i].size) + |data| <= MAXFILE * BSIZE
                && freeblock == old(freeblock) + Blocks(old(inodes[i].size) + |data|) - Blocks(old(inodes[i].size))
                && Stored(old(Img()), Img(), i, old(inodes[i].size), data)
                && TightTo(Img(), i, old(inodes[i].size) + |data|)
                && forall k | k in inodes && k != i :: Tight(Img(), k)
    {
      hide At, Used, Ledger, UsedData, TightTo, Stored, PrefixBits, FileSystem.Min, Blocks, Fate;
      ghost var fs := Img();
      var size := inodes[i].size;
      var tot := 0;
      NothingYet(fs, i, size, data);
      while tot < |data|
        invariant 0 <= tot <= |data| && size + tot <= MAXFILE * BSIZE
        invariant Clean() && Accounted(Img(), owner) && i in inodes
        invariant freeblock == old(freeblock) + Blocks(size + tot) - Blocks(size)
        invariant tot == 0 || tot == |data| || (size + tot) % BSIZE == 0
        invariant Stored(fs, Img(), i, size, data[..tot])
        invariant TightTo(Img(), i, size + tot) && forall k | k in inodes && k != i :: Tight(Img(), k)
      {
        ghost var fs1 := Img();
        var off := size + tot;
        var fbn := off / BSIZE;
        if fbn >= MAXFILE {
          FateIs(old(freeblock), size, |data|, MAXFILE * BSIZE);
          return TooLong;
        }
        var n1 := FileSystem.Min(|data| - tot, (fbn + 1) * BSIZE - off);
        ChunkFits(size, tot, |data|, n1);
        var ok := AppendChunk(i, off, data[tot..tot+n1]);
        if !ok {
          FateIs(old(freeblock), size, |data|, off + n1);
          return NoRoom;
        }
        StoredTwice(fs, fs1, Img(), i, size, data[..tot], data[tot..tot+n1]);
        assert data[..tot] + data[tot..tot+n1] == data[..tot+n1];
        tot := tot + n1;
      }
      assert data[..tot] == data;
      FateIs(old(freeblock), size, |data|, size + |data|);
      r := Appended;
    }

    /** iappend: the file's contents grow by exactly the given bytes, other files are as before. It ends
        with mkfs's assertion when the file would get too long. mkfs does not test for room in the
        image; NoRoom is where it would go on past the image's end. */
    method Iappend(i: nat, data: seq<byte>) returns (r: Outcome)
      requires Valid() && i in inodes
      modifies this`blocks, this`inodes, this`freeblock, this`owner
      ensures r == Fate(old(freeblock), old(inodes[i].size), |data|)
      ensures r == Appended ==>
                && Valid() && inodes.Keys == old(inodes.Keys) && old(inodes[i].size) + |data| <= MAXFILE * BSIZE
                && freeblock == old(freeblock) + Blocks(old(inodes[i].size) + |data|) - Blocks(old(inodes[i].size))
                && Contents(Img(), i) == Contents(old(Img()), i) + data
                && forall k | k in inodes && k != i ::
                     inodes[k] == old(inodes[k]) && Contents(Img(), k) == Contents(old(Img()), k)
    {
      hide At, Used, Ledger, UsedData, TightTo, Stored, Contents, Splice, Mapped, Blocks, Fate;
      ghost var fs := Img();
      TightIsMapped(fs);
      var size := inodes[i].size;
      r := AppendChunks(i, data);
      if r != Appended {
        return;
      }
      ghost var fs1 := Img();
      AppendEffect(fs, fs1, owner, i, data);
      inodes := inodes[i := inodes[i].(size := size + |data|)];
      assert Img() == WithSize(fs1, i, size + |data|);
    }

    /** Rounding up the root directory's size, as main() does before writing the bitmap. */
    method RoundRoot(root: nat)
      requires Valid() && root in inodes && RoundedUp(inodes[root].size) <= MAXFILE * BSIZE
      modifies this`inodes
      ensures inodes == old(inodes)[root := old(inodes[root]).(size := RoundedUp(old(inodes[root].size)))]
      ensures Accounted(Img(), owner) && Clean()
      ensures AllMapped(Img()) <==> old(inodes[root].size) % BSIZE != 0
    {
      hide At, Used, Ledger, UsedData, TightTo, Mapped;
      ghost var fs := Img();
      var off := inodes[root].size;
      off := (off / BSIZE + 1) * BSIZE;
      RoundingSafeIff(fs, root);
      SizeKeepsAccounted(fs, owner, root, off);
      TightIsMapped(fs);
      forall k | k in fs.inodes && k != root
        ensures Mapped(WithSize(fs, root, off), k)
      {
        OtherStaysMapped(fs, root, off, k);
      }
      inodes := inodes[root := inodes[root].(size := off)];
      assert Img() == WithSize(fs, root, off);
    }

    /** balloc(freeblock): the bitmap block, bit by bit. */
    method Balloc() returns (bitmap: seq<byte>)
      requires Clean()
      ensures bitmap == Img().bitmap
    {
      bitmap := ZeroBlock();
      var b := 0;
      while b < freeblock
        invariant 0 <= b <= freeblock && bitmap == PrefixBits(b)
      {
        bitmap := MarkUsed(bitmap, b);
        b := b + 1;
      }
    }

    /** The finished image is a file system for the kernel to start from. */
    method Mount() returns (f: FileSystem.FileSystem)
      requires Clean() && Accounted(Img(), owner) && AllMapped(Img())
      ensures fresh(f) && f.Valid() && f.Img() == Img()
    {
      var bitmap := Balloc();
      f := new FileSystem.FileSystem(LAYOUT, bitmap, blocks, inodes, owner);
    }
  }

  lemma SizeKeepsTight(fs: Fs, i: nat, size: nat)
    requires Shape(fs) && i in fs.inodes && TightTo(fs, i, size) && size <= MAXFILE * BSIZE
    requires forall k | k in fs.inodes && k != i :: Tight(fs, k)
    ensures Shape(WithSize(fs, i, size)) && forall k | k in fs.inodes :: Tight(WithSize(fs, i, size), k)
  {
    hide Word;
    var fs2 := WithSize(fs, i, size);
    assert forall k, j | k in fs.inodes && 0 <= j < SLOTS :: At(fs2, k, j) == At(fs, k, j);
  }

  lemma OtherStaysMapped(fs: Fs, i: nat, size: nat, k: nat)
    requires Shape(fs) && i in fs.inodes && size <= MAXFILE * BSIZE && k in fs.inodes && k != i && Mapped(fs, k)
    ensures Shape(WithSize(fs, i, size)) && Mapped(WithSize(fs, i, size), k)
  {
    hide Word;
    var fs2 := WithSize(fs, i, size);
    assert forall j | 0 <= j < SLOTS :: At(fs2, k, j) == At(fs, k, j);
  }

  lemma AppendIsSplice(fs: Fs, i: nat, data: seq<byte>)
    requires Shape(fs) && i in fs.inodes
    ensures |Contents(fs, i)| == fs.inodes[i].size
    ensures Splice(Contents(fs, i), fs.inodes[i].size, data) == Contents(fs, i) + data
  {
  }

  /** The bytes stored at the end of file i, and then its size set. */
  lemma AppendEffect(fs: Fs, fs1: Fs, owner: Owner, i: nat, data: seq<byte>)
    requires Shape(fs) && AllMapped(fs) && Accounted(fs1, owner) && i in fs.inodes
    requires fs.inodes[i].size + |data| <= MAXFILE * BSIZE && Stored(fs, fs1, i, fs.inodes[i].size, data)
    requires i in fs1.inodes && TightTo(fs1, i, fs.inodes[i].size + |data|)
    requires forall k | k in fs1.inodes && k != i :: Tight(fs1, k)
    ensures var fs2 := WithSize(fs1, i, fs.inodes[i].size + |data|);
            && Accounted(fs2, owner) && fs2.inodes.Keys == fs.inodes.Keys
            && (forall k | k in fs2.inodes :: Tight(fs2, k))
            && Contents(fs2, i) == Contents(fs, i) + data
            && forall k | k in fs.inodes && k != i ::
                 fs2.inodes[k] == fs.inodes[k] && Contents(fs2, k) == Contents(fs, k)
  {
    hide At, Used, Ledger, UsedData, TightTo, Stored, Contents, Splice, Mapped;
    var size := fs.inodes[i].size;
    WriteEffect(fs, fs1, owner, i, size, data, |data|);
    SizeKeepsTight(fs1, i, size + |data|);
    AppendIsSplice(fs, i, data);
  }

  /** Blocks in use lie below freeblock. */
  lemma OwnedBelow(fs: Fs, owner: Owner, i: nat, j: nat, r: nat)
    requires Accounted(fs, owner) && fs.sb == LAYOUT && r <= FSSIZE && fs.bitmap == PrefixBits(r)
    requires i in fs.inodes && j < SLOTS && At(fs, i, j) != 0
    ensures At(fs, i, j) < r
  {
    hide Used;
    assert At(fs, i, j) in owner;
    assert At(fs, i, j) in UsedData(fs);
  }
}
