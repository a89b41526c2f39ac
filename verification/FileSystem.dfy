/** kernel/fs.c and the chunk loop of kernel/file.c: allocation, block maps, truncation and
    byte-level reads and writes, over the image that the cache and the log present. */
module FileSystem {
  import opened Disk
  import opened FsImage
  import RedoLog

  const UINT_LIMIT: nat := 0x1_0000_0000

  function BBlock(sb: Superblock, b: nat): nat { b / BPB + sb.bmapstart }

  function IBlock(sb: Superblock, inum: nat): nat { inum / 16 + sb.inodestart }

  function Min(a: nat, b: nat): nat { if a < b then a else b }

  /** No free block is left. */
  ghost predicate Full(sb: Superblock, bitmap: seq<byte>)
  {
    sb.size <= 8 * |bitmap| && forall b: nat | b < sb.size :: Used(bitmap, b)
  }

  /** How many blocks the bytes off..off+n fall into. */
  function Span(off: nat, n: nat): nat
  {
    if n == 0 then 0 else (off + n - 1) / BSIZE - off / BSIZE + 1
  }

  /** One more chunk, up to a block boundary at most, is one more block. */
  lemma SpanStep(off: nat, tot: nat, m: nat, n: nat)
    requires tot == 0 || (off + tot) % BSIZE == 0
    requires 0 < m <= BSIZE - (off + tot) % BSIZE && tot + m <= n
    ensures Span(off, tot + m) == Span(off, tot) + 1 && Span(off, tot + m) <= Span(off, n)
  {
    var o := off + tot;
    assert (o + m - 1) / BSIZE == o / BSIZE;
    if tot > 0 {
      assert (o - 1) / BSIZE == o / BSIZE - 1;
    }
  }

  /** What an operation has logged so far: data blocks `data`, bitmap blocks `bits`, and the
      indirect block. */
  predicate Spent(logged: set<nat>, before: set<nat>, data: set<nat>, bits: set<nat>, ind: nat, it: nat, a: nat)
  {
    logged <= before + data + bits + ({ind} - {0}) && |data| <= it && |bits| <= a
  }

  lemma UnionSize(s: set<nat>, t: set<nat>)
    ensures |s + t| <= |s| + |t|
  {
    assert s + t == s + (t - s);
    assert |t - s| <= |t| by { assert t == (t - s) + (t * s); }
  }

  lemma SpentStep(logged: set<nat>, before: set<nat>, data: set<nat>, bits: set<nat>, ind: nat, it: nat, a: nat,
                  logged': set<nat>, addr: nat, more: set<nat>, ind': nat, da: nat)
    requires Spent(logged, before, data, bits, ind, it, a)
    requires logged' <= logged + more + ({addr, ind'} - {0}) && |more| <= da && (ind != 0 ==> ind' == ind)
    ensures Spent(logged', before, data + {addr}, bits + more, ind', it + 1, a + da)
  {
    UnionSize(data, {addr});
    UnionSize(bits, more);
  }

  lemma SpentTotal(logged: set<nat>, data: set<nat>, bits: set<nat>, ind: nat, it: nat, a: nat, inode: nat)
    requires Spent(logged, {}, data, bits, ind, it, a)
    ensures |logged + {inode}| <= it + a + 2
  {
    var all := data + bits + ({ind} - {0}) + {inode};
    UnionSize(data, bits);
    UnionSize(data + bits, {ind} - {0});
    UnionSize(data + bits + ({ind} - {0}), {inode});
    assert |{ind} - {0}| <= 1 by { assert {ind} - {0} <= {ind}; Subset({ind} - {0}, {ind}); }
    Subset(logged + {inode}, all);
  }

  lemma Subset(s: set<nat>, t: set<nat>)
    requires s <= t
    ensures |s| <= |t|
  {
    assert t == s + (t - s);
  }

  /** A whole writei that began with nothing logged. */
  lemma BudgetTotal(fs: Fs, i: nat, off: nat, n: nat, t: Tally, logged: set<nat>, before: set<nat>, inode: nat)
    requires exists l :: logged == l + {inode} && Within(fs, i, off, n, t, l, before)
    ensures before == {} ==> |logged| <= 2 * Span(off, n) + 3 - if off % BSIZE != 0 && n > 0 then 1 else 0
  {
    hide Spent;
    if before == {} {
      var l :| logged == l + {inode} && Within(fs, i, off, n, t, l, before);
      SpentTotal(l, t.data, t.bits, At(fs, i, IND), t.it, t.d + t.g, inode);
    }
  }

  lemma ContentsLength(fs: Fs, i: nat)
    requires Shape(fs) && i in fs.inodes
    ensures |Contents(fs, i)| == fs.inodes[i].size
  {
  }

  /** Below the size every block is mapped, so bmap finds it and allocates nothing. */
  lemma ReadAddr(fs: Fs, owner: Owner, i: nat, o: nat)
    requires Accounted(fs, owner) && i in fs.inodes && Mapped(fs, i) && o < fs.inodes[i].size
    ensures o / BSIZE < MAXFILE && At(fs, i, SlotOf(o / BSIZE)) != 0 && AddrOfOk(fs, i, o)
  {
    MappedAddr(fs, i, o);
    assert At(fs, i, SlotOf(o / BSIZE)) in owner;
  }

  lemma NoneFreed(fs: Fs, owner: Owner, i: nat)
    requires Shape(fs)
    ensures FreedBits(fs, owner, i, fs.bitmap, 0, 0)
  {
  }

  lemma FreedAll(fs: Fs, owner: Owner, i: nat, bitmap: seq<byte>)
    requires Accounted(fs, owner) && FreedBits(fs, owner, i, bitmap, 13, 256)
    ensures |bitmap| == |fs.bitmap|
    ensures forall b: nat | b < fs.sb.size ::
              Used(bitmap, b) <==> Used(fs.bitmap, b) && !(b in owner && owner[b].0 == i)
  {
    hide At, Used;
  }

  /** Without an indirect block there is nothing beyond the direct ones to free. */
  lemma NoIndirect(fs: Fs, owner: Owner, i: nat, bitmap: seq<byte>)
    requires Accounted(fs, owner) && i in fs.inodes && fs.inodes[i].addrs[IND] == 0
    requires FreedBits(fs, owner, i, bitmap, 12, 0)
    ensures FreedBits(fs, owner, i, bitmap, 13, 256)
  {
    hide Used, Word;
    forall b | b in owner && owner[b].0 == i
      ensures owner[b].1 < 12
    {
      assert At(fs, i, owner[b].1) == b;
      assert b in UsedData(fs);
    }
  }

  /** Every chunk filewrite makes costs at most RedoLog.MAXOPBLOCKS logged blocks. */
  lemma ChunkBudget(off: nat, n: nat)
    requires n <= 3 * BSIZE
    ensures 2 * Span(off, n) + 3 - (if off % BSIZE != 0 && n > 0 then 1 else 0) <= RedoLog.MAXOPBLOCKS
  {
  }

  /** What filewrite leaves of contents c: s is stored at off, `tot` bytes of it count. */
  ghost function WrittenSoFar(c: seq<byte>, off: nat, s: seq<byte>, tot: nat): seq<byte>
    requires tot <= |s|
  {
    if s == [] || off > |c| then c else Counted(c, off, s, tot)
  }

  /** Every file but i has the same inode and the same bytes. */
  ghost predicate OthersKept(fs: Fs, fs': Fs, i: nat)
  {
    && Shape(fs) && Shape(fs') && fs'.inodes.Keys == fs.inodes.Keys
    && forall k | k in fs.inodes && k != i ::
         fs'.inodes[k] == fs.inodes[k] && Contents(fs', k) == Contents(fs, k)
  }

  lemma SelfKept(fs: Fs, i: nat)
    requires Shape(fs)
    ensures OthersKept(fs, fs, i)
  {
  }

  lemma OthersKeptAgain(fs: Fs, fs1: Fs, fs2: Fs, i: nat)
    requires OthersKept(fs, fs1, i) && OthersKept(fs1, fs2, i)
    ensures OthersKept(fs, fs2, i)
  {
    hide Contents;
  }

  lemma SoFarNothing(c: seq<byte>, off: nat, src: seq<byte>)
    ensures WrittenSoFar(c, off, src[..0], 0) == c
  {
  }

  lemma SoFarMore(c: seq<byte>, off: nat, src: seq<byte>, done: nat, n1: nat, got: nat, r: nat)
    requires done + n1 <= |src| && r <= got <= n1 && (done > 0 ==> off <= |c|)
    requires off + done <= |WrittenSoFar(c, off, src[..done], done)|
    ensures off <= |c|
    ensures Counted(WrittenSoFar(c, off, src[..done], done), off + done, src[done..done + n1][..got], r)
            == WrittenSoFar(c, off, src[..done + got], done + r)
  {
    hide Splice;
    TakeMore(src, done, n1, got);
    SpliceNothing(c, off);
    assert WrittenSoFar(c, off, src[..done], done) == Splice(c, off, src[..done]);
    SpliceSplice(c, off, src[..done], src[done..done + n1][..got]);
    SpliceLength(c, off, src[..done]);
  }

  lemma SoFarMeans(c: seq<byte>, off: nat, s: seq<byte>, tot: nat)
    requires tot <= |s| && (|s| > 0 ==> off <= |c|)
    ensures WrittenSoFar(c, off, s, tot) == if |s| == 0 then c else Counted(c, off, s, tot)
  {
  }

  /** How a copy of n bytes ends when the user can supply `accepts` of them: `tot` bytes went in
      with whole chunks, `got` altogether, and they differ only where the supply ended. */
  predicate CopyEnd(n: nat, accepts: nat, tot: nat, got: nat)
  {
    tot <= got <= n && got <= accepts && (tot < got ==> got == accepts < n)
  }

  lemma CopyEndWhole(n: nat, accepts: nat, done: nat)
    requires done <= n && done <= accepts
    ensures CopyEnd(n, accepts, done, done)
  {
  }

  /** Whole chunks, then one more copy: together one copy. */
  lemma CopyEndMore(n: nat, accepts: nat, done: nat, n1: nat, r: nat, more: nat)
    requires done + n1 <= n && done <= accepts && CopyEnd(n1, accepts - done, r, more)
    ensures r <= more <= n1 && done + more <= accepts && (r == n1 ==> more == r)
    ensures CopyEnd(n, accepts, done + r, done + more)
  {
  }

  /** Why a write ended with `left` bytes to go at off': no block, no user bytes, or no room in the file. */
  ghost predicate CutShort(fs: Fs, i: nat, off': nat, left: nat, whole: bool, supplied: bool)
  {
    || (whole && Full(fs.sb, fs.bitmap)) || supplied
    || (Shape(fs) && i in fs.inodes && WriteRefused(|Contents(fs, i)|, off', Min(left, 3 * BSIZE)))
  }

  lemma TakeMore(src: seq<byte>, tot: nat, m: nat, placed: nat)
    requires tot + m <= |src| && placed <= m
    ensures src[..tot] + src[tot..tot+m][..placed] == src[..tot+placed]
  {
  }

  lemma SliceJoin(c: seq<byte>, a: nat, b: nat, d: nat)
    requires a <= b <= d <= |c|
    ensures c[a..b] + c[b..d] == c[a..d]
  {
  }

  lemma NothingStored(fs: Fs, i: nat, off: nat, src: seq<byte>)
    requires Shape(fs) && i in fs.inodes && off + |src| <= MAXFILE * BSIZE
    ensures Stored(fs, fs, i, off, src[..0])
  {
  }

  /** A store that starts inside a block starts in one that is already mapped. */
  lemma FirstBlock(fs: Fs, i: nat, off: nat)
    requires Shape(fs) && i in fs.inodes && Mapped(fs, i) && off <= fs.inodes[i].size
    ensures off % BSIZE != 0 ==> off / BSIZE < MAXFILE && At(fs, i, SlotOf(off / BSIZE)) != 0
  {
    if off % BSIZE != 0 {
      MappedAddr(fs, i, off - 1);
      assert (off - 1) / BSIZE == off / BSIZE;
    }
  }

  lemma BlockEnd(o: nat, m: nat, left: nat)
    requires m == Min(left, BSIZE - o % BSIZE)
    ensures m == left || (o + m) % BSIZE == 0
  {
    if m != left {
      assert o + m == (o / BSIZE + 1) * BSIZE;
    }
  }

  /** Bookkeeping of one writei: blocks logged, turns taken, and allocations for data (d) and
      for the indirect block (g). */
  datatype Tally = Tally(data: set<nat>, bits: set<nat>, it: nat, d: nat, g: nat)

  function NextTally(fs: Fs, i: nat, bn: nat, t: Tally, addr: nat, more: set<nat>): Tally
    requires Shape(fs) && i in fs.inodes && bn < MAXFILE
  {
    Tally(t.data + {addr}, t.bits + more, t.it + 1,
          t.d + (if At(fs, i, SlotOf(bn)) == 0 then 1 else 0),
          t.g + (if bn >= NDIRECT && At(fs, i, IND) == 0 then 1 else 0))
  }

  /** The bound that holds whenever the loop stops. */
  predicate Within(fs: Fs, i: nat, off: nat, n: nat, t: Tally, logged: set<nat>, before: set<nat>)
  {
    && Shape(fs) && i in fs.inodes
    && Spent(logged, before, t.data, t.bits, At(fs, i, IND), t.it, t.d + t.g)
    && t.it <= Span(off, n) && t.g <= 1 && t.d <= t.it - if off % BSIZE != 0 && t.it > 0 then 1 else 0
  }

  predicate OnBudget(fs: Fs, i: nat, off: nat, tot: nat, n: nat, t: Tally, logged: set<nat>, before: set<nat>)
  {
    && Within(fs, i, off, n, t, logged, before)
    && t.it == Span(off, tot) && (t.it == 0 <==> tot == 0) && (t.g == 1 ==> At(fs, i, IND) != 0)
  }

  lemma BudgetStart(fs: Fs, i: nat, off: nat, n: nat, logged: set<nat>)
    requires Shape(fs) && i in fs.inodes
    ensures OnBudget(fs, i, off, 0, n, Tally({}, {}, 0, 0, 0), logged, logged)
  {
  }

  lemma BudgetStep(fs: Fs, fs': Fs, i: nat, off: nat, tot: nat, m: nat, n: nat, t: Tally,
                   logged: set<nat>, logged': set<nat>, before: set<nat>, bn: nat, addr: nat, more: set<nat>,
                   stored: bool)
    requires OnBudget(fs, i, off, tot, n, t, logged, before) && Shape(fs') && i in fs'.inodes
    requires Span(off, tot + m) == Span(off, tot) + 1 <= Span(off, n) && m > 0 && bn < MAXFILE
    requires tot == 0 && off % BSIZE != 0 ==> At(fs, i, SlotOf(bn)) != 0
    requires |more| <= (if At(fs, i, SlotOf(bn)) == 0 then 1 else 0)
                       + (if bn >= NDIRECT && At(fs, i, IND) == 0 then 1 else 0)
    requires logged' <= logged + more + ({addr, At(fs', i, IND)} - {0})
    requires At(fs, i, IND) != 0 ==> At(fs', i, IND) == At(fs, i, IND)
    requires bn >= NDIRECT && stored ==> At(fs', i, IND) != 0
    ensures Within(fs', i, off, n, NextTally(fs, i, bn, t, addr, more), logged', before)
    ensures stored ==> OnBudget(fs', i, off, tot + m, n, NextTally(fs, i, bn, t, addr, more), logged', before)
  {
    hide At, Shape, Spent, Span;
    var t' := NextTally(fs, i, bn, t, addr, more);
    SpentStep(logged, before, t.data, t.bits, At(fs, i, IND), t.it, t.d + t.g,
              logged', addr, more, At(fs', i, IND), t'.d + t'.g - t.d - t.g);
  }

  /** The checks writei makes before touching anything. */
  predicate WriteRefused(size: nat, off: nat, n: nat)
  {
    off > size || off + n >= UINT_LIMIT || off + n > MAXFILE * BSIZE
  }

  /** The transactions of a write of n bytes: none logs more than MAXOPBLOCKS blocks, and together they
      have room for the bytes. */
  predicate OpsOk(ops: seq<nat>, n: nat)
  {
    n <= |ops| * (3 * BSIZE) && forall x | x in ops :: x <= RedoLog.MAXOPBLOCKS
  }

  lemma NoOps()
    ensures OpsOk([], 0)
  {
  }

  lemma OneMoreOp(ops: seq<nat>, x: nat, done: nat, n1: nat)
    requires OpsOk(ops, done) && x <= RedoLog.MAXOPBLOCKS && n1 <= 3 * BSIZE
    ensures OpsOk(ops + [x], done + n1)
  {
  }

  lemma FewerBytes(ops: seq<nat>, m: nat, n: nat)
    requires n <= m && OpsOk(ops, m)
    ensures OpsOk(ops, n)
  {
  }

  lemma ShortCause(fs: Fs, fs': Fs, i: nat, off: nat, left: nat, n1: nat, r: int, more: nat, supply: nat)
    requires Shape(fs) && Shape(fs') && i in fs.inodes && i in fs'.inodes && n1 == Min(left, 3 * BSIZE)
    requires -1 <= r < n1
    requires r >= 0 ==> (r == more && Full(fs'.sb, fs'.bitmap)) || more == supply
    requires r < 0 ==> Contents(fs', i) == Contents(fs, i) && WriteRefused(|Contents(fs, i)|, off, n1)
    ensures r >= 0 ==> CutShort(fs', i, off + r, left - r, more == r, more == supply)
    ensures r < 0 ==> CutShort(fs', i, off, left, true, supply == 0)
  {
    hide Contents, Full;
  }

  class FileSystem {
    const sb: Superblock
    var bitmap: seq<byte>
    var blocks: seq<Block>
    /** In-memory inodes by number, and their copies in the inode blocks. */
    var inodes: map<nat, Inode>
    var dinodes: map<nat, Inode>
    /** Which slot names each used data block. */
    ghost var owner: Owner
    /** Distinct blocks passed to log_write since the operation began. */
    ghost var logged: set<nat>

    ghost function Img(): Fs
      reads this
    {
      Fs(sb, bitmap, blocks, inodes)
    }

    ghost predicate Valid()
      reads this
    {
      Accounted(Img(), owner) && AllMapped(Img())
    }

    /** A file system over an image whose blocks are accounted for and whose files have no holes. */
    constructor (sb: Superblock, bitmap: seq<byte>, blocks: seq<Block>, inodes: map<nat, Inode>, ghost owner: Owner)
      requires Accounted(Fs(sb, bitmap, blocks, inodes), owner) && AllMapped(Fs(sb, bitmap, blocks, inodes))
      ensures Valid() && Img() == Fs(sb, bitmap, blocks, inodes) && this.owner == owner
      ensures dinodes == inodes && logged == {}
    {
      this.sb, this.bitmap, this.blocks, this.inodes, this.dinodes := sb, bitmap, blocks, inodes, inodes;
      this.owner, this.logged := owner, {};
    }

    /** Allocate a zeroed disk block: the lowest free one, or 0 when the disk is full. */
    method Balloc() returns (r: nat)
      requires Shape(Img()) && forall b: nat | b < sb.datastart :: Used(bitmap, b)
      modifies this`bitmap, this`blocks, this`logged
      ensures r == 0 ==> Img() == old(Img()) && logged == old(logged) && Full(sb, bitmap)
      ensures r != 0 ==>
                && sb.datastart <= r < sb.size && !Used(old(bitmap), r)
                && (forall b: nat | b < r :: Used(old(bitmap), b))
                && Img() == Taken(old(Img()), r)
                && logged == old(logged) + {BBlock(sb, r), r}
    {
      hide Used, MarkUsed, BBlock;
      var b := 0;
      while b < sb.size
        invariant forall c: nat | c < b && c < sb.size :: Used(bitmap, c)
        invariant Img() == old(Img()) && logged == old(logged)
        decreases sb.size - b
      {
        var bi := 0;
        while bi < BPB && b + bi < sb.size
          invariant 0 <= bi <= BPB
          invariant forall c: nat | c < b + bi && c < sb.size :: Used(bitmap, c)
          invariant Img() == old(Img()) && logged == old(logged)
        {
          if !Used(bitmap, b + bi) {
            r := b + bi;
            bitmap := MarkUsed(bitmap, r);
            logged := logged + {BBlock(sb, r)};
            blocks := blocks[r := ZeroBlock()];
            logged := logged + {r};
            return;
          }
          bi := bi + 1;
        }
        b := b + BPB;
      }
      r := 0;
    }

    /** Free a disk block; freeing a free block panics. */
    method Bfree(b: nat) returns (panic: bool)
      requires Shape(Img()) && b < sb.size
      modifies this`bitmap, this`logged
      ensures panic <==> !Used(old(bitmap), b)
      ensures panic ==> bitmap == old(bitmap) && logged == old(logged)
      ensures !panic ==>
                bitmap == MarkFree(old(bitmap), b) && Shape(Img()) && logged == old(logged) + {BBlock(sb, b)}
    {
      if !Used(bitmap, b) {
        return true;
      }
      panic := false;
      bitmap := MarkFree(bitmap, b);
      logged := logged + {BBlock(sb, b)};
    }

    /** balloc and store the address in an empty slot; entries of the indirect block are logged. */
    method AllocSlot(i: nat, j: nat) returns (r: nat, ghost bits: set<nat>)
      requires Accounted(Img(), owner) && i in inodes && j < SLOTS
      requires At(Img(), i, j) == 0 && (j > IND ==> At(Img(), i, IND) != 0)
      modifies this`bitmap, this`blocks, this`inodes, this`owner, this`logged
      ensures Accounted(Img(), owner) && Extends(old(Img()), Img(), i) && i in inodes
      ensures At(Img(), i, j) == r
      ensures r == 0 ==>
                Img() == old(Img()) && logged == old(logged) && owner == old(owner) && Full(sb, bitmap) && bits == {}
      ensures r != 0 ==> r < sb.size && blocks[r] == ZeroBlock() && bits == {BBlock(sb, r)}
      ensures r != 0 ==> forall m | 0 <= m < SLOTS && m != j :: At(Img(), i, m) == At(old(Img()), i, m)
      ensures r != 0 ==>
                logged == old(logged) + bits + {r} + if j > IND then {At(Img(), i, IND)} else {}
    {
      hide At, Used, MarkUsed, SetWord, Ledger, UsedData, Extends;
      ghost var fs := Img();
      r := Balloc();
      bits := {};
      if r == 0 {
        SelfExtends(fs, i);
        return;
      }
      bits := {BBlock(sb, r)};
      AllocEffect(fs, owner, i, j, r);
      var ip := inodes[i];
      if j <= IND {
        inodes := inodes[i := ip.(addrs := ip.addrs[j := r])];
      } else {
        var ind := ip.addrs[IND];
        blocks := blocks[ind := SetWord(blocks[ind], j - 13, r)];
        logged := logged + {ind};
      }
      owner := owner[r := (i, j)];
      assert Img() == Assign(Taken(fs, r), i, j, r);
    }

    /** The indirect block of inode i, allocated if missing. */
    method LoadIndirect(i: nat) returns (ind: nat, ghost bits: set<nat>)
      requires Accounted(Img(), owner) && i in inodes
      modifies this`bitmap, this`blocks, this`inodes, this`owner, this`logged
      ensures Accounted(Img(), owner) && Extends(old(Img()), Img(), i) && i in inodes
      ensures ind == At(Img(), i, IND)
      ensures ind == 0 || At(old(Img()), i, IND) != 0 ==>
                Img() == old(Img()) && logged == old(logged) && owner == old(owner) && bits == {}
      ensures ind == 0 ==> Full(sb, bitmap)
      ensures forall m | 0 <= m < SLOTS && m != IND :: At(Img(), i, m) == At(old(Img()), i, m)
      ensures |bits| <= if At(old(Img()), i, IND) == 0 then 1 else 0
      ensures logged <= old(logged) + bits + ({ind} - {0})
    {
      hide At, Used, MarkUsed, SetWord, Word, Ledger, UsedData, Extends;
      IndirectIs(Img(), i);
      SelfExtends(Img(), i);
      ind, bits := inodes[i].addrs[IND], {};
      if ind == 0 {
        ind, bits := AllocSlot(i, IND);
      }
    }

    /** bmap past the direct blocks: through the indirect block, allocating both levels. */
    method BmapIndirect(i: nat, bn: nat) returns (addr: nat, ghost bits: set<nat>)
      requires Accounted(Img(), owner) && i in inodes && NDIRECT <= bn < MAXFILE
      modifies this`bitmap, this`blocks, this`inodes, this`owner, this`logged
      ensures Accounted(Img(), owner) && Extends(old(Img()), Img(), i) && i in inodes
      ensures addr == At(Img(), i, SlotOf(bn))
      ensures At(old(Img()), i, SlotOf(bn)) != 0 ==>
                Img() == old(Img()) && logged == old(logged) && owner == old(owner) && bits == {}
      ensures addr == 0 ==> Full(sb, bitmap)
      ensures At(old(Img()), i, SlotOf(bn)) == 0 && addr != 0 ==> addr < sb.size && blocks[addr] == ZeroBlock()
      ensures forall m | 0 <= m < SLOTS && m != SlotOf(bn) && m != IND ::
                At(Img(), i, m) == At(old(Img()), i, m)
      ensures |bits| <= (if At(old(Img()), i, SlotOf(bn)) == 0 then 1 else 0)
                        + (if At(old(Img()), i, IND) == 0 then 1 else 0)
      ensures logged <= old(logged) + bits + ({addr, At(Img(), i, IND)} - {0})
    {
      hide At, Used, MarkUsed, SetWord, Word, Ledger, UsedData, Extends;
      ghost var fs := Img();
      SlotValue(fs, i, SlotOf(bn));
      var ind, b1 := LoadIndirect(i);
      bits := b1;
      ghost var fs1 := Img();
      SlotValue(fs1, i, SlotOf(bn));
      if ind == 0 {
        addr := 0;
        return;
      }
      addr := Word(blocks[ind], bn - NDIRECT);
      if addr == 0 {
        ghost var b2;
        addr, b2 := AllocSlot(i, bn + 1);
        bits := b1 + b2;
        ExtendsTransitive(fs, fs1, Img(), i);
      }
    }

    /** The address of the nth block of inode i, allocating it, and the indirect block first if
        need be; 0 when the disk runs out, which leaks nothing. */
    method Bmap(i: nat, bn: nat) returns (addr: nat, ghost bits: set<nat>)
      requires Accounted(Img(), owner) && i in inodes && bn < MAXFILE
      modifies this`bitmap, this`blocks, this`inodes, this`owner, this`logged
      ensures Accounted(Img(), owner) && Extends(old(Img()), Img(), i) && i in inodes
      ensures addr == At(Img(), i, SlotOf(bn))
      ensures At(old(Img()), i, SlotOf(bn)) != 0 ==>
                Img() == old(Img()) && logged == old(logged) && owner == old(owner) && bits == {}
      ensures addr == 0 ==> Full(sb, bitmap)
      ensures At(old(Img()), i, SlotOf(bn)) == 0 && addr != 0 ==> addr < sb.size && blocks[addr] == ZeroBlock()
      // no slot but the block's own, and the indirect one on the way to it, is touched
      ensures forall m | 0 <= m < SLOTS && m != SlotOf(bn) && (m != IND || bn < NDIRECT) ::
                At(Img(), i, m) == At(old(Img()), i, m)
      // log_write budget: a bitmap block per allocation, the new block, the indirect block
      ensures |bits| <= (if At(old(Img()), i, SlotOf(bn)) == 0 then 1 else 0)
                        + (if bn >= NDIRECT && At(old(Img()), i, IND) == 0 then 1 else 0)
      ensures logged <= old(logged) + bits + ({addr, At(Img(), i, IND)} - {0})
    {
      hide At, Used, MarkUsed, SetWord, Word, Ledger, UsedData, Extends;
      if bn >= NDIRECT {
        addr, bits := BmapIndirect(i, bn);
        return;
      }
      SlotValue(Img(), i, bn);
      SelfExtends(Img(), i);
      addr, bits := inodes[i].addrs[bn], {};
      if addr == 0 {
        addr, bits := AllocSlot(i, bn);
      }
    }

    /** Copy an in-memory inode to its inode block. */
    method Iupdate(i: nat)
      requires i in inodes
      modifies this`dinodes, this`logged
      ensures dinodes == old(dinodes)[i := inodes[i]] && logged == old(logged) + {IBlock(sb, i)}
    {
      dinodes := dinodes[i := inodes[i]];
      logged := logged + {IBlock(sb, i)};
    }

    /** One turn of writei's loop: map the block at position o and copy `chunk` into it from the
        user, who can supply `supply` bytes of it. The whole chunk is logged; what a failing copy
        has already stored stays in the cached block, unlogged. */
    method WriteChunk(i: nat, o: nat, chunk: seq<byte>, supply: nat)
      returns (placed: nat, ghost addr: nat, ghost bits: set<nat>)
      requires Accounted(Img(), owner) && i in inodes
      requires 0 < |chunk| && o % BSIZE + |chunk| <= BSIZE && o + |chunk| <= MAXFILE * BSIZE
      modifies this`bitmap, this`blocks, this`inodes, this`owner, this`logged
      ensures Accounted(Img(), owner) && i in inodes && placed <= |chunk|
      ensures Stored(old(Img()), Img(), i, o, chunk[..placed])
      ensures placed < |chunk| ==> (placed == 0 && Full(sb, bitmap)) || placed == supply
      ensures placed <= supply
      ensures |bits| <= (if At(old(Img()), i, SlotOf(o / BSIZE)) == 0 then 1 else 0)
                        + (if o / BSIZE >= NDIRECT && At(old(Img()), i, IND) == 0 then 1 else 0)
      ensures logged <= old(logged) + bits + ({addr, At(Img(), i, IND)} - {0})
      ensures placed == |chunk| ==> addr in logged
      ensures At(old(Img()), i, IND) != 0 ==> At(Img(), i, IND) == At(old(Img()), i, IND)
      ensures o / BSIZE >= NDIRECT && placed == |chunk| ==> At(Img(), i, IND) != 0
    {
      hide At, Used, MarkUsed, SetWord, Word, Ledger, UsedData, Patched, Stored, Extends;
      ghost var fs, owner0 := Img(), owner;
      var a;
      a, bits := Bmap(i, o / BSIZE);
      addr := a;
      placed := Min(supply, |chunk|);
      ChunkEffect(fs, owner0, Img(), owner, i, o, chunk[..placed]);
      if a == 0 {
        assert chunk[..0] == [];
        return 0, addr, bits;
      }
      blocks := blocks[a := Patched(blocks[a], o, chunk[..placed])];
      if placed < |chunk| {
        return;
      }
      logged := logged + {a};
    }

    /** writei's loop: chunk after chunk, each within one block, until done, full or refused. `tot`
        bytes went in with whole chunks; `got` counts also those of a chunk whose copy failed. */
    method WriteChunks(i: nat, off: nat, src: seq<byte>, accepts: nat)
      returns (tot: nat, ghost got: nat, ghost t: Tally)
      requires Valid() && i in inodes && off <= inodes[i].size && off + |src| <= MAXFILE * BSIZE
      modifies this`bitmap, this`blocks, this`inodes, this`owner, this`logged
      ensures Accounted(Img(), owner) && CopyEnd(|src|, accepts, tot, got)
      ensures Stored(old(Img()), Img(), i, off, src[..got])
      ensures tot == |src| || (tot == got && Full(sb, bitmap)) || got == accepts
      ensures Within(Img(), i, off, |src|, t, logged, old(logged))
    {
      hide At, Used, Ledger, UsedData, Stored, Mapped, Full, Within, NextTally, Span;
      ghost var fs := Img();
      var n := |src|;
      tot, got, t := 0, 0, Tally({}, {}, 0, 0, 0);
      NothingStored(fs, i, off, src);
      BudgetStart(fs, i, off, n, logged);
      FirstBlock(fs, i, off);
      while tot < n
        invariant 0 <= tot <= n && tot == got <= accepts
        invariant Accounted(Img(), owner) && i in inodes && Stored(fs, Img(), i, off, src[..tot])
        invariant tot == 0 || tot == n || (off + tot) % BSIZE == 0
        invariant tot == 0 ==> Img() == fs
        invariant OnBudget(Img(), i, off, tot, n, t, logged, old(logged))
      {
        ghost var fs1, logged1 := Img(), logged;
        var o := off + tot;
        var m := Min(n - tot, BSIZE - o % BSIZE);
        var chunk := src[tot..tot+m];
        var placed, addr, more := WriteChunk(i, o, chunk, accepts - tot);
        SpanStep(off, tot, m, n);
        BudgetStep(fs1, Img(), i, off, tot, m, n, t, logged1, logged, old(logged), o / BSIZE, addr, more, placed == m);
        t := NextTally(fs1, i, o / BSIZE, t, addr, more);
        StoredTwice(fs, fs1, Img(), i, off, src[..tot], chunk[..placed]);
        TakeMore(src, tot, m, placed);
        got := tot + placed;
        if placed < m {
          break;
        }
        BlockEnd(o, m, n - tot);
        tot := tot + m;
      }
    }

    /** Store src at off; the user can supply `accepts` bytes of it. The result counts whole
        chunks, and it is short only when the disk filled up or the copy failed; then the bytes of
        the failed chunk that were copied are in the file too, as far as it already reached. */
    method Writei(i: nat, off: nat, src: seq<byte>, accepts: nat) returns (r: int, ghost got: nat)
      requires Valid() && i in inodes && off < UINT_LIMIT && |src| < UINT_LIMIT
      modifies this`bitmap, this`blocks, this`inodes, this`dinodes, this`owner, this`logged
      ensures Valid() && inodes.Keys == old(inodes.Keys)
      ensures WriteRefused(old(inodes[i].size), off, |src|) ==>
                r == -1 && got == 0 && Img() == old(Img()) && dinodes == old(dinodes) && logged == old(logged)
      ensures !WriteRefused(old(inodes[i].size), off, |src|) ==>
                && 0 <= r && CopyEnd(|src|, accepts, r, got)
                && Contents(Img(), i) == Counted(Contents(old(Img()), i), off, src[..got], r)
                && (r == |src| || (r == got && Full(sb, bitmap)) || got == accepts)
                && dinodes == old(dinodes)[i := inodes[i]]
      ensures forall k | k in inodes && k != i ::
                inodes[k] == old(inodes[k]) && Contents(Img(), k) == Contents(old(Img()), k)
      ensures old(logged) == {} ==>
                |logged| <= 2 * Span(off, |src|) + 3 - if off % BSIZE != 0 && |src| > 0 then 1 else 0
    {
      hide At, Used, Ledger, UsedData, Stored, Mapped, Full, Within, Contents, Counted, Span, Shape;
      if off > inodes[i].size || off + |src| >= UINT_LIMIT {
        r, got := -1, 0;
      } else if off + |src| > MAXFILE * BSIZE {
        r, got := -1, 0;
      } else {
        ghost var fs := Img();
        var tot, all, t := WriteChunks(i, off, src, accepts);
        ghost var fs1 := Img();
        WriteEffect(fs, fs1, owner, i, off, src[..all], tot);
        if off + tot > inodes[i].size {
          inodes := inodes[i := inodes[i].(size := off + tot)];
        }
        assert Img() == WithSize(fs1, i, Reach(fs.inodes[i].size, off + tot));
        Iupdate(i);
        r, got := tot, all;
        BudgetTotal(fs1, i, off, |src|, t, logged, old(logged), IBlock(sb, i));
      }
    }

    /** Read up to n bytes at off into a buffer that takes `accepts` bytes: the slice of the
        contents clipped to the size, or -1 when the copy out fails. Never allocates. */
    method Readi(i: nat, off: nat, n: nat, accepts: nat) returns (r: int, dst: seq<byte>)
      requires Valid() && i in inodes && off < UINT_LIMIT && n < UINT_LIMIT
      modifies this`bitmap, this`blocks, this`inodes, this`owner, this`logged
      ensures Img() == old(Img()) && owner == old(owner) && logged == old(logged)
      ensures off > inodes[i].size || off + n >= UINT_LIMIT ==> r == 0 && dst == []
      ensures off <= inodes[i].size && off + n < UINT_LIMIT ==>
                var end := Min(off + n, inodes[i].size);
                if end - off <= accepts then r == end - off && dst == Contents(Img(), i)[off..end] else r == -1
    {
      hide At, Used, Ledger, UsedData, Contents, Full, Mapped, AllMapped;
      dst := [];
      if off > inodes[i].size || off + n >= UINT_LIMIT {
        return 0, dst;
      }
      ghost var c := Contents(Img(), i);
      ContentsLength(Img(), i);
      var want := if off + n > inodes[i].size then inodes[i].size - off else n;
      var tot := 0;
      while tot < want
        invariant 0 <= tot <= want
        invariant Img() == old(Img()) && owner == old(owner) && logged == old(logged)
        invariant dst == c[off..off+tot] && tot <= accepts
      {
        var o := off + tot;
        var m := Min(want - tot, BSIZE - o % BSIZE);
        var piece := ReadChunk(i, o, m);
        if tot + m > accepts {
          return -1, dst;
        }
        SliceJoin(c, off, o, o + m);
        dst := dst + piece;
        tot := tot + m;
      }
      r := tot;
    }

    /** One turn of readi: find the block at position o and copy m bytes of it. */
    method ReadChunk(i: nat, o: nat, m: nat) returns (piece: seq<byte>)
      requires Valid() && i in inodes && 0 < m && o % BSIZE + m <= BSIZE && o + m <= inodes[i].size
      modifies this`bitmap, this`blocks, this`inodes, this`owner, this`logged
      ensures Img() == old(Img()) && owner == old(owner) && logged == old(logged)
      ensures |Contents(Img(), i)| == inodes[i].size && piece == Contents(Img(), i)[o..o+m]
    {
      hide At, Used, Ledger, UsedData, Extends, Contents, Full, Mapped;
      ContentsLength(Img(), i);
      ReadAddr(Img(), owner, i, o);
      var addr, bits := Bmap(i, o / BSIZE);
      ChunkBytes(Img(), i, o, m);
      piece := blocks[addr][o % BSIZE..o % BSIZE + m];
    }

    /** itrunc: free every block of inode i, the indirect block last, and set its size to 0. */
    method Itrunc(i: nat)
      requires Valid() && i in inodes
      modifies this`bitmap, this`inodes, this`dinodes, this`owner, this`logged
      ensures Valid() && inodes.Keys == old(inodes.Keys)
      ensures Contents(Img(), i) == [] && inodes[i].typ == old(inodes[i].typ) && inodes[i].nlink == old(inodes[i].nlink)
      ensures dinodes == old(dinodes)[i := inodes[i]]
      ensures forall k | k in inodes && k != i ::
                inodes[k] == old(inodes[k]) && Contents(Img(), k) == Contents(old(Img()), k)
      // exactly the blocks some slot of i named are free now
      ensures forall b: nat | b < sb.size ::
                Used(bitmap, b) <==> Used(old(bitmap), b) && !(b in old(owner) && old(owner)[b].0 == i)
    {
      hide At, Used, MarkFree, Ledger, UsedData, FreedBits, Contents, AllMapped;
      ghost var fs := Img();
      var ip := inodes[i];
      NoneFreed(fs, owner, i);
      FreeDirect(fs, i);
      if ip.addrs[IND] != 0 {
        FreeIndirect(fs, i);
      } else {
        NoIndirect(fs, owner, i, bitmap);
      }
      TruncAccounted(fs, owner, i, bitmap);
      FreedAll(fs, owner, i, bitmap);
      TruncContents(fs, i, bitmap);
      inodes := inodes[i := inodes[i].(size := 0)];
      owner := Rest(owner, i);
      assert inodes[i].addrs == seq(13, _ => 0);
      assert Img() == Emptied(fs, i, bitmap);
      Iupdate(i);
    }

    /** itrunc's loop over the direct addresses. */
    method FreeDirect(ghost fs: Fs, i: nat)
      requires Accounted(fs, owner) && fs == Img() && i in inodes && FreedBits(fs, owner, i, bitmap, 0, 0)
      modifies this`bitmap, this`inodes, this`logged
      ensures FreedBits(fs, owner, i, bitmap, 12, 0) && |bitmap| == |fs.bitmap|
      ensures inodes == fs.inodes[i := fs.inodes[i].(addrs := seq(12, _ => 0) + [fs.inodes[i].addrs[IND]])]
    {
      hide At, Used, MarkFree, Ledger, UsedData, FreedBits;
      var j := 0;
      while j < NDIRECT
        invariant 0 <= j <= NDIRECT && i in inodes && |bitmap| == |fs.bitmap|
        invariant FreedBits(fs, owner, i, bitmap, j, 0)
        invariant |inodes[i].addrs| == 13 && inodes == fs.inodes[i := fs.inodes[i].(addrs := inodes[i].addrs)]
        invariant forall x | 0 <= x < 13 :: inodes[i].addrs[x] == if x < j then 0 else fs.inodes[i].addrs[x]
      {
        FreeStep(fs, owner, i, bitmap, j, 0, j, j + 1, 0);
        SlotValue(fs, i, j);
        if inodes[i].addrs[j] != 0 {
          var p := Bfree(inodes[i].addrs[j]);
          assert !p;
          inodes := inodes[i := inodes[i].(addrs := inodes[i].addrs[j := 0])];
        }
        j := j + 1;
      }
      assert inodes[i].addrs == seq(12, _ => 0) + [fs.inodes[i].addrs[IND]];
    }

    /** itrunc's loop over the indirect block, then the indirect block itself. */
    method FreeIndirect(ghost fs: Fs, i: nat)
      requires Accounted(fs, owner) && i in fs.inodes && fs.inodes[i].addrs[IND] != 0
      requires fs.sb == sb && fs.blocks == blocks && |bitmap| == |fs.bitmap|
      requires FreedBits(fs, owner, i, bitmap, 12, 0)
      requires inodes == fs.inodes[i := fs.inodes[i].(addrs := seq(12, _ => 0) + [fs.inodes[i].addrs[IND]])]
      modifies this`bitmap, this`inodes, this`logged
      ensures FreedBits(fs, owner, i, bitmap, 13, 256)
      ensures inodes == fs.inodes[i := fs.inodes[i].(addrs := seq(13, _ => 0))]
    {
      hide At, Used, MarkFree, Ledger, UsedData, FreedBits, Word;
      var ind := inodes[i].addrs[IND];
      var a := blocks[ind];
      var j := 0;
      while j < NINDIRECT
        invariant 0 <= j <= NINDIRECT && inodes == old(inodes) && |bitmap| == |fs.bitmap|
        invariant FreedBits(fs, owner, i, bitmap, 12, j)
      {
        FreeStep(fs, owner, i, bitmap, 12, j, j + 13, 12, j + 1);
        SlotValue(fs, i, j + 13);
        if Word(a, j) != 0 {
          var p := Bfree(Word(a, j));
          assert !p;
        }
        j := j + 1;
      }
      FreeStep(fs, owner, i, bitmap, 12, 256, IND, 13, 256);
      SlotValue(fs, i, IND);
      var p := Bfree(ind);
      assert !p;
      inodes := inodes[i := inodes[i].(addrs := inodes[i].addrs[IND := 0])];
      assert inodes[i].addrs == seq(13, _ => 0);
    }

    /** One filewrite transaction: begin_op, writei of a chunk, end_op. */
    method WriteOp(i: nat, off: nat, piece: seq<byte>, accepts: nat) returns (r: int, ghost got: nat)
      requires Valid() && i in inodes && off < UINT_LIMIT && |piece| <= 3 * BSIZE
      modifies this`bitmap, this`blocks, this`inodes, this`dinodes, this`owner, this`logged
      ensures Valid() && OthersKept(old(Img()), Img(), i) && -1 <= r && i in inodes
      ensures r >= 0 ==>
                && off <= |Contents(old(Img()), i)| && off + r <= MAXFILE * BSIZE
                && CopyEnd(|piece|, accepts, r, got)
                && Contents(Img(), i) == Counted(Contents(old(Img()), i), off, piece[..got], r)
                && (r == |piece| || (r == got && Full(sb, bitmap)) || got == accepts)
      ensures r < 0 ==> got == 0 && Contents(Img(), i) == Contents(old(Img()), i)
      ensures r < 0 <==> WriteRefused(|Contents(old(Img()), i)|, off, |piece|)
      ensures |logged| <= RedoLog.MAXOPBLOCKS
    {
      hide At, Used, Ledger, UsedData, Contents, Full, Mapped, AllMapped, Counted, Span;
      logged := {};
      ContentsLength(Img(), i);
      r, got := Writei(i, off, piece, accepts);
      ChunkBudget(off, |piece|);
    }

    /** filewrite on an inode: chunks of at most max bytes, one log transaction each. `off` is
        f->off; `ops` lists how many distinct blocks each transaction logged; `got` counts, beside
        the bytes that f->off moved over, those that a failing copy left in a cached block. */
    method Filewrite(i: nat, off: nat, src: seq<byte>, accepts: nat)
      returns (ret: int, off': nat, ghost got: nat, ghost ops: seq<nat>)
      requires Valid() && i in inodes && off < UINT_LIMIT && |src| < 0x8000_0000
      modifies this`bitmap, this`blocks, this`inodes, this`dinodes, this`owner, this`logged
      ensures Valid() && OthersKept(old(Img()), Img(), i) && i in inodes
      ensures off <= off' && CopyEnd(|src|, accepts, off' - off, got)
      ensures got > 0 ==> off <= |Contents(old(Img()), i)|
      ensures Contents(Img(), i) ==
              if got == 0 then Contents(old(Img()), i)
              else Counted(Contents(old(Img()), i), off, src[..got], off' - off)
      ensures ret == if off' == off + |src| then |src| else -1
      // it ends short only for want of blocks, of user bytes or of room in the file
      ensures off' < off + |src| ==> CutShort(Img(), i, off', off + |src| - off', got == off' - off, got == accepts)
      ensures OpsOk(ops, off' - off)
    {
      hide At, Used, Ledger, UsedData, Contents, Mapped, AllMapped, Full, Counted, WrittenSoFar, OthersKept;
      hide Shape, CopyEnd, CutShort, OpsOk, WriteRefused;
      var max := (RedoLog.MAXOPBLOCKS - 1 - 1 - 2) / 2 * BSIZE;
      var n := |src|;
      var done := 0;
      off', got, ops := off, 0, [];
      ghost var c := Contents(Img(), i);
      SoFarNothing(c, off, src);
      SelfKept(Img(), i);
      NoOps();
      CopyEndWhole(n, accepts, 0);
      while done < n
        invariant 0 <= done <= n && Valid() && i in inodes && OthersKept(old(Img()), Img(), i)
        invariant off' == off + done < UINT_LIMIT && (done > 0 ==> off <= |c|)
        invariant done == got <= accepts && CopyEnd(n, accepts, done, got)
        invariant Contents(Img(), i) == WrittenSoFar(c, off, src[..done], done)
        invariant OpsOk(ops, done)
      {
        ghost var fs1 := Img();
        var n1 := Min(n - done, max);
        var r, more := WriteOp(i, off', src[done..done + n1], accepts - done);
        OthersKeptAgain(old(Img()), fs1, Img(), i);
        OneMoreOp(ops, |logged|, done, n1);
        ops := ops + [|logged|];
        if r >= 0 {
          CopyEndMore(n, accepts, done, n1, r, more);
          SoFarMore(c, off, src, done, n1, more, r);
          off' := off' + r;
          got := done + more;
        }
        if r != n1 {
          ShortCause(fs1, Img(), i, off + done, n - done, n1, r, more, accepts - done);
          FewerBytes(ops, done + n1, off' - off);
          break;
        }
        done := done + r;
      }
      SoFarMeans(c, off, src[..got], off' - off);
      ret := if done == n then n else -1;
    }
  }
}
