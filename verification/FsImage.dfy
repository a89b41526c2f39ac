/** The file system image (kernel/fs.h, kernel/fs.c): bitmap bits, inode block maps, who owns
    each data block, and the bytes of a file. */
module FsImage {
  import opened Disk

  const NDIRECT: nat := 12
  const NINDIRECT: nat := 256
  const MAXFILE: nat := 268
  const BPB: nat := 8192

  // ---- Bitmap bits ----

  /** 1 << k */
  function Mask(k: nat): (m: nat)
    ensures m > 0
  {
    if k == 0 then 1 else 2 * Mask(k - 1)
  }

  /** (x & (1 << k)) != 0 */
  predicate Bit(x: nat, k: nat)
  {
    if k == 0 then x % 2 == 1 else Bit(x / 2, k - 1)
  }

  /** Turning on a clear bit adds its mask, and changes no other bit. */
  lemma {:induction false} BitOn(x: nat, k: nat, m: nat)
    requires !Bit(x, k)
    ensures Bit(x + Mask(k), m) == (m == k || Bit(x, m))
  {
    if k == 0 {
      assert (x + 1) / 2 == x / 2;
    } else {
      assert (x + Mask(k)) / 2 == x / 2 + Mask(k - 1);
      if m > 0 { BitOn(x / 2, k - 1, m - 1); }
    }
  }

  /** Turning off a set bit subtracts its mask, and changes no other bit. */
  lemma {:induction false} BitOff(x: nat, k: nat, m: nat)
    requires Bit(x, k)
    ensures x >= Mask(k) && Bit(x - Mask(k), m) == (m != k && Bit(x, m))
  {
    if k == 0 {
      assert (x - 1) / 2 == x / 2;
    } else {
      BitOff(x / 2, k - 1, if m > 0 then m - 1 else 0);
      assert (x - Mask(k)) / 2 == x / 2 - Mask(k - 1);
    }
  }

  lemma {:induction false} BitRoom(x: nat, k: nat, n: nat)
    requires !Bit(x, k) && k < n && x < Mask(n)
    ensures x + Mask(k) < Mask(n)
  {
    var half := Mask(n - 1);
    assert Mask(n) == 2 * half;
    var q := x / 2;
    assert x == 2 * q + x % 2;
    if k == 0 {
      assert x % 2 == 0;
    } else {
      BitRoom(q, k - 1, n - 1);
      assert Mask(k) == 2 * Mask(k - 1);
    }
  }

  lemma Mask8()
    ensures Mask(8) == 256
  {
    assert Mask(4) == 16;
  }

  predicate Used(bitmap: seq<byte>, b: nat)
    requires b / 8 < |bitmap|
  {
    Bit(bitmap[b / 8] as nat, b % 8)
  }

  /** bp->data[bi/8] |= m */
  function MarkUsed(bitmap: seq<byte>, b: nat): (r: seq<byte>)
    requires b / 8 < |bitmap| && !Used(bitmap, b)
    ensures |r| == |bitmap|
  {
    Mask8();
    BitRoom(bitmap[b / 8] as nat, b % 8, 8);
    bitmap[b / 8 := (bitmap[b / 8] as nat + Mask(b % 8)) as byte]
  }

  /** bp->data[bi/8] &= ~m */
  function MarkFree(bitmap: seq<byte>, b: nat): (r: seq<byte>)
    requires b / 8 < |bitmap| && Used(bitmap, b)
    ensures |r| == |bitmap|
  {
    BitOff(bitmap[b / 8] as nat, b % 8, 0);
    bitmap[b / 8 := (bitmap[b / 8] as int - Mask(b % 8)) as byte]
  }

  lemma MarkUsedOnly(bitmap: seq<byte>, b: nat, c: nat)
    requires b / 8 < |bitmap| && c / 8 < |bitmap| && !Used(bitmap, b)
    ensures Used(MarkUsed(bitmap, b), c) == (c == b || Used(bitmap, c))
  {
    BitOn(bitmap[b / 8] as nat, b % 8, c % 8);
  }

  lemma MarkFreeOnly(bitmap: seq<byte>, b: nat, c: nat)
    requires b / 8 < |bitmap| && c / 8 < |bitmap| && Used(bitmap, b)
    ensures Used(MarkFree(bitmap, b), c) == (c != b && Used(bitmap, c))
  {
    BitOff(bitmap[b / 8] as nat, b % 8, c % 8);
  }

  // ---- Inodes and block maps ----

  datatype Inode = Inode(typ: nat, nlink: nat, size: nat, addrs: seq<nat>)

  /** Data blocks are datastart..size; everything below is metadata. */
  datatype Superblock = Superblock(size: nat, bmapstart: nat, inodestart: nat, datastart: nat)

  /** The image as the running system sees it through the cache: bitmap bytes, block contents
      and inodes by number. */
  datatype Fs = Fs(sb: Superblock, bitmap: seq<byte>, blocks: seq<Block>, inodes: map<nat, Inode>)

  /** The places an inode can name a block: 0..11 direct, 12 the indirect block, 13.. its entries. */
  const SLOTS: nat := 269
  const IND: nat := 12

  function SlotOf(bn: nat): nat
  {
    if bn < NDIRECT then bn else bn + 1
  }

  predicate GoodInode(sb: Superblock, ip: Inode)
  {
    && |ip.addrs| == NDIRECT + 1 && ip.size <= MAXFILE * BSIZE
    && forall k | 0 <= k <= NDIRECT :: ip.addrs[k] < sb.size
  }

  predicate Shape(fs: Fs)
  {
    && 0 < fs.sb.datastart <= fs.sb.size < 0x1_0000_0000
    && |fs.blocks| == fs.sb.size <= 8 * |fs.bitmap|
    && forall i | i in fs.inodes :: GoodInode(fs.sb, fs.inodes[i])
  }

  /** The address in slot j of inode i, 0 when there is none. */
  function At(fs: Fs, i: nat, j: nat): nat
    requires Shape(fs) && i in fs.inodes && j < SLOTS
  {
    var a := fs.inodes[i].addrs;
    if j <= IND then a[j] else if a[IND] == 0 then 0 else Word(fs.blocks[a[IND]], j - 13)
  }

  /** For each owned block, the inode and slot that name it. */
  type Owner = map<nat, (nat, nat)>

  /** Every address anywhere in an inode names a block of `used`, no two slots name the same
      block, and every block of `used` is named. */
  ghost predicate Ledger(fs: Fs, owner: Owner, used: set<nat>)
  {
    && Shape(fs)
    && (forall i, j | i in fs.inodes && 0 <= j < SLOTS && At(fs, i, j) != 0 ::
          At(fs, i, j) in owner && owner[At(fs, i, j)] == (i, j))
    && (forall b | b in owner ::
          owner[b].0 in fs.inodes && owner[b].1 < SLOTS && At(fs, owner[b].0, owner[b].1) == b)
    && owner.Keys == used
    && forall b | b in used :: fs.sb.datastart <= b < fs.sb.size
  }

  ghost function UsedData(fs: Fs): set<nat>
    requires Shape(fs)
  {
    set b | fs.sb.datastart <= b < fs.sb.size && Used(fs.bitmap, b)
  }

  /** The bitmap says exactly which data blocks are owned, and all metadata is in use. */
  ghost predicate Accounted(fs: Fs, owner: Owner)
  {
    && Shape(fs)
    && Ledger(fs, owner, UsedData(fs))
    && forall b: nat | b < fs.sb.datastart :: Used(fs.bitmap, b)
  }

  /** What the ledger is for: an address occurs at most once in the whole file system. */
  lemma EachBlockOnce(fs: Fs, owner: Owner, i: nat, j: nat, i': nat, j': nat)
    requires Accounted(fs, owner)
    requires i in fs.inodes && i' in fs.inodes && j < SLOTS && j' < SLOTS
    requires At(fs, i, j) != 0 && At(fs, i, j) == At(fs, i', j')
    ensures i == i' && j == j'
    ensures fs.sb.datastart <= At(fs, i, j) < fs.sb.size && Used(fs.bitmap, At(fs, i, j))
  {
    var b := At(fs, i, j);
    assert owner[b] == (i, j);
    assert At(fs, i', j') in owner && owner[At(fs, i', j')] == (i', j');
    assert b in UsedData(fs);
  }

  // ---- Assigning a fresh block to an empty slot ----

  /** balloc's effect: r marked used and zeroed. */
  function Taken(fs: Fs, r: nat): Fs
    requires Shape(fs) && r < fs.sb.size && !Used(fs.bitmap, r)
  {
    fs.(bitmap := MarkUsed(fs.bitmap, r), blocks := fs.blocks[r := ZeroBlock()])
  }

  /** Store address r in slot j of inode i. */
  function Assign(fs: Fs, i: nat, j: nat, r: nat): Fs
    requires Shape(fs) && i in fs.inodes && j < SLOTS && r < fs.sb.size
  {
    var ip := fs.inodes[i];
    if j <= IND then fs.(inodes := fs.inodes[i := ip.(addrs := ip.addrs[j := r])])
    else fs.(blocks := fs.blocks[ip.addrs[IND] := SetWord(fs.blocks[ip.addrs[IND]], j - 13, r)])
  }

  /** Only the assigned slot changes. */
  lemma AtAfterAssign(fs: Fs, owner: Owner, used: set<nat>, i: nat, j: nat, r: nat, i': nat, j': nat)
    requires Ledger(fs, owner, used)
    requires i in fs.inodes && j < SLOTS && At(fs, i, j) == 0 && (j > IND ==> At(fs, i, IND) != 0)
    requires r !in used && 0 < r < fs.sb.size && !Used(fs.bitmap, r)
    requires i' in fs.inodes && j' < SLOTS
    ensures Shape(Assign(Taken(fs, r), i, j, r))
    ensures At(Assign(Taken(fs, r), i, j, r), i', j') == if i' == i && j' == j then r else At(fs, i', j')
  {
    hide Word, SetWord, Used, MarkUsed;
    var fs1 := Taken(fs, r);
    var fs2 := Assign(fs1, i, j, r);
    var ind' := fs.inodes[i'].addrs[IND];
    assert ind' == At(fs, i', IND);
    ZeroWords();
    if j > IND {
      var ind := At(fs, i, IND);
      assert ind in owner && owner[ind] == (i, IND);
      WordAfterSet(fs1.blocks[ind], j - 13, r);
    }
    if j' > IND && ind' != 0 {
      assert ind' in owner && owner[ind'] == (i', IND);
    }
  }

  lemma LedgerAfterAssign(fs: Fs, owner: Owner, used: set<nat>, i: nat, j: nat, r: nat)
    requires Ledger(fs, owner, used)
    requires i in fs.inodes && j < SLOTS && At(fs, i, j) == 0 && (j > IND ==> At(fs, i, IND) != 0)
    requires r !in used && fs.sb.datastart <= r < fs.sb.size && !Used(fs.bitmap, r)
    ensures Ledger(Assign(Taken(fs, r), i, j, r), owner[r := (i, j)], used + {r})
  {
    hide At, Used, MarkUsed;
    var fs2 := Assign(Taken(fs, r), i, j, r);
    forall i', j' | i' in fs.inodes && 0 <= j' < SLOTS
      ensures At(fs2, i', j') == if i' == i && j' == j then r else At(fs, i', j')
    {
      AtAfterAssign(fs, owner, used, i, j, r, i', j');
    }
    assert Shape(fs2) by { AtAfterAssign(fs, owner, used, i, j, r, i, j); }
    assert (owner[r := (i, j)]).Keys == used + {r};
  }

  /** Taking a block out of the free ones of the bitmap adds it to the used ones. */
  lemma UsedAfterAssign(fs: Fs, i: nat, j: nat, r: nat)
    requires Shape(fs) && i in fs.inodes && j < SLOTS
    requires fs.sb.datastart <= r < fs.sb.size && !Used(fs.bitmap, r)
    requires Shape(Assign(Taken(fs, r), i, j, r))
    ensures UsedData(Assign(Taken(fs, r), i, j, r)) == UsedData(fs) + {r}
    ensures forall b: nat | b < fs.sb.datastart && Used(fs.bitmap, b) ::
              Used(Assign(Taken(fs, r), i, j, r).bitmap, b)
  {
    hide Used, MarkUsed, SetWord;
    var fs2 := Assign(Taken(fs, r), i, j, r);
    forall b: nat | b < fs.sb.size
      ensures Used(fs2.bitmap, b) == (b == r || Used(fs.bitmap, b))
    {
      MarkUsedOnly(fs.bitmap, r, b);
    }
  }

  // ---- What one file's growth leaves alone ----

  /** fs' has at least the mappings of fs, the other inodes unchanged, and every data block
      that was mapped in fs holds the same bytes. */
  ghost predicate Extends(fs: Fs, fs': Fs, i: nat)
  {
    && Shape(fs) && Shape(fs') && fs'.sb == fs.sb && fs'.inodes.Keys == fs.inodes.Keys && i in fs.inodes
    && fs'.inodes[i] == fs.inodes[i].(addrs := fs'.inodes[i].addrs)
    && (forall k | k in fs.inodes && k != i :: fs'.inodes[k] == fs.inodes[k])
    && (forall k, j | k in fs.inodes && 0 <= j < SLOTS && (k != i || At(fs, k, j) != 0) ::
          At(fs', k, j) == At(fs, k, j))
    && (forall k, j | k in fs.inodes && 0 <= j < SLOTS && j != IND && 0 != At(fs, k, j) < fs.sb.size ::
          fs'.blocks[At(fs, k, j)] == fs.blocks[At(fs, k, j)])
  }

  lemma SelfExtends(fs: Fs, i: nat)
    requires Shape(fs) && i in fs.inodes
    ensures Extends(fs, fs, i)
  {
  }

  lemma ExtendsTransitive(fs: Fs, fs1: Fs, fs2: Fs, i: nat)
    requires Extends(fs, fs1, i) && Extends(fs1, fs2, i)
    ensures Extends(fs, fs2, i)
  {
    hide At;
    forall k, j | k in fs.inodes && 0 <= j < SLOTS && j != IND && 0 != At(fs, k, j) < fs.sb.size
      ensures fs2.blocks[At(fs, k, j)] == fs.blocks[At(fs, k, j)]
    {
      assert At(fs1, k, j) == At(fs, k, j);
    }
  }

  lemma AssignExtends(fs: Fs, owner: Owner, used: set<nat>, i: nat, j: nat, r: nat)
    requires Ledger(fs, owner, used)
    requires i in fs.inodes && j < SLOTS && At(fs, i, j) == 0 && (j > IND ==> At(fs, i, IND) != 0)
    requires r !in used && 0 < r < fs.sb.size && !Used(fs.bitmap, r)
    ensures Extends(fs, Assign(Taken(fs, r), i, j, r), i)
    ensures At(Assign(Taken(fs, r), i, j, r), i, j) == r
    ensures Assign(Taken(fs, r), i, j, r).blocks[r] == ZeroBlock()
  {
    hide At, Used, MarkUsed, SetWord;
    var fs2 := Assign(Taken(fs, r), i, j, r);
    AtAfterAssign(fs, owner, used, i, j, r, i, j);
    forall k, m | k in fs.inodes && 0 <= m < SLOTS
      ensures At(fs2, k, m) == if k == i && m == j then r else At(fs, k, m)
    {
      AtAfterAssign(fs, owner, used, i, j, r, k, m);
    }
    IndirectIs(fs, i);
    forall k, m | k in fs.inodes && 0 <= m < SLOTS && m != IND && 0 != At(fs, k, m) < fs.sb.size
      ensures fs2.blocks[At(fs, k, m)] == fs.blocks[At(fs, k, m)]
    {
      assert owner[At(fs, k, m)] == (k, m);
      if j > IND {
        assert owner[At(fs, i, IND)] == (i, IND);
      }
    }
    if j > IND { assert At(fs, i, IND) in owner; }
  }

  /** All of the above for one allocation into slot j of inode i. */
  lemma AllocEffect(fs: Fs, owner: Owner, i: nat, j: nat, r: nat)
    requires Accounted(fs, owner)
    requires i in fs.inodes && j < SLOTS && At(fs, i, j) == 0 && (j > IND ==> At(fs, i, IND) != 0)
    requires fs.sb.datastart <= r < fs.sb.size && !Used(fs.bitmap, r)
    ensures var fs2 := Assign(Taken(fs, r), i, j, r);
            && Accounted(fs2, owner[r := (i, j)]) && Extends(fs, fs2, i)
            && fs2.blocks[r] == ZeroBlock()
            && (forall m | 0 <= m < SLOTS :: At(fs2, i, m) == if m == j then r else At(fs, i, m))
            && At(fs, i, IND) == fs.inodes[i].addrs[IND]
  {
    hide At, Used, MarkUsed, SetWord;
    assert r !in UsedData(fs);
    AssignExtends(fs, owner, UsedData(fs), i, j, r);
    LedgerAfterAssign(fs, owner, UsedData(fs), i, j, r);
    UsedAfterAssign(fs, i, j, r);
    IndirectIs(fs, i);
    forall m | 0 <= m < SLOTS
      ensures At(Assign(Taken(fs, r), i, j, r), i, m) == if m == j then r else At(fs, i, m)
    {
      AtAfterAssign(fs, owner, UsedData(fs), i, j, r, i, m);
    }
  }

  lemma IndirectIs(fs: Fs, i: nat)
    requires Shape(fs) && i in fs.inodes
    ensures At(fs, i, IND) == fs.inodes[i].addrs[IND]
  {
  }

  lemma SlotValue(fs: Fs, i: nat, j: nat)
    requires Shape(fs) && i in fs.inodes && j < SLOTS
    ensures var a := fs.inodes[i].addrs;
            && At(fs, i, IND) == a[IND]
            && (j <= IND ==> At(fs, i, j) == a[j])
            && (j > IND ==> At(fs, i, j) == if a[IND] == 0 then 0 else Word(fs.blocks[a[IND]], j - 13))
  {
  }

  // ---- File contents ----

  /** No hole below the size. */
  ghost predicate Mapped(fs: Fs, i: nat)
    requires Shape(fs) && i in fs.inodes
  {
    forall bn | 0 <= bn < MAXFILE && bn * BSIZE < fs.inodes[i].size :: At(fs, i, SlotOf(bn)) != 0
  }

  ghost predicate AllMapped(fs: Fs)
    requires Shape(fs)
  {
    forall i | i in fs.inodes :: Mapped(fs, i)
  }

  /** The block address holding byte pos, and the byte. */
  function AddrOf(fs: Fs, i: nat, pos: nat): nat
    requires Shape(fs) && i in fs.inodes && pos < MAXFILE * BSIZE
  {
    At(fs, i, SlotOf(pos / BSIZE))
  }

  function ByteAt(fs: Fs, i: nat, pos: nat): byte
    requires Shape(fs) && i in fs.inodes && pos < MAXFILE * BSIZE
  {
    if AddrOf(fs, i, pos) < fs.sb.size then fs.blocks[AddrOf(fs, i, pos)][pos % BSIZE] else 0
  }

  /** The file as a byte sequence. */
  ghost function Contents(fs: Fs, i: nat): (c: seq<byte>)
    requires Shape(fs) && i in fs.inodes
  {
    seq(fs.inodes[i].size, pos requires 0 <= pos < fs.inodes[i].size => ByteAt(fs, i, pos))
  }

  /** c with s stored at off, growing it if s reaches past its end. */
  function Splice(c: seq<byte>, off: nat, s: seq<byte>): seq<byte>
    requires off <= |c|
  {
    c[..off] + s + if off + |s| < |c| then c[off + |s|..] else []
  }

  lemma ExtendsKeepsByte(fs: Fs, fs': Fs, owner: Owner, used: set<nat>, i: nat, k: nat, pos: nat)
    requires Extends(fs, fs', i) && Ledger(fs, owner, used) && k in fs.inodes && pos < MAXFILE * BSIZE
    requires AddrOf(fs, k, pos) != 0
    ensures AddrOf(fs', k, pos) == AddrOf(fs, k, pos) && ByteAt(fs', k, pos) == ByteAt(fs, k, pos)
  {
    hide At;
    var j := SlotOf(pos / BSIZE);
    assert At(fs, k, j) in owner;
    assert At(fs', k, j) == At(fs, k, j);
  }

  // ---- Overwriting a data block ----

  function Put(fs: Fs, b: nat, data: Block): Fs
    requires b < |fs.blocks|
  {
    fs.(blocks := fs.blocks[b := data])
  }

  /** Storing into a data block changes no block map, hence no ownership. */
  lemma PutKeepsMaps(fs: Fs, owner: Owner, used: set<nat>, i: nat, j: nat, data: Block)
    requires Ledger(fs, owner, used) && i in fs.inodes && j < SLOTS && j != IND && At(fs, i, j) != 0
    ensures At(fs, i, j) < fs.sb.size
    ensures var fs' := Put(fs, At(fs, i, j), data);
            && Shape(fs') && Ledger(fs', owner, used)
            && forall k, m | k in fs.inodes && 0 <= m < SLOTS :: At(fs', k, m) == At(fs, k, m)
  {
    hide Word;
    var b := At(fs, i, j);
    assert b in owner && owner[b] == (i, j);
    var fs' := Put(fs, b, data);
    forall k, m | k in fs.inodes && 0 <= m < SLOTS
      ensures At(fs', k, m) == At(fs, k, m)
    {
      if At(fs, k, IND) != 0 {
        assert owner[At(fs, k, IND)] == (k, IND);
      }
    }
  }

  /** Storing into block bn of file i changes only bytes of that block. */
  lemma PutBytes(fs: Fs, owner: Owner, used: set<nat>, i: nat, bn: nat, data: Block, k: nat, pos: nat)
    requires Ledger(fs, owner, used) && i in fs.inodes && bn < MAXFILE && At(fs, i, SlotOf(bn)) != 0
    requires k in fs.inodes && pos < MAXFILE * BSIZE && AddrOf(fs, k, pos) != 0
    ensures At(fs, i, SlotOf(bn)) < fs.sb.size && Shape(Put(fs, At(fs, i, SlotOf(bn)), data))
    ensures ByteAt(Put(fs, At(fs, i, SlotOf(bn)), data), k, pos) ==
            if k == i && pos / BSIZE == bn then data[pos % BSIZE] else ByteAt(fs, k, pos)
  {
    hide At;
    PutKeepsMaps(fs, owner, used, i, SlotOf(bn), data);
    assert owner[At(fs, i, SlotOf(bn))] == (i, SlotOf(bn));
    assert owner[At(fs, k, SlotOf(pos / BSIZE))] == (k, SlotOf(pos / BSIZE));
  }

  // ---- Storing a run of bytes in a file ----

  /** From fs to fs', file i got `chunk` at position o; every other mapped byte of every file,
      and every inode field but i's addresses, is the same. */
  ghost predicate Stored(fs: Fs, fs': Fs, i: nat, o: nat, chunk: seq<byte>)
    requires o + |chunk| <= MAXFILE * BSIZE
  {
    && Shape(fs) && Shape(fs') && fs'.sb == fs.sb && fs'.inodes.Keys == fs.inodes.Keys && i in fs.inodes
    && fs'.inodes[i] == fs.inodes[i].(addrs := fs'.inodes[i].addrs)
    && (forall k | k in fs.inodes && k != i :: fs'.inodes[k] == fs.inodes[k])
    && (forall k, pos | k in fs.inodes && 0 <= pos < MAXFILE * BSIZE && AddrOf(fs, k, pos) != 0 ::
          && AddrOf(fs', k, pos) != 0
          && ByteAt(fs', k, pos) ==
             if k == i && o <= pos < o + |chunk| then chunk[pos - o] else ByteAt(fs, k, pos))
    && (forall pos | o <= pos < o + |chunk| ::
          AddrOf(fs', i, pos) != 0 && ByteAt(fs', i, pos) == chunk[pos - o])
  }

  /** A mapped block with bytes of `chunk` stored from position o of the file on. */
  function Patched(b: Block, o: nat, chunk: seq<byte>): Block
    requires o % BSIZE + |chunk| <= BSIZE
  {
    b[..o % BSIZE] + chunk + b[o % BSIZE + |chunk|..]
  }

  lemma ExtendsStoresNothing(fs: Fs, fs': Fs, owner: Owner, used: set<nat>, i: nat, o: nat)
    requires Extends(fs, fs', i) && Ledger(fs, owner, used) && o <= MAXFILE * BSIZE
    ensures Stored(fs, fs', i, o, [])
  {
    hide AddrOf, ByteAt, At, Ledger;
    forall k, pos | k in fs.inodes && 0 <= pos < MAXFILE * BSIZE && AddrOf(fs, k, pos) != 0
      ensures AddrOf(fs', k, pos) != 0 && ByteAt(fs', k, pos) == ByteAt(fs, k, pos)
    {
      ExtendsKeepsByte(fs, fs', owner, used, i, k, pos);
    }
  }

  lemma SameBlock(o: nat, pos: nat)
    requires o <= pos && o % BSIZE + (pos - o) < BSIZE
    ensures pos / BSIZE == o / BSIZE && pos % BSIZE == o % BSIZE + (pos - o)
  {
  }

  lemma SameBlockIff(o: nat, n: nat, pos: nat)
    requires o % BSIZE + n <= BSIZE && pos / BSIZE == o / BSIZE
    ensures o <= pos < o + n <==> o % BSIZE <= pos % BSIZE < o % BSIZE + n
    ensures o <= pos < o + n ==> pos - o == pos % BSIZE - o % BSIZE
  {
  }

  lemma PutPatch(fs: Fs, owner: Owner, used: set<nat>, i: nat, o: nat, chunk: seq<byte>, k: nat, pos: nat)
    requires Shape(fs) && Ledger(fs, owner, used) && i in fs.inodes && o < MAXFILE * BSIZE && AddrOf(fs, i, o) != 0
    requires o % BSIZE + |chunk| <= BSIZE
    requires k in fs.inodes && pos < MAXFILE * BSIZE && AddrOf(fs, k, pos) != 0
    ensures AddrOf(fs, i, o) < fs.sb.size
    ensures var fs' := Put(fs, AddrOf(fs, i, o), Patched(fs.blocks[AddrOf(fs, i, o)], o, chunk));
            && Shape(fs') && AddrOf(fs', k, pos) == AddrOf(fs, k, pos)
            && ByteAt(fs', k, pos) ==
               if k == i && o <= pos < o + |chunk| then chunk[pos - o] else ByteAt(fs, k, pos)
  {
    hide At, Ledger;
    PutKeepsMaps(fs, owner, used, i, SlotOf(o / BSIZE), ZeroBlock());
    var addr := AddrOf(fs, i, o);
    var data := Patched(fs.blocks[addr], o, chunk);
    PutKeepsMaps(fs, owner, used, i, SlotOf(o / BSIZE), data);
    PutBytes(fs, owner, used, i, o / BSIZE, data, k, pos);
    if k == i && pos / BSIZE == o / BSIZE {
      SameBlockIff(o, |chunk|, pos);
    } else if k == i && o <= pos < o + |chunk| {
      SameBlock(o, pos);
    }
  }

  lemma PutStores(fs: Fs, owner: Owner, used: set<nat>, i: nat, o: nat, chunk: seq<byte>)
    requires Shape(fs) && Ledger(fs, owner, used) && i in fs.inodes && AddrOfOk(fs, i, o)
    requires o % BSIZE + |chunk| <= BSIZE && o + |chunk| <= MAXFILE * BSIZE
    ensures var fs' := Put(fs, AddrOf(fs, i, o), Patched(fs.blocks[AddrOf(fs, i, o)], o, chunk));
            Stored(fs, fs', i, o, chunk) && Ledger(fs', owner, used)
  {
    hide AddrOf, ByteAt, Ledger, Patched;
    PutPatch(fs, owner, used, i, o, chunk, i, o);
    var fs' := Put(fs, AddrOf(fs, i, o), Patched(fs.blocks[AddrOf(fs, i, o)], o, chunk));
    PutLedger(fs, owner, used, i, o, Patched(fs.blocks[AddrOf(fs, i, o)], o, chunk));
    forall k, pos | k in fs.inodes && 0 <= pos < MAXFILE * BSIZE && AddrOf(fs, k, pos) != 0
      ensures AddrOf(fs', k, pos) != 0
      ensures ByteAt(fs', k, pos) ==
              if k == i && o <= pos < o + |chunk| then chunk[pos - o] else ByteAt(fs, k, pos)
    {
      PutPatch(fs, owner, used, i, o, chunk, k, pos);
    }
    forall pos | o <= pos < o + |chunk|
      ensures AddrOf(fs, i, pos) != 0
    {
      SameBlock(o, pos);
      SameAddr(fs, i, o, pos);
    }
  }

  predicate AddrOfOk(fs: Fs, i: nat, o: nat)
    requires Shape(fs) && i in fs.inodes
  {
    o < MAXFILE * BSIZE && 0 != AddrOf(fs, i, o) < fs.sb.size
  }

  lemma SameAddr(fs: Fs, i: nat, o: nat, pos: nat)
    requires Shape(fs) && i in fs.inodes && o < MAXFILE * BSIZE && pos < MAXFILE * BSIZE
    requires pos / BSIZE == o / BSIZE
    ensures AddrOf(fs, i, pos) == AddrOf(fs, i, o)
  {
  }

  lemma PutLedger(fs: Fs, owner: Owner, used: set<nat>, i: nat, o: nat, data: Block)
    requires Ledger(fs, owner, used) && i in fs.inodes && AddrOfOk(fs, i, o)
    ensures Ledger(Put(fs, AddrOf(fs, i, o), data), owner, used)
  {
    PutKeepsMaps(fs, owner, used, i, SlotOf(o / BSIZE), data);
  }

  /** Consecutive stores compose. */
  lemma StoredTwice(fs: Fs, fs1: Fs, fs2: Fs, i: nat, o: nat, s1: seq<byte>, s2: seq<byte>)
    requires o + |s1| + |s2| <= MAXFILE * BSIZE
    requires Stored(fs, fs1, i, o, s1) && Stored(fs1, fs2, i, o + |s1|, s2)
    ensures Stored(fs, fs2, i, o, s1 + s2)
  {
    hide AddrOf, ByteAt;
    forall pos | o <= pos < o + |s1 + s2|
      ensures AddrOf(fs2, i, pos) != 0 && ByteAt(fs2, i, pos) == (s1 + s2)[pos - o]
    {
      if pos < o + |s1| {
        assert AddrOf(fs1, i, pos) != 0 && ByteAt(fs1, i, pos) == s1[pos - o];
      }
    }
  }

  function WithSize(fs: Fs, i: nat, size: nat): Fs
    requires i in fs.inodes
  {
    fs.(inodes := fs.inodes[i := fs.inodes[i].(size := size)])
  }

  /** The size writei leaves: the old one, or the end of the store if that is further. */
  function Reach(size: nat, end: nat): nat
  {
    if end > size then end else size
  }

  lemma SizeKeepsBytes(fs: Fs, i: nat, size: nat, k: nat, pos: nat)
    requires Shape(fs) && i in fs.inodes && size <= MAXFILE * BSIZE
    requires k in fs.inodes && pos < MAXFILE * BSIZE
    ensures Shape(WithSize(fs, i, size))
    ensures AddrOf(WithSize(fs, i, size), k, pos) == AddrOf(fs, k, pos)
    ensures ByteAt(WithSize(fs, i, size), k, pos) == ByteAt(fs, k, pos)
  {
  }

  lemma SpliceLength(c: seq<byte>, o: nat, s: seq<byte>)
    requires o <= |c|
    ensures |Splice(c, o, s)| == Reach(|c|, o + |s|)
  {
  }

  /** c with s stored at off, of which only the first `tot` bytes can make it grow. */
  function Counted(c: seq<byte>, off: nat, s: seq<byte>, tot: nat): (r: seq<byte>)
    requires off <= |c| && tot <= |s|
    ensures |r| == Reach(|c|, off + tot) && (tot == |s| ==> r == Splice(c, off, s))
  {
    Splice(c, off, s)[..Reach(|c|, off + tot)]
  }

  lemma SpliceAt(c: seq<byte>, o: nat, s: seq<byte>, pos: nat)
    requires o <= |c| && pos < Reach(|c|, o + |s|)
    ensures |Splice(c, o, s)| == Reach(|c|, o + |s|)
    ensures Splice(c, o, s)[pos] == if o <= pos < o + |s| then s[pos - o] else c[pos]
  {
  }

  lemma StoredByte(fs: Fs, fs1: Fs, i: nat, o: nat, s: seq<byte>, pos: nat)
    requires o + |s| <= MAXFILE * BSIZE && Stored(fs, fs1, i, o, s)
    requires o <= fs.inodes[i].size && Mapped(fs, i) && pos < Reach(fs.inodes[i].size, o + |s|)
    ensures pos < MAXFILE * BSIZE
    ensures ByteAt(fs1, i, pos) == if o <= pos < o + |s| then s[pos - o] else ByteAt(fs, i, pos)
  {
    hide AddrOf, ByteAt, Mapped;
    if pos < fs.inodes[i].size { MappedAddr(fs, i, pos); }
  }

  /** A store at or below the old size, once the size counts `tot` bytes of it, is a splice of the
      contents, cut off at that size. */
  lemma StoredIsSplice(fs: Fs, fs1: Fs, i: nat, o: nat, s: seq<byte>, tot: nat)
    requires o + |s| <= MAXFILE * BSIZE && Stored(fs, fs1, i, o, s) && tot <= |s|
    requires o <= fs.inodes[i].size && Mapped(fs, i)
    ensures var fs2 := WithSize(fs1, i, Reach(fs.inodes[i].size, o + tot));
            Shape(fs2) && Contents(fs2, i) == Counted(Contents(fs, i), o, s, tot)
  {
    hide ByteAt, Mapped, Splice;
    var size := Reach(fs.inodes[i].size, o + tot);
    var fs2 := WithSize(fs1, i, size);
    var c := Contents(fs, i);
    assert Shape(fs2);
    SpliceLength(c, o, s);
    var d := Counted(c, o, s, tot);
    forall pos | 0 <= pos < size
      ensures d[pos] == ByteAt(fs2, i, pos)
    {
      SpliceAt(c, o, s, pos);
      StoredByte(fs, fs1, i, o, s, pos);
      SizeKeepsBytes(fs1, i, size, i, pos);
    }
    assert Contents(fs2, i) == d;
  }

  lemma MappedAddr(fs: Fs, i: nat, pos: nat)
    requires Shape(fs) && i in fs.inodes && Mapped(fs, i) && pos < fs.inodes[i].size
    ensures pos < MAXFILE * BSIZE && AddrOf(fs, i, pos) != 0
  {
    assert pos / BSIZE < MAXFILE && pos / BSIZE * BSIZE < fs.inodes[i].size;
  }

  lemma StoredKeepsOthers(fs: Fs, fs1: Fs, i: nat, o: nat, s: seq<byte>, tot: nat, k: nat)
    requires o + |s| <= MAXFILE * BSIZE && Stored(fs, fs1, i, o, s) && tot <= |s|
    requires k in fs.inodes && k != i && Mapped(fs, k)
    ensures var fs2 := WithSize(fs1, i, Reach(fs.inodes[i].size, o + tot));
            Shape(fs2) && Contents(fs2, k) == Contents(fs, k) && Mapped(fs2, k)
  {
    var size := Reach(fs.inodes[i].size, o + tot);
    var fs2 := WithSize(fs1, i, size);
    forall pos | 0 <= pos < fs.inodes[k].size
      ensures ByteAt(fs2, k, pos) == ByteAt(fs, k, pos) && AddrOf(fs2, k, pos) != 0
    {
      MappedAddr(fs, k, pos);
      SizeKeepsBytes(fs1, i, size, k, pos);
    }
    AddrsMapped(fs2, k);
  }

  lemma AddrsMapped(fs: Fs, i: nat)
    requires Shape(fs) && i in fs.inodes
    requires forall pos | 0 <= pos < fs.inodes[i].size :: AddrOf(fs, i, pos) != 0
    ensures Mapped(fs, i)
  {
    forall bn | 0 <= bn < MAXFILE && bn * BSIZE < fs.inodes[i].size
      ensures At(fs, i, SlotOf(bn)) != 0
    {
      assert AddrOf(fs, i, bn * BSIZE) != 0;
    }
  }

  lemma StoredKeepsOwn(fs: Fs, fs1: Fs, i: nat, o: nat, s: seq<byte>, tot: nat)
    requires o + |s| <= MAXFILE * BSIZE && Stored(fs, fs1, i, o, s) && tot <= |s|
    requires o <= fs.inodes[i].size && Mapped(fs, i)
    ensures var fs2 := WithSize(fs1, i, Reach(fs.inodes[i].size, o + tot));
            Shape(fs2) && Mapped(fs2, i)
  {
    hide At;
    var size := Reach(fs.inodes[i].size, o + tot);
    var fs2 := WithSize(fs1, i, size);
    forall pos | 0 <= pos < size
      ensures AddrOf(fs2, i, pos) != 0
    {
      SizeKeepsBytes(fs1, i, size, i, pos);
      if pos < fs.inodes[i].size { MappedAddr(fs, i, pos); }
    }
    AddrsMapped(fs2, i);
  }

  /** Setting a size changes no slot, so ownership is as before. */
  lemma SizeKeepsAccounted(fs: Fs, owner: Owner, i: nat, size: nat)
    requires Accounted(fs, owner) && i in fs.inodes && size <= MAXFILE * BSIZE
    ensures Accounted(WithSize(fs, i, size), owner)
  {
    hide Used, Word;
    var fs2 := WithSize(fs, i, size);
    assert forall k, j | k in fs.inodes && 0 <= j < SLOTS :: At(fs2, k, j) == At(fs, k, j);
    assert UsedData(fs2) == UsedData(fs);
  }

  lemma PutKeepsAccounted(fs: Fs, owner: Owner, i: nat, o: nat, data: Block)
    requires Accounted(fs, owner) && i in fs.inodes && AddrOfOk(fs, i, o)
    ensures Accounted(Put(fs, AddrOf(fs, i, o), data), owner)
    ensures At(Put(fs, AddrOf(fs, i, o), data), i, IND) == At(fs, i, IND)
  {
    hide Used, At;
    PutKeepsMaps(fs, owner, UsedData(fs), i, SlotOf(o / BSIZE), data);
    var fs' := Put(fs, AddrOf(fs, i, o), data);
    assert UsedData(fs') == UsedData(fs);
  }

  /** One turn of writei, in terms of the states before bmap, after it, and after the copy. */
  lemma ChunkEffect(fs: Fs, owner: Owner, fs1: Fs, owner1: Owner, i: nat, o: nat, chunk: seq<byte>)
    requires Accounted(fs, owner) && Accounted(fs1, owner1) && Extends(fs, fs1, i)
    requires o < MAXFILE * BSIZE && o % BSIZE + |chunk| <= BSIZE && o + |chunk| <= MAXFILE * BSIZE
    ensures Stored(fs, fs1, i, o, [])
    ensures At(fs, i, IND) != 0 ==> At(fs1, i, IND) == At(fs, i, IND)
    ensures AddrOf(fs1, i, o) != 0 ==>
              && AddrOfOk(fs1, i, o)
              && (o / BSIZE >= NDIRECT ==> At(fs1, i, IND) != 0)
              && var fs2 := Put(fs1, AddrOf(fs1, i, o), Patched(fs1.blocks[AddrOf(fs1, i, o)], o, chunk));
                 && Accounted(fs2, owner1) && Stored(fs, fs2, i, o, chunk)
                 && At(fs2, i, IND) == At(fs1, i, IND)
  {
    hide Used, ByteAt, Patched, Word;
    ExtendsStoresNothing(fs, fs1, owner, UsedData(fs), i, o);
    if AddrOf(fs1, i, o) != 0 {
      assert At(fs1, i, SlotOf(o / BSIZE)) in owner1;
      SlotValue(fs1, i, SlotOf(o / BSIZE));
      var data := Patched(fs1.blocks[AddrOf(fs1, i, o)], o, chunk);
      PutKeepsAccounted(fs1, owner1, i, o, data);
      PutStores(fs1, owner1, UsedData(fs1), i, o, chunk);
      StoredTwice(fs, fs1, Put(fs1, AddrOf(fs1, i, o), data), i, o, [], chunk);
      assert [] + chunk == chunk;
    }
  }

  /** All of the above for a whole writei: bytes, ownership and mapping. */
  lemma WriteEffect(fs: Fs, fs1: Fs, owner: Owner, i: nat, o: nat, s: seq<byte>, tot: nat)
    requires Shape(fs) && AllMapped(fs) && Accounted(fs1, owner) && tot <= |s|
    requires o + |s| <= MAXFILE * BSIZE && Stored(fs, fs1, i, o, s) && o <= fs.inodes[i].size
    ensures i in fs1.inodes && fs1.inodes[i].size == fs.inodes[i].size
    ensures var fs2 := WithSize(fs1, i, Reach(fs.inodes[i].size, o + tot));
            && Accounted(fs2, owner) && AllMapped(fs2) && fs2.inodes.Keys == fs.inodes.Keys
            && Contents(fs2, i) == Counted(Contents(fs, i), o, s, tot)
            && (forall k | k in fs.inodes && k != i ::
                  fs2.inodes[k] == fs.inodes[k] && Contents(fs2, k) == Contents(fs, k))
            && fs2.bitmap == fs1.bitmap
  {
    hide Contents, Counted, Mapped, AddrOf, ByteAt, At, Ledger, Used, UsedData;
    var size := Reach(fs.inodes[i].size, o + tot);
    SizeKeepsAccounted(fs1, owner, i, size);
    StoredIsSplice(fs, fs1, i, o, s, tot);
    StoredKeepsOwn(fs, fs1, i, o, s, tot);
    forall k | k in fs.inodes && k != i
      ensures Contents(WithSize(fs1, i, size), k) == Contents(fs, k) && Mapped(WithSize(fs1, i, size), k)
    {
      StoredKeepsOthers(fs, fs1, i, o, s, tot, k);
    }
  }

  /** Writing two adjoining runs one after the other is writing them as one. */
  lemma SpliceSplice(c: seq<byte>, o: nat, s1: seq<byte>, s2: seq<byte>)
    requires o <= |c|
    ensures o + |s1| <= |Splice(c, o, s1)|
    ensures Splice(Splice(c, o, s1), o + |s1|, s2) == Splice(c, o, s1 + s2)
  {
    var d := Splice(c, o, s1);
    var lhs, rhs := Splice(d, o + |s1|, s2), Splice(c, o, s1 + s2);
    assert |lhs| == |rhs|;
    forall pos | 0 <= pos < |rhs|
      ensures lhs[pos] == rhs[pos]
    {
      SpliceAt(c, o, s1 + s2, pos);
      SpliceAt(d, o + |s1|, s2, pos);
      if pos < |d| { SpliceAt(c, o, s1, pos); }
    }
  }

  lemma SpliceNothing(c: seq<byte>, o: nat)
    requires o <= |c|
    ensures Splice(c, o, []) == c
  {
  }

  /** The bytes of one block that readi copies out are the file's bytes there. */
  lemma ChunkBytes(fs: Fs, i: nat, o: nat, m: nat)
    requires Shape(fs) && i in fs.inodes && o % BSIZE + m <= BSIZE && 0 < m && o + m <= fs.inodes[i].size
    requires AddrOfOk(fs, i, o)
    ensures fs.blocks[AddrOf(fs, i, o)][o % BSIZE..o % BSIZE + m] == Contents(fs, i)[o..o+m]
  {
    hide At;
    var block := fs.blocks[AddrOf(fs, i, o)];
    forall pos | o <= pos < o + m
      ensures ByteAt(fs, i, pos) == block[pos - o + o % BSIZE]
    {
      SameBlock(o, pos);
      SameAddr(fs, i, o, pos);
    }
  }

  // ---- Truncation ----

  /** Has itrunc's first loop, up to k, or its second, up to m, freed slot j? */
  predicate Freed(j: nat, k: nat, m: nat)
  {
    j < k || (13 <= j < 13 + m)
  }

  /** The bitmap with the freed slots of inode i cleared. */
  ghost predicate FreedBits(fs: Fs, owner: Owner, i: nat, bitmap: seq<byte>, k: nat, m: nat)
    requires Shape(fs)
  {
    && |bitmap| == |fs.bitmap|
    && forall b: nat | b < fs.sb.size ::
         Used(bitmap, b) <==> Used(fs.bitmap, b) && !(b in owner && owner[b].0 == i && Freed(owner[b].1, k, m))
  }

  /** Inode i emptied: no addresses, size 0. */
  function Emptied(fs: Fs, i: nat, bitmap: seq<byte>): Fs
    requires i in fs.inodes
  {
    fs.(bitmap := bitmap, inodes := fs.inodes[i := fs.inodes[i].(size := 0, addrs := seq(13, _ => 0))])
  }

  lemma FreeStep(fs: Fs, owner: Owner, i: nat, bitmap: seq<byte>, k: nat, m: nat, j: nat, k': nat, m': nat)
    requires Accounted(fs, owner) && i in fs.inodes && FreedBits(fs, owner, i, bitmap, k, m)
    requires j < SLOTS && !Freed(j, k, m)
    requires forall x: nat | x < SLOTS :: Freed(x, k', m') <==> Freed(x, k, m) || x == j
    ensures At(fs, i, j) == 0 ==> FreedBits(fs, owner, i, bitmap, k', m')
    ensures At(fs, i, j) != 0 ==>
              && At(fs, i, j) < fs.sb.size && Used(bitmap, At(fs, i, j))
              && FreedBits(fs, owner, i, MarkFree(bitmap, At(fs, i, j)), k', m')
  {
    hide At, Used, MarkFree, Freed;
    var b := At(fs, i, j);
    if b == 0 {
      assert forall c | c in owner && owner[c].0 == i :: owner[c].1 != j;
    } else {
      assert b in owner && owner[b] == (i, j);
      assert b in UsedData(fs);
      forall c: nat | c < fs.sb.size
        ensures Used(MarkFree(bitmap, b), c) <==> c != b && Used(bitmap, c)
      {
        MarkFreeOnly(bitmap, b, c);
      }
      assert forall c | c in owner && owner[c] == (i, j) :: c == b;
    }
  }

  ghost function Rest(owner: Owner, i: nat): Owner
  {
    map b | b in owner && owner[b].0 != i :: owner[b]
  }

  lemma EmptiedAt(fs: Fs, i: nat, bitmap: seq<byte>, k: nat, j: nat)
    requires Shape(fs) && i in fs.inodes && |bitmap| == |fs.bitmap| && k in fs.inodes && j < SLOTS
    ensures Shape(Emptied(fs, i, bitmap))
    ensures At(Emptied(fs, i, bitmap), k, j) == if k == i then 0 else At(fs, k, j)
  {
  }

  /** Truncation gives back exactly the blocks of inode i and leaves the others alone. */
  lemma TruncAccounted(fs: Fs, owner: Owner, i: nat, bitmap: seq<byte>)
    requires Accounted(fs, owner) && AllMapped(fs) && i in fs.inodes
    requires FreedBits(fs, owner, i, bitmap, 13, 256)
    ensures Accounted(Emptied(fs, i, bitmap), Rest(owner, i))
  {
    hide At, Used;
    var fs' := Emptied(fs, i, bitmap);
    EmptiedAt(fs, i, bitmap, i, 0);
    forall k, j | k in fs.inodes && 0 <= j < SLOTS
      ensures At(fs', k, j) == if k == i then 0 else At(fs, k, j)
    {
      EmptiedAt(fs, i, bitmap, k, j);
    }
    assert forall b: nat | b < fs.sb.size ::
             Used(bitmap, b) <==> Used(fs.bitmap, b) && !(b in owner && owner[b].0 == i);
    assert UsedData(fs') == Rest(owner, i).Keys;
  }

  lemma TruncContents(fs: Fs, i: nat, bitmap: seq<byte>)
    requires Shape(fs) && AllMapped(fs) && i in fs.inodes && |bitmap| == |fs.bitmap|
    ensures Shape(Emptied(fs, i, bitmap)) && AllMapped(Emptied(fs, i, bitmap))
    ensures Contents(Emptied(fs, i, bitmap), i) == []
    ensures forall k | k in fs.inodes && k != i :: Contents(Emptied(fs, i, bitmap), k) == Contents(fs, k)
  {
    var fs' := Emptied(fs, i, bitmap);
    EmptiedAt(fs, i, bitmap, i, 0);
    forall k | k in fs.inodes && k != i
      ensures Contents(fs', k) == Contents(fs, k) && Mapped(fs', k)
    {
      hide At;
      assert Mapped(fs, k);
      forall j | 0 <= j < SLOTS
        ensures At(fs', k, j) == At(fs, k, j)
      {
        EmptiedAt(fs, i, bitmap, k, j);
      }
    }
  }
}
