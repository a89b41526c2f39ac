/** kernel/log.c as the code runs it: one log object whose methods issue the block writes
    that RedoLog reasons about. */
module LogDevice {
  import opened Disk
  import opened Sequences
  import opened RedoLog

  /** The header after log_write(b): a block already logged is absorbed. */
  function Absorb(nos: seq<nat>, b: nat): seq<nat>
  {
    if b in nos then nos else nos + [b]
  }

  /** begin_op's admission test. */
  predicate Admits(n: nat, outstanding: nat)
  {
    n + (outstanding + 1) * MAXOPBLOCKS <= LOGSIZE
  }

  /** log_write's "too big a transaction" test, made before absorption. */
  predicate Overflows(g: Geometry, n: nat)
  {
    n >= LOGSIZE || n + 1 >= g.size
  }

  /** The contents of the logged buffers, in header order. */
  function PinnedTxn(pinned: map<nat, Block>, nos: seq<nat>): (t: Txn)
    requires forall b | b in nos :: b in pinned
  {
    Txn(nos, seq(|nos|, i requires 0 <= i < |nos| => pinned[nos[i]]))
  }

  class Log {
    const g: Geometry
    var disk: Disk
    /** Buffers whose contents are newer than the disk; bpin keeps them in the cache. */
    var pinned: map<nat, Block>
    var n: nat
    const block: array<nat>
    var outstanding: nat
    var committing: bool
    /** Every block write issued since boot, oldest first. */
    ghost var issued: seq<Write>

    ghost predicate Valid()
      reads this, block
    {
      && Fits(g, disk)
      && block.Length == LOGSIZE && n <= LOGSIZE
      && GoodHeader(g, |disk|, Header())
      && forall b :: b in pinned <==> b in Header()
    }

    ghost function Header(): seq<nat>
      reads this, block
      requires n <= block.Length
    {
      block[..n]
    }

    ghost function Pending(): Txn
      reads this, block
      requires Valid()
    {
      PinnedTxn(pinned, Header())
    }

    /** A boot: memory empty, disk as the last run left it. */
    constructor (g: Geometry, disk: Disk)
      requires Fits(g, disk)
      ensures Valid() && fresh(block) && this.g == g && this.disk == disk
      ensures n == 0 && pinned == map[] && outstanding == 0 && !committing && issued == []
    {
      this.g := g;
      this.disk := disk;
      pinned := map[];
      n := 0;
      block := new nat[LOGSIZE](_ => 0);
      outstanding := 0;
      committing := false;
      issued := [];
    }

    /** bread: the cached copy if the block is pinned, otherwise the disk's. */
    method Bread(b: nat) returns (data: Block)
      requires b < |disk|
      ensures data == if b in pinned then pinned[b] else disk[b]
    {
      if b in pinned {
        data := pinned[b];
      } else {
        data := disk[b];
      }
    }

    /** bwrite: one block reaches the disk. */
    method Bwrite(b: nat, data: Block)
      requires b < |disk|
      modifies this`disk, this`issued
      ensures disk == old(disk)[b := data]
      ensures issued == old(issued) + [Write(b, data)]
    {
      disk := disk[b := data];
      issued := issued + [Write(b, data)];
    }

    /** Copy modified blocks from the cache to the log. */
    method WriteLog()
      requires Valid()
      modifies this`disk, this`issued
      ensures Valid()
      ensures issued == old(issued) + LogCopies(g, old(Pending()))
      ensures InRange(old(disk), LogCopies(g, old(Pending())))
      ensures disk == Apply(old(disk), LogCopies(g, old(Pending())))
    {
      hide Apply, Distinct;
      ghost var copies := LogCopies(g, Pending());
      ApplyNone(disk, copies);
      var tail := 0;
      while tail < n
        invariant 0 <= tail <= n
        invariant Fits(g, disk) && |disk| == |old(disk)|
        invariant issued == old(issued) + copies[..tail]
        invariant InRange(old(disk), copies[..tail])
        invariant disk == Apply(old(disk), copies[..tail])
      {
        assert block[tail] in Header();
        var from := Bread(block[tail]);
        Bwrite(g.start + tail + 1, from);
        ApplyStep(old(disk), copies, tail);
        tail := tail + 1;
      }
      assert copies[..n] == copies;
    }

    /** Write the in-memory header to disk: the commit point. */
    method WriteHead()
      requires Fits(g, disk) && block.Length == LOGSIZE && n <= LOGSIZE
      requires g.start !in pinned
      requires forall i | 0 <= i < n :: block[i] < 0x1_0000_0000
      modifies this`disk, this`issued
      ensures disk == old(disk)[g.start := EncodeHeader(old(disk)[g.start], Header())]
      ensures issued == old(issued) + [Write(g.start, EncodeHeader(old(disk)[g.start], Header()))]
    {
      hide SetWord;
      var buf := Bread(g.start);
      ghost var start := SetWord(buf, 0, n);
      buf := SetWord(buf, 0, n);
      var i := 0;
      while i < n
        invariant 0 <= i <= n
        invariant buf == PutBlocks(start, Header(), i)
      {
        buf := SetWord(buf, 1 + i, block[i]);
        i := i + 1;
      }
      Bwrite(g.start, buf);
    }

    /** One turn of install_trans: log block to home block, and unpin unless recovering. */
    method InstallOne(slot: nat, home: nat, recovering: bool)
      requires slot < |disk| && home < |disk| && slot !in pinned
      modifies this`disk, this`issued, this`pinned
      ensures disk == old(disk)[home := old(disk)[slot]]
      ensures issued == old(issued) + [Write(home, old(disk)[slot])]
      ensures pinned == if recovering then old(pinned) else old(pinned) - {home}
    {
      var lbuf := Bread(slot);
      Bwrite(home, lbuf);
      if !recovering {
        pinned := pinned - {home};
      }
    }

    /** Copy committed blocks from the log to their homes; a commit also unpins them. */
    method InstallTrans(recovering: bool)
      requires Fits(g, disk) && block.Length == LOGSIZE && n <= LOGSIZE
      requires GoodHeader(g, |disk|, Header())
      requires if recovering then pinned == map[] else forall b :: b in pinned <==> b in Header()
      modifies this`disk, this`issued, this`pinned
      ensures var t := SlotTxn(g, old(disk), Header());
              && issued == old(issued) + Installs(t)
              && InRange(old(disk), Installs(t))
              && disk == Apply(old(disk), Installs(t))
      ensures pinned == map[]
    {
      hide Apply, Distinct, Installs, SlotTxn, GoodHeader, InRange;
      ghost var nos := Header();
      InstallsInRange(g, disk, nos);
      ghost var ws := Installs(SlotTxn(g, disk, nos));
      ApplyNone(disk, ws);
      var tail := 0;
      while tail < n
        invariant 0 <= tail <= n
        invariant |disk| == |old(disk)|
        invariant issued == old(issued) + ws[..tail]
        invariant InRange(old(disk), ws[..tail])
        invariant disk == Apply(old(disk), ws[..tail])
        invariant forall b: nat | b < |disk| && !Home(g, b) :: disk[b] == old(disk)[b]
        invariant recovering ==> pinned == map[]
        invariant forall b | b in pinned :: b in old(pinned) && Home(g, b)
        invariant !recovering ==> forall i | 0 <= i < tail :: nos[i] !in pinned
      {
        InstallsAt(g, old(disk), nos, tail);
        assert !Home(g, g.start + tail + 1);
        InstallOne(g.start + tail + 1, block[tail], recovering);
        ApplyStep(old(disk), ws, tail);
        tail := tail + 1;
      }
      assert ws[..n] == ws;
      assert forall b | b in pinned :: b in nos;
    }

    method ReadHead()
      requires Recoverable(g, disk) && pinned == map[] && block.Length == LOGSIZE
      modifies this`n, block
      ensures n == HeaderCount(disk[g.start]) && Header() == DecodeHeader(disk[g.start])
    {
      hide Word;
      var buf := Bread(g.start);
      n := Word(buf, 0);
      var i := 0;
      while i < n
        invariant 0 <= i <= n == HeaderCount(disk[g.start])
        invariant forall j | 0 <= j < i :: block[j] == Word(buf, 1 + j)
      {
        block[i] := Word(buf, 1 + i);
        i := i + 1;
      }
    }

    /** Boot-time recovery issues exactly RecoveryWrites and leaves an empty log. */
    method RecoverFromLog()
      requires Valid() && n == 0 && Recoverable(g, disk)
      modifies this, block
      ensures Valid() && n == 0 && disk == Recovered(g, old(disk))
      ensures issued == old(issued) + RecoveryWrites(g, old(disk))
      ensures outstanding == old(outstanding) && committing == old(committing)
    {
      hide EncodeHeader, DecodeHeader, HeaderCount, Installs, Distinct, InRange, Apply;
      ghost var d0 := disk;
      ghost var t := OnDiskTxn(g, d0);
      ReadHead();
      assert Header() == t.nos;
      InstallTrans(true);
      assert disk == Apply(d0, Installs(t));
      InstallKeepsLog(g, d0, t, n, g.start);
      assert Installs(t)[..n] == Installs(t);
      n := 0;
      assert Header() == [];
      WriteHead();
      RecoveredIs(g, d0);
      assert old(issued) + Installs(t) + [Write(g.start, EncodeHeader(d0[g.start], []))]
          == old(issued) + RecoveryWrites(g, d0);
    }

    /** commit(): exactly the writes CommitWrites lists, in that order; an empty log writes nothing. */
    method Commit()
      requires Valid()
      modifies this`disk, this`issued, this`pinned, this`n
      ensures Valid() && n == 0
      ensures issued == old(issued) + CommitWrites(g, old(disk), old(Pending()))
      ensures disk == Apply(old(disk), CommitWrites(g, old(disk), old(Pending())))
    {
      hide EncodeHeader, CommitWrites, Apply, LogCopies, Installs, Distinct;
      if n == 0 {
        CommitNothing(g, disk, Pending());
        assert issued + [] == issued;
      } else {
        ghost var d0 := disk;
        ghost var t := Pending();
        WriteLog();
        LogCopiesAt(g, d0, t, n);
        assert LogCopies(g, t)[..n] == LogCopies(g, t);
        WriteHead();
        ghost var d1 := disk;
        assert SlotTxn(g, d1, t.nos).data == t.data;
        InstallTrans(false);
        InstallKeepsLog(g, d1, t, n, g.start);
        assert Installs(t)[..n] == Installs(t);
        n := 0;
        assert Header() == [];
        WriteHead();
        EmptyHeaderGood(g, |disk|);
        WholeCommit(g, d0, t);
        assert issued == old(issued) + CommitWrites(g, d0, t) by {
          CommitHalves(g, d0, t);
          ghost var ws := CommitWrites(g, d0, t);
          assert ws == ws[..|t.nos|+1] + ws[|t.nos|+1..];
        }
      }
    }

    /** One pass of begin_op's loop under log.lock; false means it must sleep. */
    method TryBeginOp() returns (admitted: bool)
      modifies this`outstanding
      ensures admitted == (!committing && Admits(n, old(outstanding)))
      ensures outstanding == old(outstanding) + if admitted then 1 else 0
    {
      if committing {
        admitted := false;
      } else if n + (outstanding + 1) * MAXOPBLOCKS > LOGSIZE {
        admitted := false;
      } else {
        outstanding := outstanding + 1;
        admitted := true;
      }
    }

    /** end_op: the last operation out commits everything logged since the last commit. Ending an
        operation while a commit is under way panics, after the count went down. */
    method EndOp() returns (panic: bool)
      requires Valid() && outstanding > 0
      modifies this`disk, this`issued, this`pinned, this`n, this`outstanding, this`committing
      ensures panic == old(committing) && outstanding == old(outstanding) - 1
      ensures panic || outstanding > 0 ==>
                && disk == old(disk) && issued == old(issued) && pinned == old(pinned) && n == old(n)
                && committing == old(committing)
      ensures !panic ==> Valid() && !committing
      ensures !panic && outstanding == 0 ==>
                && n == 0 && issued == old(issued) + CommitWrites(g, old(disk), old(Pending()))
                && disk == Apply(old(disk), CommitWrites(g, old(disk), old(Pending())))
    {
      outstanding := outstanding - 1;
      if committing {
        return true;
      }
      panic := false;
      if outstanding == 0 {
        committing := true;
        Commit();
        committing := false;
      }
    }

    /** log_write of a buffer holding `data`: absorb or append, and pin on first write. */
    method LogWrite(b: nat, data: Block) returns (panic: bool)
      requires Valid() && b < |disk| && Home(g, b)
      modifies this`n, this`pinned, block
      ensures panic == (Overflows(g, old(n)) || outstanding < 1)
      ensures panic ==> n == old(n) && pinned == old(pinned) && block[..] == old(block[..])
      ensures !panic ==>
                && Valid() && Header() == Absorb(old(Header()), b)
                && pinned == old(pinned)[b := data]
    {
      if n >= LOGSIZE || n >= g.size - 1 {
        return true;
      }
      if outstanding < 1 {
        return true;
      }
      panic := false;
      ghost var h := Header();
      var i := 0;
      while i < n
        invariant 0 <= i <= n
        invariant b !in block[..i]
      {
        if block[i] == b {
          break;
        }
        i := i + 1;
      }
      block[i] := b;
      pinned := pinned[b := data];
      if i == n {
        n := n + 1;
        assert Header() == h + [b];
      } else {
        assert Header() == h;
      }
    }
  }
}
