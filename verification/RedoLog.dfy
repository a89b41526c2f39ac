/** The on-disk redo log of kernel/log.c: its header codec, the exact block writes of a
    commit and of a recovery, and crash atomicity at every point between two writes. */
module RedoLog {
  import opened Disk
  import opened Sequences

  const MAXOPBLOCKS: nat := 10
  const LOGSIZE: nat := 30

  /** log.start and log.size: the header is block `start`, the data slots follow it. */
  datatype Geometry = Geometry(start: nat, size: nat)

  predicate Fits(g: Geometry, d: Disk)
  {
    1 <= g.size && g.start + g.size <= |d| < 0x1_0000_0000
  }

  /** Blocks outside the log region. */
  predicate Home(g: Geometry, b: nat)
  {
    b < g.start || g.start + g.size <= b
  }

  /** A transaction: the block numbers of the header, and the contents to install. */
  datatype Txn = Txn(nos: seq<nat>, data: seq<Block>)

  const NoTxn := Txn([], [])

  /** What log_write keeps true of the in-memory header. */
  predicate GoodHeader(g: Geometry, disksize: nat, nos: seq<nat>)
  {
    && |nos| <= LOGSIZE && |nos| < g.size
    && Distinct(nos)
    && forall i | 0 <= i < |nos| :: nos[i] < disksize && Home(g, nos[i])
  }

  lemma EmptyHeaderGood(g: Geometry, disksize: nat)
    requires 1 <= g.size
    ensures GoodHeader(g, disksize, [])
  {
  }

  predicate GoodTxn(g: Geometry, d: Disk, t: Txn)
  {
    |t.nos| == |t.data| && GoodHeader(g, |d|, t.nos)
  }

  // ---- Header codec ----

  /** hb->block[i] = lh.block[i] for i < k; the rest of the block keeps its old bytes. */
  function PutBlocks(b: Block, nos: seq<nat>, k: nat): Block
    requires k <= |nos| <= LOGSIZE && forall i | 0 <= i < |nos| :: nos[i] < 0x1_0000_0000
  {
    if k == 0 then b else SetWord(PutBlocks(b, nos, k - 1), k, nos[k-1])
  }

  function EncodeHeader(b: Block, nos: seq<nat>): Block
    requires |nos| <= LOGSIZE && forall i | 0 <= i < |nos| :: nos[i] < 0x1_0000_0000
  {
    PutBlocks(SetWord(b, 0, |nos|), nos, |nos|)
  }

  function HeaderCount(b: Block): nat { Word(b, 0) }

  function DecodeHeader(b: Block): (nos: seq<nat>)
    requires HeaderCount(b) <= LOGSIZE
  {
    seq(HeaderCount(b), i requires 0 <= i < HeaderCount(b) => Word(b, 1 + i))
  }

  lemma {:induction false} PutBlocksWords(b: Block, nos: seq<nat>, k: nat)
    requires k <= |nos| <= LOGSIZE && forall i | 0 <= i < |nos| :: nos[i] < 0x1_0000_0000
    ensures Word(PutBlocks(b, nos, k), 0) == Word(b, 0)
    ensures forall i | 0 <= i < k :: Word(PutBlocks(b, nos, k), 1 + i) == nos[i]
  {
    if k > 0 {
      PutBlocksWords(b, nos, k - 1);
      var c := PutBlocks(b, nos, k - 1);
      WordAfterSet(c, k, nos[k-1]);
      forall i | 0 <= i < k - 1
        ensures Word(PutBlocks(b, nos, k), 1 + i) == nos[i]
      {
        assert Word(SetWord(c, k, nos[k-1]), 1 + i) == Word(c, 1 + i);
      }
    }
  }

  /** What write_head stores is what read_head reads back, whatever the block held before. */
  lemma HeaderRoundTrip(b: Block, nos: seq<nat>)
    requires |nos| <= LOGSIZE && forall i | 0 <= i < |nos| :: nos[i] < 0x1_0000_0000
    ensures HeaderCount(EncodeHeader(b, nos)) == |nos|
    ensures DecodeHeader(EncodeHeader(b, nos)) == nos
  {
    WordAfterSet(b, 0, |nos|);
    PutBlocksWords(SetWord(b, 0, |nos|), nos, |nos|);
  }

  // ---- The write sequences ----

  /** write_log: copy each modified block into its log slot. */
  function LogCopies(g: Geometry, t: Txn): (ws: seq<Write>)
    requires |t.nos| == |t.data|
    ensures |ws| == |t.nos|
  {
    seq(|t.nos|, i requires 0 <= i < |t.nos| => Write(g.start + 1 + i, t.data[i]))
  }

  /** install_trans: copy each logged block to its home. */
  function Installs(t: Txn): (ws: seq<Write>)
    requires |t.nos| == |t.data|
    ensures |ws| == |t.nos|
  {
    seq(|t.nos|, i requires 0 <= i < |t.nos| => Write(t.nos[i], t.data[i]))
  }

  /** The disk with a transaction installed over it. */
  function Overlay(g: Geometry, d: Disk, t: Txn): (r: Disk)
    requires Fits(g, d) && GoodTxn(g, d, t)
    ensures |r| == |d|
  {
    Apply(d, Installs(t))
  }

  /** The log slots of a disk, read against the block numbers `nos`. */
  function SlotTxn(g: Geometry, d: Disk, nos: seq<nat>): (t: Txn)
    requires g.start + |nos| < |d|
    ensures t.nos == nos && |t.data| == |nos|
  {
    Txn(nos, seq(|nos|, i requires 0 <= i < |nos| => d[g.start + 1 + i]))
  }

  lemma InstallsInRange(g: Geometry, d: Disk, nos: seq<nat>)
    requires Fits(g, d) && GoodHeader(g, |d|, nos)
    ensures g.start + |nos| < |d|
    ensures InRange(d, Installs(SlotTxn(g, d, nos)))
    ensures forall b | b in nos :: Home(g, b)
  {
  }

  lemma InstallsAt(g: Geometry, d: Disk, nos: seq<nat>, i: nat)
    requires Fits(g, d) && GoodHeader(g, |d|, nos) && i < |nos|
    ensures Installs(SlotTxn(g, d, nos))[i] == Write(nos[i], d[g.start + 1 + i])
    ensures nos[i] < |d| && Home(g, nos[i]) && Distinct(nos) && i + 1 < g.size
  {
  }

  /** Every disk write of commit(), in order. */
  function CommitWrites(g: Geometry, d: Disk, t: Txn): (ws: seq<Write>)
    requires Fits(g, d) && GoodTxn(g, d, t)
    ensures InRange(d, ws) && |ws| == if t.nos == [] then 0 else 2 * |t.nos| + 2
  {
    if t.nos == [] then []
    else
      var h := EncodeHeader(d[g.start], t.nos);
      LogCopies(g, t) + [Write(g.start, h)] + Installs(t) + [Write(g.start, EncodeHeader(h, []))]
  }

  /** The transaction a disk's log header announces. */
  function OnDiskTxn(g: Geometry, d: Disk): Txn
    requires Fits(g, d) && HeaderCount(d[g.start]) <= LOGSIZE && HeaderCount(d[g.start]) < g.size
  {
    SlotTxn(g, d, DecodeHeader(d[g.start]))
  }

  /** A disk recovery can start from. */
  predicate Recoverable(g: Geometry, d: Disk)
  {
    && Fits(g, d)
    && HeaderCount(d[g.start]) <= LOGSIZE && HeaderCount(d[g.start]) < g.size
    && GoodTxn(g, d, OnDiskTxn(g, d))
  }

  /** Every disk write of recover_from_log(), in order. */
  function RecoveryWrites(g: Geometry, d: Disk): (ws: seq<Write>)
    requires Recoverable(g, d)
    ensures InRange(d, ws)
  {
    Installs(OnDiskTxn(g, d)) + [Write(g.start, EncodeHeader(d[g.start], []))]
  }

  function Recovered(g: Geometry, d: Disk): Disk
    requires Recoverable(g, d)
  {
    Apply(d, RecoveryWrites(g, d))
  }

  /** The blocks outside the log, which are all that the file system sees. */
  function Homes(g: Geometry, d: Disk): (r: Disk)
    ensures |r| == |d|
  {
    seq(|d|, b requires 0 <= b < |d| => if Home(g, b) then d[b] else ZeroBlock())
  }

  /** What the file system will see after a crash right now. */
  function Durable(g: Geometry, d: Disk): Disk
    requires Recoverable(g, d)
  {
    Homes(g, Recovered(g, d))
  }

  // ---- Pointwise effect of an installation ----

  lemma InstalledAt(g: Geometry, d: Disk, t: Txn, b: nat)
    requires Fits(g, d) && GoodTxn(g, d, t) && b < |d|
    ensures forall i | 0 <= i < |t.nos| && t.nos[i] == b :: Apply(d, Installs(t))[b] == t.data[i]
    ensures b !in t.nos ==> Apply(d, Installs(t))[b] == d[b]
  {
    var ws := Installs(t);
    forall i | 0 <= i < |t.nos| && t.nos[i] == b
      ensures Apply(d, ws)[b] == t.data[i]
    {
      ApplyDistinct(d, ws, i);
    }
    if b !in t.nos {
      ApplyUntouched(d, ws, b);
    }
  }

  /** A partial installation followed by a whole one equals the whole one. */
  lemma InstallAbsorbsPrefix(g: Geometry, d: Disk, t: Txn, k: nat)
    requires Fits(g, d) && GoodTxn(g, d, t) && k <= |t.nos|
    ensures Apply(Apply(d, Installs(t)[..k]), Installs(t)) == Apply(d, Installs(t))
  {
    var ws := Installs(t);
    var d1 := Apply(d, ws[..k]);
    forall b: nat | b < |d|
      ensures Apply(d1, ws)[b] == Apply(d, ws)[b]
    {
      InstalledAt(g, d, t, b);
      InstalledAt(g, d1, t, b);
      if b in t.nos {
        var i :| 0 <= i < |t.nos| && t.nos[i] == b;
        assert Apply(d1, ws)[b] == t.data[i];
      } else {
        ApplyUntouched(d, ws[..k], b);
      }
    }
  }

  /** Installing leaves the header and every log slot as they were. */
  lemma InstallKeepsLog(g: Geometry, d: Disk, t: Txn, k: nat, b: nat)
    requires Fits(g, d) && GoodTxn(g, d, t) && k <= |t.nos|
    requires b < |d| && !Home(g, b)
    ensures Apply(d, Installs(t)[..k])[b] == d[b]
  {
    ApplyUntouched(d, Installs(t)[..k], b);
  }

  lemma RecoveredIs(g: Geometry, d: Disk)
    requires Recoverable(g, d)
    ensures Recovered(g, d) ==
            Apply(d, Installs(OnDiskTxn(g, d)))[g.start := EncodeHeader(d[g.start], [])]
  {
    var ws := RecoveryWrites(g, d);
    assert ws[..|ws|-1] == Installs(OnDiskTxn(g, d));
  }

  lemma EmptyHeaderNoTxn(g: Geometry, d: Disk)
    requires Fits(g, d) && HeaderCount(d[g.start]) == 0
    ensures Recoverable(g, d) && OnDiskTxn(g, d) == NoTxn && Installs(NoTxn) == []
  {
  }

  /** A disk with an empty log is already recovered. */
  lemma EmptyLogIsDurable(g: Geometry, d: Disk)
    requires Fits(g, d) && HeaderCount(d[g.start]) == 0
    ensures Recoverable(g, d)
    ensures Durable(g, d) == Homes(g, d)
  {
    hide EncodeHeader, OnDiskTxn, Recoverable, Installs, RecoveryWrites, Recovered;
    EmptyHeaderNoTxn(g, d);
    RecoveredIs(g, d);
    assert Recovered(g, d) == d[g.start := EncodeHeader(d[g.start], [])];
  }

  // ---- Crash atomicity ----

  lemma SameLogSameTxn(g: Geometry, d: Disk, d1: Disk)
    requires Recoverable(g, d) && |d1| == |d|
    requires forall b: nat | b < |d| && !Home(g, b) :: d1[b] == d[b]
    ensures Recoverable(g, d1) && OnDiskTxn(g, d1) == OnDiskTxn(g, d)
  {
    assert !Home(g, g.start);
  }

  lemma RecoveryPartlyInstalled(g: Geometry, d: Disk, d1: Disk, k: nat)
    requires Recoverable(g, d) && k <= |OnDiskTxn(g, d).nos|
    requires d1 == Apply(d, Installs(OnDiskTxn(g, d))[..k])
    ensures Recoverable(g, d1) && Durable(g, d1) == Durable(g, d)
  {
    var t := OnDiskTxn(g, d);
    forall b: nat | b < |d| && !Home(g, b)
      ensures d1[b] == d[b]
    {
      InstallKeepsLog(g, d, t, k, b);
    }
    SameLogSameTxn(g, d, d1);
    assert !Home(g, g.start);
    RecoveredIs(g, d);
    RecoveredIs(g, d1);
    InstallAbsorbsPrefix(g, d, t, k);
  }

  lemma RecoveryFinished(g: Geometry, d: Disk)
    requires Recoverable(g, d)
    ensures HeaderCount(Recovered(g, d)[g.start]) == 0
    ensures Recoverable(g, Recovered(g, d)) && Durable(g, Recovered(g, d)) == Durable(g, d)
  {
    RecoveredIs(g, d);
    HeaderRoundTrip(d[g.start], []);
    EmptyLogIsDurable(g, Recovered(g, d));
  }

  /** However far recovery got before the next crash, recovering again gives the same homes. */
  lemma RecoveryPrefix(g: Geometry, d: Disk, k: nat)
    requires Recoverable(g, d) && k <= |RecoveryWrites(g, d)|
    ensures var d1 := Apply(d, RecoveryWrites(g, d)[..k]);
            Recoverable(g, d1) && Durable(g, d1) == Durable(g, d)
  {
    var t := OnDiskTxn(g, d);
    var ws := RecoveryWrites(g, d);
    if k <= |t.nos| {
      assert ws[..k] == Installs(t)[..k];
      RecoveryPartlyInstalled(g, d, Apply(d, ws[..k]), k);
    } else {
      assert ws[..k] == ws;
      RecoveryFinished(g, d);
    }
  }

  lemma {:induction false} LogCopiesAt(g: Geometry, d: Disk, t: Txn, k: nat)
    requires Fits(g, d) && GoodTxn(g, d, t) && k <= |t.nos|
    ensures InRange(d, LogCopies(g, t)[..k])
    ensures forall i | 0 <= i < k :: Apply(d, LogCopies(g, t)[..k])[g.start + 1 + i] == t.data[i]
    ensures forall b: nat | b < |d| && (Home(g, b) || b == g.start) ::
              Apply(d, LogCopies(g, t)[..k])[b] == d[b]
  {
    var ws := LogCopies(g, t)[..k];
    forall i | 0 <= i < k
      ensures Apply(d, ws)[g.start + 1 + i] == t.data[i]
    {
      ApplyDistinct(d, ws, i);
      assert ws[i] == Write(g.start + 1 + i, t.data[i]);
    }
    forall b: nat | b < |d| && (Home(g, b) || b == g.start)
      ensures Apply(d, ws)[b] == d[b]
    {
      ApplyUntouched(d, ws, b);
    }
  }

  /** Until the header reaches the disk a commit leaves no trace a recovery could see. */
  lemma BeforeCommitPoint(g: Geometry, d: Disk, t: Txn, k: nat)
    requires Fits(g, d) && GoodTxn(g, d, t) && HeaderCount(d[g.start]) == 0
    requires k <= |t.nos|
    ensures var d1 := Apply(d, LogCopies(g, t)[..k]);
            && Recoverable(g, d1) && Durable(g, d1) == Homes(g, d)
  {
    LogCopiesAt(g, d, t, k);
    var d1 := Apply(d, LogCopies(g, t)[..k]);
    EmptyLogIsDurable(g, d1);
    assert Homes(g, d1) == Homes(g, d);
  }

  lemma TxnFromParts(g: Geometry, d: Disk, t: Txn)
    requires Fits(g, d) && GoodTxn(g, d, t)
    requires HeaderCount(d[g.start]) == |t.nos| && DecodeHeader(d[g.start]) == t.nos
    requires forall i | 0 <= i < |t.nos| :: d[g.start + 1 + i] == t.data[i]
    ensures Recoverable(g, d) && OnDiskTxn(g, d) == t
  {
    hide DecodeHeader;
    assert OnDiskTxn(g, d).data == t.data;
  }

  /** The disk at the commit point: every slot and the header written, no home touched. */
  lemma AtCommitPoint(g: Geometry, d: Disk, t: Txn, d1: Disk)
    requires Fits(g, d) && GoodTxn(g, d, t)
    requires d1 == Apply(d, LogCopies(g, t))[g.start := EncodeHeader(d[g.start], t.nos)]
    ensures Recoverable(g, d1) && OnDiskTxn(g, d1) == t
    ensures forall b: nat | b < |d| && Home(g, b) :: d1[b] == d[b]
  {
    hide EncodeHeader, DecodeHeader, HeaderCount, OnDiskTxn, Recoverable, Distinct, LogCopies, Apply;
    LogCopiesAt(g, d, t, |t.nos|);
    assert LogCopies(g, t)[..|t.nos|] == LogCopies(g, t);
    HeaderRoundTrip(d[g.start], t.nos);
    TxnFromParts(g, d1, t);
  }

  /** Installing the same transaction over equal homes gives equal homes. */
  lemma InstallOverEqualHomes(g: Geometry, d: Disk, d1: Disk, t: Txn)
    requires Fits(g, d) && GoodTxn(g, d, t) && |d1| == |d|
    requires forall b: nat | b < |d| && Home(g, b) :: d1[b] == d[b]
    ensures Homes(g, Apply(d1, Installs(t))) == Homes(g, Apply(d, Installs(t)))
  {
    forall b: nat | b < |d| && Home(g, b)
      ensures Apply(d1, Installs(t))[b] == Apply(d, Installs(t))[b]
    {
      InstalledAt(g, d, t, b);
      InstalledAt(g, d1, t, b);
    }
  }

  lemma CommitHalves(g: Geometry, d: Disk, t: Txn)
    requires Fits(g, d) && GoodTxn(g, d, t) && t.nos != []
    ensures InRange(d, CommitWrites(g, d, t)[..|t.nos|+1])
    ensures Apply(d, CommitWrites(g, d, t)[..|t.nos|+1])
            == Apply(d, LogCopies(g, t))[g.start := EncodeHeader(d[g.start], t.nos)]
    ensures CommitWrites(g, d, t)[..|t.nos|+1]
            == LogCopies(g, t) + [Write(g.start, EncodeHeader(d[g.start], t.nos))]
    ensures CommitWrites(g, d, t)[|t.nos|+1..]
            == Installs(t) + [Write(g.start, EncodeHeader(EncodeHeader(d[g.start], t.nos), []))]
  {
    var first := LogCopies(g, t) + [Write(g.start, EncodeHeader(d[g.start], t.nos))];
    assert CommitWrites(g, d, t)[..|t.nos|+1] == first;
    assert first[..|t.nos|] == LogCopies(g, t);
  }

  lemma CommitNothing(g: Geometry, d: Disk, t: Txn)
    requires Fits(g, d) && GoodTxn(g, d, t) && t.nos == []
    ensures CommitWrites(g, d, t) == [] && Apply(d, CommitWrites(g, d, t)) == d
  {
  }

  lemma WholeCommit(g: Geometry, d: Disk, t: Txn)
    requires Fits(g, d) && GoodTxn(g, d, t) && t.nos != []
    ensures var h := EncodeHeader(d[g.start], t.nos);
            Apply(d, CommitWrites(g, d, t)) ==
            Apply(Apply(d, LogCopies(g, t))[g.start := h], Installs(t))[g.start := EncodeHeader(h, [])]
  {
    hide CommitWrites, EncodeHeader, LogCopies;
    CommitHalves(g, d, t);
    var ws := CommitWrites(g, d, t);
    var m := |t.nos| + 1;
    assert ws == ws[..m] + ws[m..];
    ApplyConcat(d, ws[..m], ws[m..]);
    assert ws[m..][..|t.nos|] == Installs(t);
  }

  /** Once the header is on disk, the rest of a commit is exactly a recovery. */
  lemma AfterCommitPoint(g: Geometry, d: Disk, t: Txn)
    requires Fits(g, d) && GoodTxn(g, d, t) && t.nos != []
    ensures InRange(d, CommitWrites(g, d, t)[..|t.nos|+1])
    ensures var d1 := Apply(d, CommitWrites(g, d, t)[..|t.nos|+1]);
            && Recoverable(g, d1)
            && CommitWrites(g, d, t)[|t.nos|+1..] == RecoveryWrites(g, d1)
            && Durable(g, d1) == Homes(g, Apply(d, Installs(t)))
  {
    hide EncodeHeader, CommitWrites, LogCopies, Distinct, Apply, Recoverable, OnDiskTxn;
    CommitHalves(g, d, t);
    var d1 := Apply(d, CommitWrites(g, d, t)[..|t.nos|+1]);
    AtCommitPoint(g, d, t, d1);
    RecoveredIs(g, d1);
    InstallOverEqualHomes(g, d, d1, t);
    assert Homes(g, Recovered(g, d1)) == Homes(g, Apply(d1, Installs(t)));
  }

  lemma CommitTail(g: Geometry, d: Disk, t: Txn, k: nat)
    requires Fits(g, d) && GoodTxn(g, d, t) && t.nos != []
    requires |t.nos| < k <= |CommitWrites(g, d, t)|
    ensures InRange(d, CommitWrites(g, d, t)[..k])
    ensures var d1 := Apply(d, CommitWrites(g, d, t)[..k]);
            && Recoverable(g, d1) && Durable(g, d1) == Homes(g, Apply(d, Installs(t)))
            && (k == |CommitWrites(g, d, t)| ==> HeaderCount(d1[g.start]) == 0)
  {
    hide EncodeHeader, CommitWrites, Installs, Homes, Durable, OnDiskTxn, Recoverable, GoodTxn, Fits, Apply;
    AfterCommitPoint(g, d, t);
    var ws := CommitWrites(g, d, t);
    var m := |t.nos| + 1;
    var d1 := Apply(d, ws[..m]);
    var rest := ws[m..];
    PrefixSplit(ws, m, k);
    RecoveryPrefix(g, d1, k - m);
    ApplyConcat(d, ws[..m], rest[..k-m]);
    if k == |ws| {
      assert rest[..k-m] == rest;
      RecoveryFinished(g, d1);
    }
  }

  /** All or nothing: a crash after any number k of a commit's writes recovers to the old
      homes when k stops short of the first header write, and to the new homes after it. */
  lemma CommitAtomic(g: Geometry, d: Disk, t: Txn, k: nat)
    requires Fits(g, d) && GoodTxn(g, d, t) && HeaderCount(d[g.start]) == 0
    requires k <= |CommitWrites(g, d, t)|
    ensures InRange(d, CommitWrites(g, d, t)[..k])
    ensures var d1 := Apply(d, CommitWrites(g, d, t)[..k]);
            && Recoverable(g, d1)
            && Durable(g, d1) == Homes(g, if k <= |t.nos| then d else Apply(d, Installs(t)))
            && (k == |CommitWrites(g, d, t)| ==> HeaderCount(d1[g.start]) == 0)
  {
    if t.nos == [] {
      EmptyLogIsDurable(g, d);
    } else if k <= |t.nos| {
      assert CommitWrites(g, d, t)[..k] == LogCopies(g, t)[..k];
      BeforeCommitPoint(g, d, t, k);
    } else {
      CommitTail(g, d, t, k);
    }
  }

  /** The disk after reboots that each crash again, having issued ks[i] recovery writes. */
  function AfterReboots(g: Geometry, d: Disk, ks: seq<nat>): (r: Disk)
    requires Recoverable(g, d)
    ensures Recoverable(g, r) && Durable(g, r) == Durable(g, d)
    decreases |ks|
  {
    if ks == [] then d
    else
      var ws := RecoveryWrites(g, d);
      var k := if ks[0] <= |ws| then ks[0] else |ws|;
      RecoveryPrefix(g, d, k);
      AfterReboots(g, Apply(d, ws[..k]), ks[1..])
  }

  /** Crash at any write of a commit, then crash any number of times inside recovery: the
      recovery that finally finishes shows all old homes or all new ones, and the old ones
      exactly when the first header write had not reached the disk. */
  lemma CrashDuringCommit(g: Geometry, d: Disk, t: Txn, k: nat, ks: seq<nat>)
    requires Fits(g, d) && GoodTxn(g, d, t) && HeaderCount(d[g.start]) == 0
    requires k <= |CommitWrites(g, d, t)|
    ensures InRange(d, CommitWrites(g, d, t)[..k])
    ensures Recoverable(g, Apply(d, CommitWrites(g, d, t)[..k]))
    ensures var crashed := AfterReboots(g, Apply(d, CommitWrites(g, d, t)[..k]), ks);
            && Homes(g, Recovered(g, crashed)) ==
               Homes(g, if k <= |t.nos| then d else Apply(d, Installs(t)))
            && HeaderCount(Recovered(g, crashed)[g.start]) == 0
  {
    CommitAtomic(g, d, t, k);
    var crashed := AfterReboots(g, Apply(d, CommitWrites(g, d, t)[..k]), ks);
    RecoveryFinished(g, crashed);
  }
}
