/** Group commit under concurrency and crashes (kernel/log.c:126-235): every interleaving of
    begin_op, log_write, end_op, single disk writes and crashes. */
module LogMachine {
  import opened Disk
  import opened Sequences
  import opened RedoLog
  import opened LogDevice

  /** A running operation and how many blocks it was the first to log. */
  datatype Op = Op(id: nat, added: nat)

  /** One log_write, with the operation that made it. */
  datatype Event = Event(op: nat, blockno: nat, data: Block)

  /** Either operations may run, or a commit or a recovery is issuing the writes `ws`,
      `k` of which have reached the disk since it was `base`. */
  datatype Phase =
    | Ready
    | Flushing(base: Disk, ws: seq<Write>, k: nat, recovering: bool)

  /** `events` and `done` are history: all log_writes of the surviving past, and how many of
      them the last finished commit covered. Everything but `disk` and history is lost in a crash. */
  datatype State = State(
    disk: Disk, pinned: map<nat, Block>, nos: seq<nat>, ops: seq<Op>, nextOp: nat,
    phase: Phase, events: seq<Event>, done: nat)

  datatype Label =
    | BeginOp
    | LogWrite(i: nat, b: nat, data: Block)
    | EndOp(i: nat)
    | DiskWrite
    | FinishFlush
    | Crash

  function Init(d0: Disk): State
  {
    State(d0, map[], [], [], 0, Ready, [], 0)
  }

  /** The file system as the operations themselves made it: the writes of `es` in order. */
  function Replay(d0: Disk, es: seq<Event>): (r: Disk)
    requires forall i | 0 <= i < |es| :: es[i].blockno < |d0|
    ensures |r| == |d0|
    decreases |es|
  {
    if es == [] then d0
    else var e := es[|es|-1]; Replay(d0, es[..|es|-1])[e.blockno := e.data]
  }

  predicate Enabled(g: Geometry, s: State, l: Label)
  {
    match l
    case BeginOp => s.phase.Ready? && Admits(|s.nos|, |s.ops|)
    case LogWrite(i, b, _) =>
      && s.phase.Ready? && i < |s.ops| && b < |s.disk| && Home(g, b)
      && !Overflows(g, |s.nos|)
    case EndOp(i) => s.phase.Ready? && i < |s.ops|
    case DiskWrite => s.phase.Flushing? && s.phase.k < |s.phase.ws| && InRange(s.disk, s.phase.ws)
    case FinishFlush => s.phase.Flushing? && s.phase.k == |s.phase.ws|
    case Crash => true
  }

  predicate PinsHeader(s: State)
  {
    forall b | b in s.nos :: b in s.pinned
  }

  /** The writes a commit of s would issue. */
  function CommitPlan(g: Geometry, s: State): seq<Write>
  {
    if PinsHeader(s) && Fits(g, s.disk) && GoodTxn(g, s.disk, PinnedTxn(s.pinned, s.nos))
    then CommitWrites(g, s.disk, PinnedTxn(s.pinned, s.nos)) else []
  }

  function RecoveryPlan(g: Geometry, d: Disk): seq<Write>
  {
    if Recoverable(g, d) then RecoveryWrites(g, d) else []
  }

  /** How much of the history survives a crash in s. */
  function DurablePoint(s: State): nat
  {
    if s.phase.Flushing? && !s.phase.recovering && s.phase.k > |s.nos| then |s.events| else s.done
  }

  function Step(g: Geometry, s: State, l: Label): State
    requires Enabled(g, s, l)
  {
    match l
    case BeginOp => s.(ops := s.ops + [Op(s.nextOp, 0)], nextOp := s.nextOp + 1)
    case LogWrite(i, b, data) =>
      s.(nos := Absorb(s.nos, b), pinned := s.pinned[b := data],
         ops := if b in s.nos then s.ops else s.ops[i := s.ops[i].(added := s.ops[i].added + 1)],
         events := s.events + [Event(s.ops[i].id, b, data)])
    case EndOp(i) =>
      var s1 := s.(ops := Without(s.ops, i));
      if s1.ops == [] && s.nos != [] then s1.(phase := Flushing(s.disk, CommitPlan(g, s), 0, false)) else s1
    case DiskWrite =>
      var w := s.phase.ws[s.phase.k];
      s.(disk := s.disk[w.blockno := w.data], phase := s.phase.(k := s.phase.k + 1))
    case FinishFlush => s.(phase := Ready, nos := [], pinned := map[], done := |s.events|)
    case Crash =>
      var p := if DurablePoint(s) <= |s.events| then DurablePoint(s) else |s.events|;
      State(s.disk, map[], [], [], s.nextOp,
            Flushing(s.disk, RecoveryPlan(g, s.disk), 0, true), s.events[..p], p)
  }

  ghost predicate IsRun(g: Geometry, d0: Disk, ss: seq<State>, ls: seq<Label>)
  {
    && |ss| == |ls| + 1
    && ss[0] == Init(d0)
    && forall i | 0 <= i < |ls| :: Enabled(g, ss[i], ls[i]) && ss[i+1] == Step(g, ss[i], ls[i])
  }

  // ---- The invariant ----

  predicate GoodEvents(g: Geometry, d0: Disk, es: seq<Event>)
  {
    forall i | 0 <= i < |es| :: es[i].blockno < |d0| && Home(g, es[i].blockno)
  }

  /** An operation with an event before p has ended and has no event from p on. */
  predicate NotSplit(s: State, p: nat)
    requires p <= |s.events|
  {
    && (forall i, j | 0 <= i < p <= j < |s.events| :: s.events[i].op != s.events[j].op)
    && (forall i, j | 0 <= i < p && 0 <= j < |s.ops| :: s.events[i].op != s.ops[j].id)
  }

  predicate FreshIds(s: State)
  {
    && (forall i | 0 <= i < |s.events| :: s.events[i].op < s.nextOp)
    && (forall j | 0 <= j < |s.ops| :: s.ops[j].id < s.nextOp)
  }

  predicate Shape(g: Geometry, d0: Disk, s: State)
  {
    && Fits(g, s.disk) && |s.disk| == |d0|
    && s.done <= |s.events|
    && GoodEvents(g, d0, s.events)
    && FreshIds(s) && NotSplit(s, s.done)
  }

  /** The in-memory transaction over the disk `base` holds exactly the history. */
  predicate LogicalAgrees(g: Geometry, d0: Disk, base: Disk, s: State)
  {
    && Fits(g, base) && |base| == |d0|
    && HeaderCount(base[g.start]) == 0
    && PinsHeader(s) && GoodTxn(g, base, PinnedTxn(s.pinned, s.nos))
    && GoodEvents(g, d0, s.events) && s.done <= |s.events|
    && Homes(g, base) == Homes(g, Replay(d0, s.events[..s.done]))
    && Homes(g, Overlay(g, base, PinnedTxn(s.pinned, s.nos))) == Homes(g, Replay(d0, s.events))
  }

  predicate Inv(g: Geometry, d0: Disk, s: State)
  {
    && Shape(g, d0, s)
    && match s.phase
       case Ready => LogicalAgrees(g, d0, s.disk, s)
       case Flushing(base, ws, k, false) =>
         && s.ops == [] && s.nos != []
         && LogicalAgrees(g, d0, base, s)
         && ws == CommitWrites(g, base, PinnedTxn(s.pinned, s.nos))
         && k <= |ws| && s.disk == Apply(base, ws[..k])
       case Flushing(base, ws, k, true) =>
         && s.ops == [] && s.nos == [] && s.pinned == map[] && s.done == |s.events|
         && |base| == |d0|
         && Recoverable(g, base) && ws == RecoveryWrites(g, base)
         && k <= |ws| && s.disk == Apply(base, ws[..k])
         && Durable(g, base) == Homes(g, Replay(d0, s.events))
  }

  /** In every state of the invariant a crash loses exactly what follows the durable point. */
  lemma DurableIsReplay(g: Geometry, d0: Disk, s: State)
    requires Inv(g, d0, s)
    ensures s.done <= DurablePoint(s) <= |s.events|
    ensures Recoverable(g, s.disk)
    ensures Durable(g, s.disk) == Homes(g, Replay(d0, s.events[..DurablePoint(s)]))
  {
    assert s.events[..|s.events|] == s.events;
    match s.phase
    case Ready => EmptyLogIsDurable(g, s.disk);
    case Flushing(base, ws, k, rec) =>
      if rec {
        RecoveryPrefix(g, base, k);
      } else {
        CommitAtomic(g, base, PinnedTxn(s.pinned, s.nos), k);
      }
  }

  // ---- Preservation, step by step ----

  lemma OverlayAt(g: Geometry, d: Disk, pinned: map<nat, Block>, nos: seq<nat>, b: nat, data: Block, x: nat)
    requires Fits(g, d) && b < |d| && Home(g, b) && x < |d|
    requires (forall y | y in nos :: y in pinned) && GoodTxn(g, d, PinnedTxn(pinned, nos))
    requires GoodTxn(g, d, PinnedTxn(pinned[b := data], Absorb(nos, b)))
    ensures Overlay(g, d, PinnedTxn(pinned[b := data], Absorb(nos, b)))[x]
            == if x == b then data else Overlay(g, d, PinnedTxn(pinned, nos))[x]
  {
    hide Apply, Installs, Distinct, Fits, Home, GoodHeader;
    var t := PinnedTxn(pinned, nos);
    var t' := PinnedTxn(pinned[b := data], Absorb(nos, b));
    InstalledAt(g, d, t, x);
    InstalledAt(g, d, t', x);
    if x in t'.nos {
      var i :| 0 <= i < |t'.nos| && t'.nos[i] == x;
      if x != b {
        assert t.nos[i] == x;
      }
    }
  }

  /** Logging a block over a pending transaction changes that one block of the logical view. */
  lemma LogOverlay(g: Geometry, d: Disk, pinned: map<nat, Block>, nos: seq<nat>, b: nat, data: Block)
    requires Fits(g, d) && b < |d| && Home(g, b)
    requires (forall x | x in nos :: x in pinned) && GoodTxn(g, d, PinnedTxn(pinned, nos))
    requires GoodTxn(g, d, PinnedTxn(pinned[b := data], Absorb(nos, b)))
    ensures Homes(g, Overlay(g, d, PinnedTxn(pinned[b := data], Absorb(nos, b))))
            == Homes(g, Overlay(g, d, PinnedTxn(pinned, nos)))[b := data]
  {
    hide Overlay, Distinct, GoodHeader, Homes;
    var before := Overlay(g, d, PinnedTxn(pinned, nos));
    var after := Overlay(g, d, PinnedTxn(pinned[b := data], Absorb(nos, b)));
    forall x: nat | x < |d|
      ensures after[x] == if x == b then data else before[x]
    {
      OverlayAt(g, d, pinned, nos, b, data, x);
    }
    assert after == before[b := data];
    HomesUpdate(g, before, b, data);
  }

  lemma HomesUpdate(g: Geometry, d: Disk, b: nat, data: Block)
    requires b < |d| && Home(g, b)
    ensures Homes(g, d[b := data]) == Homes(g, d)[b := data]
  {
  }

  lemma AbsorbGood(g: Geometry, disksize: nat, nos: seq<nat>, b: nat)
    requires GoodHeader(g, disksize, nos) && b < disksize && Home(g, b) && !Overflows(g, |nos|)
    ensures GoodHeader(g, disksize, Absorb(nos, b))
  {
  }

  lemma LogWriteShape(g: Geometry, d0: Disk, s: State, i: nat, b: nat, data: Block)
    requires Shape(g, d0, s) && Enabled(g, s, LogWrite(i, b, data))
    ensures Shape(g, d0, Step(g, s, LogWrite(i, b, data)))
  {
  }

  lemma LogWriteKeeps(g: Geometry, d0: Disk, s: State, i: nat, b: nat, data: Block)
    requires Inv(g, d0, s) && Enabled(g, s, LogWrite(i, b, data))
    ensures Inv(g, d0, Step(g, s, LogWrite(i, b, data)))
  {
    hide Overlay, Homes, Distinct, NotSplit, FreshIds;
    var s' := Step(g, s, LogWrite(i, b, data));
    LogWriteShape(g, d0, s, i, b, data);
    AbsorbGood(g, |s.disk|, s.nos, b);
    LogOverlay(g, s.disk, s.pinned, s.nos, b, data);
    assert s'.events[..|s.events|] == s.events;
    assert s'.events[..s.done] == s.events[..s.done];
    HomesUpdate(g, Replay(d0, s.events), b, data);
  }

  lemma BeginOpKeeps(g: Geometry, d0: Disk, s: State)
    requires Inv(g, d0, s) && Enabled(g, s, BeginOp)
    ensures Inv(g, d0, Step(g, s, BeginOp))
  {
  }

  lemma EndOpKeeps(g: Geometry, d0: Disk, s: State, i: nat)
    requires Inv(g, d0, s) && Enabled(g, s, EndOp(i))
    ensures Inv(g, d0, Step(g, s, EndOp(i)))
  {
    var ops' := Without(s.ops, i);
    forall j | 0 <= j < |ops'|
      ensures ops'[j] in s.ops
    {
      if j >= i { assert ops'[j] == s.ops[j+1]; }
    }
    var s' := Step(g, s, EndOp(i));
    assert Shape(g, d0, s');
    if s'.phase.Flushing? {
      ApplyNone(s.disk, s'.phase.ws);
    }
  }

  lemma DiskWriteKeeps(g: Geometry, d0: Disk, s: State)
    requires Inv(g, d0, s) && Enabled(g, s, DiskWrite)
    ensures Inv(g, d0, Step(g, s, DiskWrite))
  {
    hide Overlay, Apply, Homes, Distinct, Durable, Recoverable, EncodeHeader;
    ApplyStep(s.phase.base, s.phase.ws, s.phase.k);
    var s' := Step(g, s, DiskWrite);
    assert s'.disk == Apply(s.phase.base, s.phase.ws[..s'.phase.k]);
  }

  /** A finished commit leaves the homes that carry the whole history. */
  lemma FinishFlushKeeps(g: Geometry, d0: Disk, s: State)
    requires Inv(g, d0, s) && Enabled(g, s, FinishFlush)
    ensures Inv(g, d0, Step(g, s, FinishFlush))
  {
    hide Overlay, Apply, Homes, Distinct, Durable, Recoverable, EncodeHeader, CommitWrites, RecoveryWrites;
    DurableIsReplay(g, d0, s);
    FlushedHeader(g, d0, s);
    EmptyLogIsDurable(g, s.disk);
    assert s.events[..|s.events|] == s.events;
    EmptyOverlay(g, s.disk);
    var s' := Step(g, s, FinishFlush);
    assert Shape(g, d0, s');
    assert PinnedTxn(s'.pinned, s'.nos) == NoTxn;
    assert Homes(g, s.disk) == Homes(g, Replay(d0, s.events));
    assert LogicalAgrees(g, d0, s'.disk, s');
  }

  lemma FlushedHeader(g: Geometry, d0: Disk, s: State)
    requires Inv(g, d0, s) && Enabled(g, s, FinishFlush)
    ensures HeaderCount(s.disk[g.start]) == 0
    ensures DurablePoint(s) == |s.events|
  {
    var base, ws := s.phase.base, s.phase.ws;
    assert ws[..|ws|] == ws;
    if s.phase.recovering {
      RecoveryFinished(g, base);
    } else {
      CommitAtomic(g, base, PinnedTxn(s.pinned, s.nos), |ws|);
    }
  }

  lemma EmptyOverlay(g: Geometry, d: Disk)
    requires Fits(g, d)
    ensures GoodTxn(g, d, NoTxn) && Overlay(g, d, NoTxn) == d
  {
    assert Installs(NoTxn) == [];
  }

  lemma CrashKeeps(g: Geometry, d0: Disk, s: State)
    requires Inv(g, d0, s)
    ensures Inv(g, d0, Step(g, s, Crash))
  {
    hide Homes, Distinct, Durable, Recoverable, EncodeHeader, CommitWrites, RecoveryWrites;
    DurableIsReplay(g, d0, s);
    ApplyNone(s.disk, RecoveryWrites(g, s.disk));
  }

  lemma StepKeeps(g: Geometry, d0: Disk, s: State, l: Label)
    requires Inv(g, d0, s) && Enabled(g, s, l)
    ensures Inv(g, d0, Step(g, s, l))
  {
    match l
    case BeginOp => BeginOpKeeps(g, d0, s);
    case LogWrite(i, b, data) => LogWriteKeeps(g, d0, s, i, b, data);
    case EndOp(i) => EndOpKeeps(g, d0, s, i);
    case DiskWrite => DiskWriteKeeps(g, d0, s);
    case FinishFlush => FinishFlushKeeps(g, d0, s);
    case Crash => CrashKeeps(g, d0, s);
  }

  lemma InitInv(g: Geometry, d0: Disk)
    requires Fits(g, d0) && HeaderCount(d0[g.start]) == 0
    ensures Inv(g, d0, Init(d0))
  {
    EmptyOverlay(g, d0);
    assert PinnedTxn(map[], []) == NoTxn;
  }

  lemma {:induction false} RunInv(g: Geometry, d0: Disk, ss: seq<State>, ls: seq<Label>, i: nat)
    requires Fits(g, d0) && HeaderCount(d0[g.start]) == 0
    requires IsRun(g, d0, ss, ls) && i <= |ls|
    ensures Inv(g, d0, ss[i])
  {
    hide Inv, Enabled, Step;
    if i == 0 {
      InitInv(g, d0);
    } else {
      RunInv(g, d0, ss, ls, i - 1);
      StepKeeps(g, d0, ss[i-1], ls[i-1]);
    }
  }

  // ---- Crash consistency ----

  /** State j is the start of the run or follows an end_op, no operation is open in it, and its
      history is `es`. */
  predicate QuietAt(ss: seq<State>, ls: seq<Label>, j: nat, es: seq<Event>)
  {
    && j < |ss| && j <= |ls| && (j == 0 || ls[j-1].EndOp?)
    && ss[j].ops == [] && ss[j].events == es
  }

  lemma FlushingIsQuiet(g: Geometry, d0: Disk, s: State)
    requires Inv(g, d0, s)
    ensures s.done <= |s.events| && (s.phase.Flushing? ==> s.ops == [])
    ensures s.phase.Flushing? && s.phase.recovering ==> s.done == |s.events|
  {
  }

  /** What one step does to the history: the committed part grows only when a commit ends or a crash
      finds it past its commit point, and a commit starts only with an end_op. */
  lemma HistoryStep(g: Geometry, d0: Disk, s: State, l: Label)
    requires Inv(g, d0, s) && Enabled(g, s, l) && Inv(g, d0, Step(g, s, l))
    ensures s.done <= |s.events| && Step(g, s, l).done <= |Step(g, s, l).events|
    ensures var t := Step(g, s, l);
            || t.events[..t.done] == s.events[..s.done]
            || (t.events[..t.done] == s.events && s.phase.Flushing? && !s.phase.recovering)
    ensures var t := Step(g, s, l);
            t.phase.Flushing? && !t.phase.recovering ==>
              if l.EndOp? then t.ops == []
              else s.phase.Flushing? && !s.phase.recovering && t.events == s.events
  {
    hide Inv, CommitPlan, RecoveryPlan;
    FlushingIsQuiet(g, d0, s);
    FlushingIsQuiet(g, d0, Step(g, s, l));
    assert s.events[..|s.events|] == s.events;
    var t := Step(g, s, l);
    if l.FinishFlush? || l.Crash? {
      assert t.events[..t.done] == t.events;
    } else {
      assert t.events[..t.done] == s.events[..s.done];
    }
  }

  /** Such a moment exists for the history of the last finished commit, and for the whole history
      while a commit is under way. */
  lemma {:induction false} LastQuiet(g: Geometry, d0: Disk, ss: seq<State>, ls: seq<Label>, i: nat)
    returns (done: nat, all: nat)
    requires Fits(g, d0) && HeaderCount(d0[g.start]) == 0
    requires IsRun(g, d0, ss, ls) && i <= |ls|
    ensures ss[i].done <= |ss[i].events|
    ensures done <= i && QuietAt(ss, ls, done, ss[i].events[..ss[i].done])
    ensures all <= i
    ensures ss[i].phase.Flushing? && !ss[i].phase.recovering ==> QuietAt(ss, ls, all, ss[i].events)
  {
    hide Inv, Enabled, Step;
    RunInv(g, d0, ss, ls, i);
    FlushingIsQuiet(g, d0, ss[i]);
    if i == 0 {
      done, all := 0, 0;
    } else {
      RunInv(g, d0, ss, ls, i - 1);
      done, all := LastQuiet(g, d0, ss, ls, i - 1);
      HistoryStep(g, d0, ss[i-1], ls[i-1]);
      if ss[i].events[..ss[i].done] != ss[i-1].events[..ss[i-1].done] { done := all; }
      if ls[i-1].EndOp? { all := i; }
    }
  }

  /** The file system as processes see it: the disk under the pinned buffers of the log. */
  lemma QuietView(g: Geometry, d0: Disk, ss: seq<State>, ls: seq<Label>, j: nat, es: seq<Event>)
    requires Fits(g, d0) && HeaderCount(d0[g.start]) == 0
    requires IsRun(g, d0, ss, ls) && QuietAt(ss, ls, j, es)
    ensures Fits(g, ss[j].disk) && PinsHeader(ss[j])
    ensures GoodTxn(g, ss[j].disk, PinnedTxn(ss[j].pinned, ss[j].nos)) && GoodEvents(g, d0, es)
    ensures Homes(g, Overlay(g, ss[j].disk, PinnedTxn(ss[j].pinned, ss[j].nos))) == Homes(g, Replay(d0, es))
  {
    hide Homes, Overlay, GoodTxn, Replay, CommitPlan, CommitWrites, RecoveryWrites, Durable;
    RunInv(g, d0, ss, ls, j);
    if j > 0 {
      RunInv(g, d0, ss, ls, j - 1);
    }
  }

  /** In every interleaving and at every crash point, recovery shows the file system exactly as
      processes saw it at an earlier moment j with no operation open (the start, or after an
      end_op), no earlier than what the last finished commit covered, and it splits no operation. */
  lemma CrashConsistent(g: Geometry, d0: Disk, ss: seq<State>, ls: seq<Label>, i: nat) returns (j: nat)
    requires Fits(g, d0) && HeaderCount(d0[g.start]) == 0
    requires IsRun(g, d0, ss, ls) && i <= |ls|
    ensures j <= i && (j == 0 || ls[j-1].EndOp?) && ss[j].ops == []
    ensures |ss[j].events| >= ss[i].done
    ensures Fits(g, ss[j].disk) && PinsHeader(ss[j])
    ensures GoodTxn(g, ss[j].disk, PinnedTxn(ss[j].pinned, ss[j].nos)) && GoodEvents(g, d0, ss[j].events)
    ensures Recoverable(g, ss[i].disk)
    ensures Homes(g, Recovered(g, ss[i].disk)) ==
            Homes(g, Overlay(g, ss[j].disk, PinnedTxn(ss[j].pinned, ss[j].nos)))
    ensures Homes(g, Recovered(g, ss[i].disk)) == Homes(g, Replay(d0, ss[j].events))
    ensures ss[j].events <= ss[i].events && NotSplit(ss[i], |ss[j].events|)
  {
    hide Homes, Overlay, GoodTxn, Replay, LogicalAgrees, CommitPlan, CommitWrites, RecoveryWrites, Apply;
    RunInv(g, d0, ss, ls, i);
    DurableIsReplay(g, d0, ss[i]);
    var done, all := LastQuiet(g, d0, ss, ls, i);
    var s := ss[i];
    assert s.events[..|s.events|] == s.events;
    j := if DurablePoint(s) == s.done then done else all;
    QuietView(g, d0, ss, ls, j, s.events[..DurablePoint(s)]);
  }
}
