/** kernel/log.c begin_op, log_write and end_op over log.lock: who may sleep in begin_op, and when. */
module LogAdmission {
  import RedoLog
  import opened SleepWakeup

  const CHAN: nat := 1

  /** log.outstanding, log.committing and log.lh.n */
  datatype Counts = Counts(outstanding: int, committing: bool, n: int)

  predicate Admits(d: Counts)
  {
    !d.committing && d.n + (d.outstanding + 1) * RedoLog.MAXOPBLOCKS <= RedoLog.LOGSIZE
  }

  ghost function Admitted(): Cond<Counts>
  {
    (j: nat, c: nat, d: Counts) => c == CHAN && Admits(d)
  }

  /** How far a process is in begin_op (Want, Began), between the calls (InOp), in log_write (Writing),
      in end_op (Ending; Ended and Told when others remain; Last, Committing, Emptied, Finishing and
      Finished when it has to commit). */
  datatype Loc =
    | Idle | Want | Began | InOp | Writing | Ending | Ended | Told | Last | Committing | Emptied | Finishing | Finished

  datatype Machine = Machine(s: State<Counts>, at: seq<Loc>)

  /** The operations that have begun and not ended. */
  predicate Open(a: Loc)
  {
    a == Began || a == InOp || a == Writing || a == Ending
  }

  predicate Commits(a: Loc)
  {
    a == Last || a == Committing || a == Emptied || a == Finishing
  }

  /** The stores: begin_op's and end_op's counts, log_write's append or absorption, the end of a commit. */
  predicate Edits(a: Loc, b: Loc, d: Counts, d': Counts)
  {
    || (a == Want && b == Began && Admits(d) && d' == d.(outstanding := d.outstanding + 1))
    || (a == Writing && b == InOp && (d' == d || d' == d.(n := d.n + 1)))
    || (a == Ending && b == Ended && d.outstanding != 1 && d' == d.(outstanding := d.outstanding - 1))
    || (a == Ending && b == Last && d.outstanding == 1 && d' == Counts(0, true, d.n))
    || (a == Finishing && b == Finished && d' == d.(committing := false))
  }

  /** Process p moves to b, in the program order of begin_op (lines 129-141), log_write (lines 219-234)
      and end_op (lines 151-174, with commit's line 200). */
  predicate May(m: Machine, l: Label<Counts>, p: nat, b: Loc)
  {
    && Ready(m.s, l) && |m.at| == |m.s.procs| && p < |m.at|
    && var a := m.at[p]; var d := m.s.data;
       if l.Quiet? then a == Committing && b == Emptied && l.data == d.(n := 0)
       else
         && p == l.p
         && (if l.Acquire? then
               || (a == Idle && b == Want) || (a == InOp && (b == Writing || b == Ending))
               || (a == Emptied && b == Finishing)
             else if l.Change? then Edits(a, b, d, l.data)
             else if l.SleepLock? then a == Want && b == a && !Admits(d) && l.chan == CHAN
             else if l.WakeStart? then (a == Ended || a == Finished) && b == a && l.chan == CHAN
             else if l.WakeDone? then (a == Ended || a == Finished) && b == Told
             else if l.Release? then
               || ((a == Began || a == InOp) && b == InOp) || (a == Told && b == Idle) || (a == Last && b == Committing)
             else b == a)
  }

  function Next(m: Machine, l: Label<Counts>, p: nat, b: Loc): Machine
    requires May(m, l, p, b)
  {
    Machine(Step(m.s, l), m.at[p := b])
  }

  ghost function OpenSet(at: seq<Loc>): set<nat>
  {
    set p: nat | p < |at| && Open(at[p])
  }

  lemma OpenMoves(at: seq<Loc>, p: nat, b: Loc)
    requires p < |at|
    ensures |OpenSet(at[p := b])| == |OpenSet(at)| + (if Open(b) then 1 else 0) - (if Open(at[p]) then 1 else 0)
  {
    hide Open;
    var rest := OpenSet(at) - {p};
    assert OpenSet(at) == if Open(at[p]) then rest + {p} else rest;
    assert OpenSet(at[p := b]) == if Open(b) then rest + {p} else rest;
  }

  lemma OpenCounts(at: seq<Loc>, p: nat)
    requires p < |at| && Open(at[p])
    ensures |OpenSet(at)| >= 1
  {
    assert p in OpenSet(at);
  }

  /** log.outstanding counts the open operations; log.committing is one process's commit. */
  ghost predicate CountsOk(m: Machine)
  {
    && m.s.data.outstanding == |OpenSet(m.at)|
    && (m.s.data.committing ==> m.s.data.outstanding == 0)
    && (forall p: nat | p < |m.at| && Commits(m.at[p]) :: m.s.data.committing)
    && (forall p: nat, q: nat | p < |m.at| && q < |m.at| && Commits(m.at[p]) && Commits(m.at[q]) :: p == q)
  }

  predicate Tracked(m: Machine, p: nat)
    requires p < |m.at| == |m.s.procs|
  {
    CHAN in m.s.procs[p].woke || (Admits(m.s.data) ==> Admits(m.s.entry)) || m.at[p] == Ended || m.at[p] == Finished
  }

  predicate Place(m: Machine, p: nat)
    requires p < |m.at| == |m.s.procs|
  {
    var ph := m.s.procs[p].phase;
    match m.at[p]
    case Idle => ph.Out?
    case Want => !ph.Out? && !ph.Waking? && (ph.Inside? || ph.chan == CHAN) && (ph.Falling? ==> !Admits(m.s.data))
    case Began => ph.Inside?
    case InOp => ph.Out? || ph.Inside?
    case Writing => ph.Inside?
    case Ending => ph.Inside?
    case Ended => ph.Inside? || (ph.Waking? && ph.chan == CHAN)
    case Told => ph.Inside? && CHAN in m.s.procs[p].woke
    case Last => ph.Inside?
    case Committing => ph.Out?
    case Emptied => ph.Out?
    case Finishing => ph.Inside?
    case Finished => ph.Inside? || (ph.Waking? && ph.chan == CHAN)
  }

  predicate LocOk(m: Machine, p: nat)
    requires p < |m.at| == |m.s.procs|
  {
    Place(m, p) && (HoldsLk(m.s.procs[p]) ==> Tracked(m, p))
  }

  ghost predicate MachineInv(m: Machine)
  {
    Inv(Admitted(), m.s) && |m.at| == |m.s.procs| && CountsOk(m) && forall p: nat | p < |m.at| :: LocOk(m, p)
  }

  lemma ObeysDiscipline(m: Machine, l: Label<Counts>, p: nat, b: Loc)
    requires MachineInv(m) && May(m, l, p, b)
    ensures Guarded(Admitted(), m.s, l)
  {
    hide Inv;
    assert LocOk(m, p);
  }

  lemma EditCounts(m: Machine, l: Label<Counts>, p: nat, b: Loc)
    requires MachineInv(m) && May(m, l, p, b) && l.Change?
    ensures CountsOk(Next(m, l, p, b))
  {
    hide Inv, Step, Ready, LocOk, OpenSet;
    OpenMoves(m.at, p, b);
    if Open(m.at[p]) {
      OpenCounts(m.at, p);
    }
    DataStays(m.s, l);
  }

  lemma MoveCounts(m: Machine, l: Label<Counts>, p: nat, b: Loc)
    requires MachineInv(m) && May(m, l, p, b) && !l.Change?
    ensures CountsOk(Next(m, l, p, b))
  {
    hide Inv, Step, Ready, LocOk, OpenSet, Edits, Admits;
    OpenMoves(m.at, p, b);
    if l.Quiet? {
      QuietStays(m.s, l);
    } else {
      DataStays(m.s, l);
    }
  }

  lemma EditKeeps(m: Machine, l: Label<Counts>, p: nat, b: Loc)
    requires MachineInv(m) && May(m, l, p, b) && l.Change?
    ensures |Next(m, l, p, b).at| == |Next(m, l, p, b).s.procs| == |m.at| && LocOk(Next(m, l, p, b), p)
  {
    hide Inv, Step, Ready, CountsOk;
    assert LocOk(m, p);
    DataStays(m.s, l);
    MoverWoke(m.s, l);
  }

  lemma MoveKeeps(m: Machine, l: Label<Counts>, p: nat, b: Loc)
    requires MachineInv(m) && May(m, l, p, b) && !l.Change? && !l.Quiet?
    ensures |Next(m, l, p, b).at| == |Next(m, l, p, b).s.procs| == |m.at| && LocOk(Next(m, l, p, b), p)
  {
    hide Inv, Step, Ready, CountsOk, Edits, Admits;
    assert LocOk(m, p);
    DataStays(m.s, l);
    MoverPhase(m.s, l);
    MoverWoke(m.s, l);
  }

  lemma QuietKeeps(m: Machine, l: Label<Counts>, p: nat, b: Loc, q: nat)
    requires MachineInv(m) && May(m, l, p, b) && l.Quiet? && q < |m.at|
    ensures |Next(m, l, p, b).at| == |Next(m, l, p, b).s.procs| == |m.at| && LocOk(Next(m, l, p, b), q)
  {
    hide Inv, Step, Ready, Edits, OpenSet;
    assert LocOk(m, p) && LocOk(m, q);
    QuietStays(m.s, l);
  }

  lemma OtherKeeps(m: Machine, l: Label<Counts>, p: nat, b: Loc, q: nat)
    requires MachineInv(m) && May(m, l, p, b) && q < |m.at| && q != p && !l.Quiet?
    ensures |Next(m, l, p, b).at| == |Next(m, l, p, b).s.procs| == |m.at| && LocOk(Next(m, l, p, b), q)
  {
    hide Announced, PlockOk, Step, Ready, CountsOk, Edits, Admits;
    assert LocOk(m, q) && ProcOk(m.s, p) && ProcOk(m.s, q);
    DataStays(m.s, l);
    OthersStay(m.s, l, q);
  }

  lemma StepKeepsInv(m: Machine, l: Label<Counts>, p: nat, b: Loc)
    requires MachineInv(m) && May(m, l, p, b)
    ensures MachineInv(Next(m, l, p, b))
  {
    hide Inv, Guarded, LocOk, Step, Ready, CountsOk;
    ObeysDiscipline(m, l, p, b);
    StepKeeps(Admitted(), m.s, l);
    if l.Change? {
      EditCounts(m, l, p, b);
      EditKeeps(m, l, p, b);
    } else {
      MoveCounts(m, l, p, b);
      if l.Quiet? {
        QuietKeeps(m, l, p, b, p);
      } else {
        MoveKeeps(m, l, p, b);
      }
    }
    forall q: nat | q < |m.at| && q != p
      ensures LocOk(Next(m, l, p, b), q)
    {
      if l.Quiet? {
        QuietKeeps(m, l, p, b, q);
      } else {
        OtherKeeps(m, l, p, b, q);
      }
    }
  }

  predicate Start(m: Machine)
  {
    && Init(m.s) && m.s.data == Counts(0, false, 0) && |m.at| == |m.s.procs|
    && forall p: nat | p < |m.at| :: m.at[p] == Idle
  }

  lemma StartInv(m: Machine)
    requires Start(m)
    ensures MachineInv(m)
  {
    InitInv(Admitted(), m.s);
    assert OpenSet(m.at) == {};
  }

  ghost predicate IsMachineRun(ms: seq<Machine>, ls: seq<Label<Counts>>, ps: seq<nat>, bs: seq<Loc>)
  {
    && |ms| == |ls| + 1 && |ps| == |bs| == |ls| && Start(ms[0])
    && forall i | 0 <= i < |ls| :: May(ms[i], ls[i], ps[i], bs[i]) && ms[i + 1] == Next(ms[i], ls[i], ps[i], bs[i])
  }

  lemma {:induction false} ReachableInv(ms: seq<Machine>, ls: seq<Label<Counts>>, ps: seq<nat>, bs: seq<Loc>, i: nat)
    requires IsMachineRun(ms, ls, ps, bs) && i < |ms|
    ensures MachineInv(ms[i])
  {
    hide MachineInv, May, Next, Start;
    if i == 0 {
      StartInv(ms[0]);
    } else {
      ReachableInv(ms, ls, ps, bs, i - 1);
      StepKeepsInv(ms[i - 1], ls[i - 1], ps[i - 1], bs[i - 1]);
    }
  }

  /** Whenever log.lock is free, a process asleep in begin_op could not be admitted now either. */
  lemma SleepersRefused(ms: seq<Machine>, ls: seq<Label<Counts>>, ps: seq<nat>, bs: seq<Loc>, i: nat, p: nat)
    requires IsMachineRun(ms, ls, ps, bs) && i < |ms| && ms[i].s.lk == Nobody
    requires p < |ms[i].s.procs| && ms[i].s.procs[p].state == SLEEPING
    ensures var d := ms[i].s.data;
            d.committing || d.n + (d.outstanding + 1) * RedoLog.MAXOPBLOCKS > RedoLog.LOGSIZE
  {
    hide IsMachineRun, PlockOk, CountsOk;
    ReachableInv(ms, ls, ps, bs, i);
    assert ProcOk(ms[i].s, p) && LocOk(ms[i], p);
    assert Dozing(ms[i].s.procs[p], CHAN);
    assert !Admitted()(p, CHAN, ms[i].s.data);
  }

  /** end_op never finds a commit under way, and one process at a time commits. */
  lemma NoCommitPanic(ms: seq<Machine>, ls: seq<Label<Counts>>, ps: seq<nat>, bs: seq<Loc>, i: nat, p: nat)
    requires IsMachineRun(ms, ls, ps, bs) && i < |ms| && p < |ms[i].at|
    ensures ms[i].at[p] == Ending ==> !ms[i].s.data.committing
    ensures Commits(ms[i].at[p]) ==>
              && ms[i].s.data.committing && ms[i].s.data.outstanding == 0
              && forall q: nat | q < |ms[i].at| && q != p :: !Commits(ms[i].at[q]) && !Open(ms[i].at[q])
  {
    hide IsMachineRun, Inv, LocOk;
    ReachableInv(ms, ls, ps, bs, i);
    if Open(ms[i].at[p]) {
      OpenCounts(ms[i].at, p);
    }
    forall q: nat | q < |ms[i].at| && Open(ms[i].at[q])
      ensures !ms[i].s.data.committing
    {
      OpenCounts(ms[i].at, q);
    }
  }
}
