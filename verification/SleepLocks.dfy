/** kernel/sleeplock.c over sleep and wakeup: acquiresleep and releasesleep, one step per lock
    operation, test or store. */
module SleepLocks {
  import opened SleepWakeup

  const CHAN: nat := 1

  /** lk->locked and lk->pid */
  datatype Owner = Unlocked | LockedBy(p: nat)

  /** A waiter in acquiresleep waits for the lock to be unlocked. */
  ghost function Wanted(): Cond<Owner>
  {
    (j: nat, c: nat, d: Owner) => c == CHAN && d.Unlocked?
  }

  /** How far a process is: outside, before the store in acquiresleep, after it, between the two
      calls, before the store in releasesleep, after it, after the wakeup. */
  datatype Loc = Idle | Want | Got | Own | Giving | Gave | Told

  datatype Machine = Machine(s: State<Owner>, at: seq<Loc>)

  /** The program order of acquiresleep (lines 24-30) and releasesleep (lines 36-40). */
  predicate May(m: Machine, l: Label<Owner>)
  {
    && Ready(m.s, l) && |m.at| == |m.s.procs| && !l.Quiet?
    && var a := m.at[l.p];
       && (l.Acquire? ==> a == Idle || a == Own)
       && (l.SleepLock? ==> a == Want && m.s.data.LockedBy? && l.chan == CHAN)
       && (l.Change? ==>
             || (a == Want && m.s.data.Unlocked? && l.data == LockedBy(l.p))
             || (a == Giving && l.data == Unlocked))
       && (l.WakeStart? ==> a == Gave && l.chan == CHAN)
       && (l.Release? ==> a == Got || a == Told)
  }

  function Next(m: Machine, l: Label<Owner>): Machine
    requires May(m, l)
  {
    var a := m.at[l.p];
    var b :=
      if l.Acquire? then (if a == Idle then Want else Giving)
      else if l.Change? then (if a == Want then Got else Gave)
      else if l.WakeDone? then Told
      else if l.Release? then (if a == Got then Own else Idle)
      else a;
    Machine(Step(m.s, l), m.at[l.p := b])
  }

  predicate Holding(a: Loc)
  {
    a == Got || a == Own || a == Giving
  }

  predicate LocOk(m: Machine, p: nat)
    requires p < |m.at| == |m.s.procs|
  {
    var ph := m.s.procs[p].phase;
    && (Holding(m.at[p]) <==> m.s.data == LockedBy(p))
    && match m.at[p]
       case Idle => ph.Out?
       case Own => ph.Out?
       case Want => !ph.Out? && !ph.Waking? && (ph.Inside? || ph.chan == CHAN) && (ph.Falling? ==> m.s.data.LockedBy?)
       case Got => ph.Inside?
       case Giving => ph.Inside?
       case Gave => ph.Inside? || (ph.Waking? && ph.chan == CHAN)
       case Told => ph.Inside? && CHAN in m.s.procs[p].woke
  }

  ghost predicate MachineInv(m: Machine)
  {
    && Inv(Wanted(), m.s) && |m.at| == |m.s.procs| && (m.s.data.LockedBy? ==> m.s.data.p < |m.at|)
    && forall p: nat | p < |m.at| :: LocOk(m, p)
  }

  predicate Start(m: Machine)
  {
    Init(m.s) && m.s.data == Unlocked && |m.at| == |m.s.procs| && forall p: nat | p < |m.at| :: m.at[p] == Idle
  }

  /** The code keeps to the discipline of sleep and wakeup. */
  lemma ObeysDiscipline(m: Machine, l: Label<Owner>)
    requires MachineInv(m) && May(m, l)
    ensures Guarded(Wanted(), m.s, l)
  {
    hide Inv;
    assert LocOk(m, l.p);
  }

  lemma MoverKeeps(m: Machine, l: Label<Owner>)
    requires MachineInv(m) && May(m, l)
    ensures |Next(m, l).at| == |Next(m, l).s.procs| == |m.at| && LocOk(Next(m, l), l.p)
  {
    hide Announced, PlockOk;
    assert LocOk(m, l.p) && ProcOk(m.s, l.p);
  }

  lemma OtherKeeps(m: Machine, l: Label<Owner>, p: nat)
    requires MachineInv(m) && May(m, l) && p < |m.at| && p != l.p
    ensures |Next(m, l).at| == |Next(m, l).s.procs| == |m.at| && LocOk(Next(m, l), p)
  {
    hide Announced, PlockOk, Step, Ready;
    OthersStay(m.s, l, p);
    DataStays(m.s, l);
    assert LocOk(m, p) && LocOk(m, l.p);
    assert ProcOk(m.s, p) && ProcOk(m.s, l.p);
  }

  lemma StepKeepsInv(m: Machine, l: Label<Owner>)
    requires MachineInv(m) && May(m, l)
    ensures MachineInv(Next(m, l))
  {
    hide Inv, Guarded, LocOk, Step, Ready;
    ObeysDiscipline(m, l);
    StepKeeps(Wanted(), m.s, l);
    DataStays(m.s, l);
    MoverKeeps(m, l);
    forall p: nat | p < |m.at| && p != l.p
      ensures LocOk(Next(m, l), p)
    {
      OtherKeeps(m, l, p);
    }
  }

  ghost predicate IsMachineRun(ms: seq<Machine>, ls: seq<Label<Owner>>)
  {
    && |ms| == |ls| + 1 && Start(ms[0])
    && forall i | 0 <= i < |ls| :: May(ms[i], ls[i]) && ms[i + 1] == Next(ms[i], ls[i])
  }

  lemma {:induction false} ReachableInv(ms: seq<Machine>, ls: seq<Label<Owner>>, i: nat)
    requires IsMachineRun(ms, ls) && i < |ms|
    ensures MachineInv(ms[i])
  {
    hide Inv, May, Next, Init;
    if i == 0 {
      InitInv(Wanted(), ms[0].s);
      StartLocs(ms[0]);
    } else {
      ReachableInv(ms, ls, i - 1);
      StepKeepsInv(ms[i - 1], ls[i - 1]);
    }
  }

  lemma StartLocs(m: Machine)
    requires Start(m)
    ensures forall p: nat | p < |m.at| :: LocOk(m, p)
  {
  }

  /** At most one process is between its acquiresleep and its releasesleep. */
  lemma MutualExclusion(ms: seq<Machine>, ls: seq<Label<Owner>>, i: nat, p: nat, q: nat)
    requires IsMachineRun(ms, ls) && i < |ms| && p < |ms[i].at| && q < |ms[i].at|
    requires Holding(ms[i].at[p]) && Holding(ms[i].at[q])
    ensures p == q
  {
    hide IsMachineRun, Inv;
    ReachableInv(ms, ls, i);
    assert LocOk(ms[i], p) && LocOk(ms[i], q);
  }

  /** Whenever the inner spinlock is free and a process sleeps in acquiresleep, some other process
      holds the sleep lock. */
  lemma SleeperHasOwner(ms: seq<Machine>, ls: seq<Label<Owner>>, i: nat, p: nat) returns (q: nat)
    requires IsMachineRun(ms, ls) && i < |ms| && ms[i].s.lk == Nobody
    requires p < |ms[i].s.procs| && ms[i].s.procs[p].state == SLEEPING
    ensures q < |ms[i].at| && q != p && Holding(ms[i].at[q])
  {
    hide IsMachineRun;
    ReachableInv(ms, ls, i);
    assert ProcOk(ms[i].s, p);
    assert LocOk(ms[i], p);
    assert Dozing(ms[i].s.procs[p], CHAN);
    assert !Wanted()(p, CHAN, ms[i].s.data);
    q := ms[i].s.data.p;
    assert LocOk(ms[i], q);
  }
}
