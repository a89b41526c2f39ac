/** kernel/proc.c sleep, wakeup, kill and the scheduler's part in them, one lock operation or one
    field update per step, for one spinlock `lk` over some shared data. What the processes do inside
    their critical sections is left open; `Disciplined` is all that is asked of them. */
module SleepWakeup {
  datatype Holder = Nobody | By(p: nat) | Scheduler

  datatype RunState = RUNNING | RUNNABLE | SLEEPING

  /** Where a process is with respect to lk. `chan` is sleep's and wakeup's argument. */
  datatype Phase =
    | Out                                          // outside, without lk
    | Inside                                       // holds lk
    | Waking(chan: nat, next: nat, locked: bool)   // holds lk, in wakeup's loop, perhaps with next's p->lock
    | Falling(chan: nat)                           // in sleep, holds lk and its own p->lock
    | Dropped(chan: nat)                           // released lk, still RUNNING, holds its own p->lock
    | Parked(chan: nat)                            // in sched; p->state says SLEEPING or RUNNABLE
    | Resuming(chan: nat)                          // switched to again, holds its own p->lock
    | Regaining(chan: nat)                         // about to reacquire lk

  /** `woke`: the channels it has called wakeup on since it last took lk. */
  datatype Proc = Proc(phase: Phase, state: RunState, chan: nat, woke: set<nat>)

  /** `entry`: the data when lk was last taken. */
  datatype State<D> = State(data: D, entry: D, lk: Holder, procs: seq<Proc>, plocks: seq<Holder>)

  datatype Label<D> =
    | Acquire(p: nat) | Release(p: nat) | Change(p: nat, data: D) | Quiet(data: D)
    | WakeStart(p: nat, chan: nat) | WakeSkip(p: nat) | WakeLock(p: nat) | WakeTest(p: nat) | WakeDone(p: nat)
    | SleepLock(p: nat, chan: nat) | SleepDrop(p: nat) | SleepMark(p: nat)
    | SchedRelease(p: nat) | Pick(p: nat) | Tidy(p: nat) | Regain(p: nat) | Kill(p: nat)

  /** cond(j, c, d): what process j waits for on channel c holds of data d. */
  type Cond<!D> = (nat, nat, D) -> bool

  /** What is asked of a process that gives up lk: any condition that came to hold in its critical
      section was announced by a wakeup in that section, no matter whether before or after. */
  ghost predicate Disciplined<D>(cond: Cond<D>, s: State<D>, p: nat)
    requires p < |s.procs|
  {
    forall j: nat, c: nat ::
      j != p && cond(j, c, s.data) ==> c in s.procs[p].woke || cond(j, c, s.entry)
  }

  predicate Ready<D>(s: State<D>, l: Label<D>)
  {
    && |s.plocks| == |s.procs| && (!l.Quiet? ==> l.p < |s.procs|)
    && (!l.Quiet? ==> Phased(s, l))
  }

  predicate Phased<D>(s: State<D>, l: Label<D>)
    requires !l.Quiet? && l.p < |s.procs| == |s.plocks|
  {
    var q := s.procs[l.p];
    match l
    case Acquire(p) => q.phase.Out? && s.lk == Nobody
    case Release(p) => q.phase.Inside?
    case Change(p, _) => q.phase.Inside?
    case Quiet(_) => true
    case WakeStart(p, c) => q.phase.Inside?
    case WakeSkip(p) => q.phase.Waking? && !q.phase.locked && q.phase.next == p
    case WakeLock(p) =>
      && q.phase.Waking? && !q.phase.locked && q.phase.next != p && q.phase.next < |s.procs|
      && s.plocks[q.phase.next] == Nobody
    case WakeTest(p) => q.phase.Waking? && q.phase.locked && q.phase.next < |s.procs|
    case WakeDone(p) => q.phase.Waking? && !q.phase.locked && q.phase.next == |s.procs|
    case SleepLock(p, c) => q.phase.Inside? && s.plocks[p] == Nobody
    case SleepDrop(p) => q.phase.Falling?
    case SleepMark(p) => q.phase.Dropped?
    case SchedRelease(p) => s.plocks[p] == Scheduler
    case Pick(p) => q.phase.Parked? && q.state == RUNNABLE && s.plocks[p] == Nobody
    case Tidy(p) => q.phase.Resuming?
    case Regain(p) => q.phase.Regaining? && s.lk == Nobody
    case Kill(p) => s.plocks[p] == Nobody
  }

  /** The waiter tested its condition under lk, the changer announced what it changed. */
  ghost predicate Guarded<D(!new)>(cond: Cond<D>, s: State<D>, l: Label<D>)
    requires Ready(s, l)
  {
    && (l.Release? ==> Disciplined(cond, s, l.p))
    && (l.SleepDrop? ==> Disciplined(cond, s, l.p) && !cond(l.p, s.procs[l.p].phase.chan, s.data))
    && (l.Quiet? ==> forall j: nat, c: nat :: cond(j, c, l.data) == cond(j, c, s.data))
  }

  function Moved<D>(s: State<D>, p: nat, q: Proc): State<D>
    requires p < |s.procs|
  {
    s.(procs := s.procs[p := q])
  }

  function Locked<D>(s: State<D>, p: nat, h: Holder): State<D>
    requires p < |s.plocks|
  {
    s.(plocks := s.plocks[p := h])
  }

  function Woken(q: Proc, c: nat): Proc
  {
    if q.state == SLEEPING && q.chan == c then q.(state := RUNNABLE) else q
  }

  function Step<D>(s: State<D>, l: Label<D>): State<D>
    requires Ready(s, l)
  {
    if l.Quiet? then s.(data := l.data) else
    var q := s.procs[l.p];
    match l
    case Acquire(p) => Moved(s, p, q.(phase := Inside, woke := {})).(lk := By(p), entry := s.data)
    case Release(p) => Moved(s, p, q.(phase := Out)).(lk := Nobody)
    case Change(p, d) => s.(data := d)
    case Quiet(d) => s.(data := d)
    case WakeStart(p, c) => Moved(s, p, q.(phase := Waking(c, 0, false)))
    case WakeSkip(p) => Moved(s, p, q.(phase := Waking(q.phase.chan, p + 1, false)))
    case WakeLock(p) => Locked(Moved(s, p, q.(phase := q.phase.(locked := true))), q.phase.next, By(p))
    case WakeTest(p) =>
      var i := q.phase.next;
      var s1 := Moved(s, i, Woken(s.procs[i], q.phase.chan));
      Locked(Moved(s1, p, s1.procs[p].(phase := Waking(q.phase.chan, i + 1, false))), i, Nobody)
    case WakeDone(p) => Moved(s, p, q.(phase := Inside, woke := q.woke + {q.phase.chan}))
    case SleepLock(p, c) => Locked(Moved(s, p, q.(phase := Falling(c))), p, By(p))
    case SleepDrop(p) => Moved(s, p, q.(phase := Dropped(q.phase.chan))).(lk := Nobody)
    case SleepMark(p) =>
      Locked(Moved(s, p, q.(phase := Parked(q.phase.chan), state := SLEEPING, chan := q.phase.chan)), p, Scheduler)
    case SchedRelease(p) => Locked(s, p, Nobody)
    case Pick(p) => Locked(Moved(s, p, q.(phase := Resuming(q.phase.chan), state := RUNNING)), p, By(p))
    case Tidy(p) => Locked(Moved(s, p, q.(phase := Regaining(q.phase.chan), chan := 0)), p, Nobody)
    case Regain(p) => Moved(s, p, q.(phase := Inside, woke := {})).(lk := By(p), entry := s.data)
    case Kill(p) => if q.state == SLEEPING then Moved(s, p, q.(state := RUNNABLE)) else s
  }

  /** Process j is asleep on channel c, or will be before anyone can look at it. */
  predicate Dozing(q: Proc, c: nat)
  {
    || (q.phase.Dropped? && q.phase.chan == c)
    || (q.phase.Parked? && q.phase.chan == c && q.state == SLEEPING)
  }

  predicate HoldsLk(q: Proc)
  {
    q.phase.Inside? || q.phase.Waking? || q.phase.Falling?
  }

  /** Who holds process i's p->lock. */
  predicate PlockOk<D>(s: State<D>, i: nat)
    requires i < |s.procs| == |s.plocks|
  {
    var q := s.procs[i];
    && (q.phase.Falling? || q.phase.Dropped? || q.phase.Resuming? ==> s.plocks[i] == By(i))
    && (s.plocks[i] == Scheduler ==> q.phase.Parked?)
    && (s.plocks[i].By? && s.plocks[i].p == i ==> q.phase.Falling? || q.phase.Dropped? || q.phase.Resuming?)
    && (s.plocks[i].By? && s.plocks[i].p != i ==>
          && s.plocks[i].p < |s.procs|
          && var w := s.procs[s.plocks[i].p].phase; w.Waking? && w.locked && w.next == i)
  }

  predicate ProcOk<D>(s: State<D>, p: nat)
    requires p < |s.procs| == |s.plocks|
  {
    var q := s.procs[p];
    && (HoldsLk(q) <==> s.lk == By(p))
    && (q.phase.Parked? <==> q.state != RUNNING)
    && (q.phase.Parked? ==> q.chan == q.phase.chan)
    && (q.phase.Waking? ==> q.phase.next <= |s.procs|)
    && (q.phase.Waking? && q.phase.locked ==>
          q.phase.next < |s.procs| && q.phase.next != p && s.plocks[q.phase.next] == By(p))
  }

  /** Channels whose sleepers below index n have all been seen to by the holder of lk. */
  predicate Swept(q: Proc, c: nat, i: nat)
  {
    c in q.woke || (q.phase.Waking? && q.phase.chan == c && i < q.phase.next)
  }

  /** Process j dozes on c: with lk free its condition does not hold; with lk held it did not hold
      when lk was taken, and the holder's wakeup has not passed it. */
  predicate SleeperOk<D>(cond: Cond<D>, s: State<D>, j: nat, c: nat)
  {
    && (s.lk == Nobody ==> !cond(j, c, s.data))
    && (s.lk.By? && s.lk.p < |s.procs| ==> !cond(j, c, s.entry) && !Swept(s.procs[s.lk.p], c, j))
  }

  ghost predicate Announced<D(!new)>(cond: Cond<D>, s: State<D>)
    requires |s.procs| == |s.plocks|
  {
    forall j: nat, c: nat | j < |s.procs| && Dozing(s.procs[j], c) :: SleeperOk(cond, s, j, c)
  }

  ghost predicate Inv<D(!new)>(cond: Cond<D>, s: State<D>)
  {
    && |s.procs| == |s.plocks|
    && (s.lk != Scheduler && (s.lk.By? ==> s.lk.p < |s.procs|))
    && (forall p: nat | p < |s.procs| :: ProcOk(s, p) && PlockOk(s, p))
    && Announced(cond, s)
  }

  predicate Init<D>(s: State<D>)
  {
    && |s.procs| == |s.plocks| && s.lk == Nobody
    && (forall p: nat | p < |s.procs| :: s.procs[p].phase.Out? && s.procs[p].state == RUNNING && s.plocks[p] == Nobody)
  }

  /** Steps that take or give up lk, and other steps that touch no p->lock. */
  predicate LkStep<D>(l: Label<D>)
  {
    l.Acquire? || l.Release? || l.SleepDrop? || l.Regain?
  }

  predicate PlainStep<D>(l: Label<D>)
  {
    l.Change? || l.Quiet? || l.WakeStart? || l.WakeSkip? || l.WakeDone? || l.Kill?
  }

  predicate OwnStep<D>(l: Label<D>)
  {
    l.SleepLock? || l.SleepMark? || l.SchedRelease? || l.Pick? || l.Tidy?
  }

  lemma LkStepKeeps<D(!new)>(cond: Cond<D>, s: State<D>, l: Label<D>, p: nat)
    requires Inv(cond, s) && Ready(s, l) && p < |s.procs| && LkStep(l)
    ensures |Step(s, l).procs| == |Step(s, l).plocks| == |s.procs| && ProcOk(Step(s, l), p) && PlockOk(Step(s, l), p)
  {
    hide Announced;
    assert ProcOk(s, p) && PlockOk(s, p);
    assert ProcOk(s, l.p) && PlockOk(s, l.p);
  }

  lemma PlainStepKeeps<D(!new)>(cond: Cond<D>, s: State<D>, l: Label<D>, p: nat)
    requires Inv(cond, s) && Ready(s, l) && p < |s.procs| && PlainStep(l)
    ensures |Step(s, l).procs| == |Step(s, l).plocks| == |s.procs| && ProcOk(Step(s, l), p) && PlockOk(Step(s, l), p)
  {
    hide Announced;
    assert ProcOk(s, p) && PlockOk(s, p);
    if !l.Quiet? {
      assert ProcOk(s, l.p) && PlockOk(s, l.p);
    }
  }

  lemma TakeStepKeeps<D(!new)>(cond: Cond<D>, s: State<D>, l: Label<D>, p: nat)
    requires Inv(cond, s) && Ready(s, l) && p < |s.procs| && (l.SleepLock? || l.Pick?)
    ensures |Step(s, l).procs| == |Step(s, l).plocks| == |s.procs| && ProcOk(Step(s, l), p) && PlockOk(Step(s, l), p)
  {
    hide Announced;
    assert ProcOk(s, p) && PlockOk(s, p);
    assert ProcOk(s, l.p) && PlockOk(s, l.p);
  }

  lemma GiveStepKeeps<D(!new)>(cond: Cond<D>, s: State<D>, l: Label<D>, p: nat)
    requires Inv(cond, s) && Ready(s, l) && p < |s.procs| && (l.SleepMark? || l.SchedRelease? || l.Tidy?)
    ensures |Step(s, l).procs| == |Step(s, l).plocks| == |s.procs| && ProcOk(Step(s, l), p) && PlockOk(Step(s, l), p)
  {
    hide Announced;
    assert ProcOk(s, p) && PlockOk(s, p);
    assert ProcOk(s, l.p) && PlockOk(s, l.p);
  }

  lemma WakeStepKeeps<D(!new)>(cond: Cond<D>, s: State<D>, l: Label<D>, p: nat)
    requires Inv(cond, s) && Ready(s, l) && p < |s.procs| && (l.WakeLock? || l.WakeTest?)
    ensures |Step(s, l).procs| == |Step(s, l).plocks| == |s.procs| && ProcOk(Step(s, l), p) && PlockOk(Step(s, l), p)
  {
    hide Announced;
    assert ProcOk(s, p) && PlockOk(s, p);
    assert ProcOk(s, l.p) && PlockOk(s, l.p);
    var i := s.procs[l.p].phase.next;
    assert ProcOk(s, i) && PlockOk(s, i);
  }

  /** One sleeper, while lk changes hands. */
  lemma LkStepAnnounced<D(!new)>(cond: Cond<D>, s: State<D>, l: Label<D>, j: nat, c: nat)
    requires Inv(cond, s) && Ready(s, l) && Guarded(cond, s, l) && LkStep(l)
    requires j < |s.procs| == |Step(s, l).procs| && Dozing(Step(s, l).procs[j], c)
    ensures SleeperOk(cond, Step(s, l), j, c)
  {
    hide PlockOk;
    assert Dozing(s.procs[j], c) ==> SleeperOk(cond, s, j, c);
    assert ProcOk(s, l.p);
  }

  lemma PlainStepAnnounced<D(!new)>(cond: Cond<D>, s: State<D>, l: Label<D>, j: nat, c: nat)
    requires Inv(cond, s) && Ready(s, l) && Guarded(cond, s, l) && PlainStep(l)
    requires j < |s.procs| == |Step(s, l).procs| && Dozing(Step(s, l).procs[j], c)
    ensures SleeperOk(cond, Step(s, l), j, c)
  {
    hide Disciplined, PlockOk;
    assert Dozing(s.procs[j], c) ==> SleeperOk(cond, s, j, c);
    assert ProcOk(s, j);
    if !l.Quiet? {
      assert ProcOk(s, l.p);
    }
  }

  lemma OwnStepAnnounced<D(!new)>(cond: Cond<D>, s: State<D>, l: Label<D>, j: nat, c: nat)
    requires Inv(cond, s) && Ready(s, l) && Guarded(cond, s, l) && OwnStep(l)
    requires j < |s.procs| == |Step(s, l).procs| && Dozing(Step(s, l).procs[j], c)
    ensures SleeperOk(cond, Step(s, l), j, c)
  {
    hide Disciplined;
    assert Dozing(s.procs[j], c) ==> SleeperOk(cond, s, j, c);
    assert ProcOk(s, j) && PlockOk(s, j);
    assert ProcOk(s, l.p);
  }

  lemma WakeStepAnnounced<D(!new)>(cond: Cond<D>, s: State<D>, l: Label<D>, j: nat, c: nat)
    requires Inv(cond, s) && Ready(s, l) && Guarded(cond, s, l) && (l.WakeLock? || l.WakeTest?)
    requires j < |s.procs| == |Step(s, l).procs| && Dozing(Step(s, l).procs[j], c)
    ensures SleeperOk(cond, Step(s, l), j, c)
  {
    hide Disciplined;
    assert Dozing(s.procs[j], c) ==> SleeperOk(cond, s, j, c);
    assert ProcOk(s, j) && PlockOk(s, j);
    assert ProcOk(s, l.p);
  }

  lemma AnnouncedKept<D(!new)>(cond: Cond<D>, s: State<D>, l: Label<D>)
    requires Inv(cond, s) && Ready(s, l) && Guarded(cond, s, l)
    ensures |Step(s, l).procs| == |Step(s, l).plocks| && Announced(cond, Step(s, l))
  {
    hide Inv, Ready, Guarded, Dozing, SleeperOk, ProcOk, PlockOk, Step;
    SameCount(cond, s, l);
    var t := Step(s, l);
    forall j: nat, c: nat | j < |t.procs| && Dozing(t.procs[j], c)
      ensures SleeperOk(cond, t, j, c)
    {
      if LkStep(l) {
        LkStepAnnounced(cond, s, l, j, c);
      } else if PlainStep(l) {
        PlainStepAnnounced(cond, s, l, j, c);
      } else if OwnStep(l) {
        OwnStepAnnounced(cond, s, l, j, c);
      } else {
        WakeStepAnnounced(cond, s, l, j, c);
      }
    }
  }

  lemma SameCount<D(!new)>(cond: Cond<D>, s: State<D>, l: Label<D>)
    requires Inv(cond, s) && Ready(s, l)
    ensures |Step(s, l).procs| == |Step(s, l).plocks| == |s.procs|
  {
  }

  lemma StepKeeps<D(!new)>(cond: Cond<D>, s: State<D>, l: Label<D>)
    requires Inv(cond, s) && Ready(s, l) && Guarded(cond, s, l)
    ensures Inv(cond, Step(s, l))
  {
    hide Announced, Guarded, ProcOk, PlockOk;
    AnnouncedKept(cond, s, l);
    forall p: nat | p < |s.procs|
      ensures ProcOk(Step(s, l), p) && PlockOk(Step(s, l), p)
    {
      if LkStep(l) {
        LkStepKeeps(cond, s, l, p);
      } else if PlainStep(l) {
        PlainStepKeeps(cond, s, l, p);
      } else if l.WakeLock? || l.WakeTest? {
        WakeStepKeeps(cond, s, l, p);
      } else if l.SleepLock? || l.Pick? {
        TakeStepKeeps(cond, s, l, p);
      } else {
        GiveStepKeeps(cond, s, l, p);
      }
    }
  }

  /** A step moves no other process. */
  lemma OthersStay<D(!new)>(s: State<D>, l: Label<D>, p: nat)
    requires Ready(s, l) && !l.Quiet? && p < |s.procs| && p != l.p
    ensures var t := Step(s, l);
            |t.procs| == |s.procs| && t.procs[p].phase == s.procs[p].phase && t.procs[p].woke == s.procs[p].woke
  {
  }

  /** Only the holder of lk, and only by Change, changes the data. */
  lemma DataStays<D(!new)>(s: State<D>, l: Label<D>)
    requires Ready(s, l) && !l.Quiet?
    ensures l.p < |s.procs| == |Step(s, l).procs|
    ensures Step(s, l).data == if l.Change? then l.data else s.data
    ensures l.Change? ==> s.procs[l.p].phase.Inside? && Step(s, l).procs == s.procs
    ensures s.lk != Nobody ==> Step(s, l).entry == s.entry
  {
  }

  lemma QuietStays<D(!new)>(s: State<D>, l: Label<D>)
    requires Ready(s, l) && l.Quiet?
    ensures Step(s, l) == s.(data := l.data)
  {
  }

  /** The mover's way through its phases. */
  predicate PhaseMove<D>(a: Phase, b: Phase, l: Label<D>)
  {
    if l.Acquire? then a.Out? && b.Inside?
    else if l.Release? then a.Inside? && b.Out?
    else if l.WakeStart? then a.Inside? && b.Waking? && b.chan == l.chan
    else if l.WakeSkip? || l.WakeLock? || l.WakeTest? then a.Waking? && b.Waking? && b.chan == a.chan
    else if l.WakeDone? then a.Waking? && b.Inside?
    else if l.SleepLock? then a.Inside? && b == Falling(l.chan)
    else if l.SleepDrop? then a.Falling? && b == Dropped(a.chan)
    else if l.SleepMark? then a.Dropped? && b == Parked(a.chan)
    else if l.Pick? then a.Parked? && b == Resuming(a.chan)
    else if l.Tidy? then a.Resuming? && b == Regaining(a.chan)
    else if l.Regain? then a.Regaining? && b.Inside?
    else a == b && (l.Change? ==> a.Inside?)
  }

  lemma MoverPhase<D(!new)>(s: State<D>, l: Label<D>)
    requires Ready(s, l) && !l.Quiet?
    ensures |Step(s, l).procs| == |s.procs| && PhaseMove(s.procs[l.p].phase, Step(s, l).procs[l.p].phase, l)
  {
  }

  /** What the mover has announced in its critical section, and what it started from. */
  lemma MoverWoke<D(!new)>(s: State<D>, l: Label<D>)
    requires Ready(s, l) && !l.Quiet?
    ensures var t := Step(s, l);
            && |t.procs| == |s.procs|
            && (l.Acquire? || l.Regain? ==> t.procs[l.p].woke == {} && t.entry == t.data)
            && (!l.Acquire? && !l.Regain? ==>
                  && t.entry == s.entry && s.procs[l.p].woke <= t.procs[l.p].woke
                  && (HoldsLk(t.procs[l.p]) ==> HoldsLk(s.procs[l.p])))
            && (l.WakeDone? ==> s.procs[l.p].phase.Waking? && s.procs[l.p].phase.chan in t.procs[l.p].woke)
  {
  }

  /** ls leads from ss[0] through ss, one step each. */
  ghost predicate IsRun<D(!new)>(cond: Cond<D>, ss: seq<State<D>>, ls: seq<Label<D>>)
  {
    && |ss| == |ls| + 1 && Init(ss[0])
    && forall i | 0 <= i < |ls| :: Ready(ss[i], ls[i]) && Guarded(cond, ss[i], ls[i]) && ss[i + 1] == Step(ss[i], ls[i])
  }

  lemma InitInv<D(!new)>(cond: Cond<D>, s: State<D>)
    requires Init(s)
    ensures Inv(cond, s)
  {
  }

  lemma {:induction false} RunInv<D(!new)>(cond: Cond<D>, ss: seq<State<D>>, ls: seq<Label<D>>, i: nat)
    requires IsRun(cond, ss, ls) && i < |ss|
    ensures Inv(cond, ss[i])
  {
    hide Inv, Ready, Guarded, Step, Init;
    if i == 0 {
      InitInv(cond, ss[0]);
    } else {
      RunInv(cond, ss, ls, i - 1);
      StepKeeps(cond, ss[i - 1], ls[i - 1]);
    }
  }

  /** No wakeup is lost: whenever lk is free, nobody sleeps whose condition holds. */
  lemma NoLostWakeup<D(!new)>(cond: Cond<D>, ss: seq<State<D>>, ls: seq<Label<D>>, i: nat, j: nat)
    requires IsRun(cond, ss, ls) && i < |ss| && ss[i].lk == Nobody
    requires j < |ss[i].procs| && ss[i].procs[j].state == SLEEPING
    ensures !cond(j, ss[i].procs[j].chan, ss[i].data)
  {
    hide IsRun, Ready, Guarded, Step, Init;
    RunInv(cond, ss, ls, i);
    assert ProcOk(ss[i], j);
    assert Dozing(ss[i].procs[j], ss[i].procs[j].chan);
  }
}
