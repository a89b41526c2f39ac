/** kernel/proc.c scheduler, sched, yield, sleep, exit, wakeup, allocproc and freeproc, and
    kernel/spinlock.c, for any number of CPUs: one lock operation, store or context switch per step.
    Everything else that kernel code does is free, within what the spinlock calls themselves check. */
module Scheduling {
  datatype RunState = UNUSED | USED | SLEEPING | RUNNABLE | RUNNING | ZOMBIE

  /** Process table entry. `begun`: its context was saved by sched, and not set by allocproc. `saved`:
      sched's local copy of intena. `was`: interrupts were on before its outermost push_off. */
  datatype Entry = Entry(state: RunState, begun: bool, saved: bool, was: bool)

  /** What a CPU is executing: a place in scheduler, a device interrupt that came there, or some process's
      kernel thread. A thread is
      `leaving` from the store to its own p->state until swtch, `restoring` from swtch's return until
      sched has put intena back. */
  datatype Thread =
    | Loop                  // between processes
    | Handler               // in an interrupt handler, without a process
    | Has(p: nat)           // acquired p->lock
    | Picked(p: nat)        // set p->state to RUNNING
    | Chose(p: nat)         // set c->proc to p
    | Back(p: nat)          // p switched back
    | Cleared(p: nat)       // set c->proc to 0
    | Process(p: nat, leaving: bool, restoring: bool)

  /** `proc`: c->proc, -1 for none. `pushes`: push_offs without a matching pop_off, not counting the
      ones inside acquires whose lock is still held. */
  datatype Cpu = Cpu(proc: int, noff: int, intena: bool, intr: bool, pushes: nat, thread: Thread)

  /** locks[i] is the CPU that holds lock i, -1 for none; lock p is process p's p->lock. `home`: the
      CPU that took process p on and has not given it up, -1 for none. */
  datatype State = State(cpus: seq<Cpu>, entries: seq<Entry>, locks: seq<int>, home: seq<int>)

  datatype Label =
    | PushOff(c: nat) | Take(c: nat, i: nat) | Drop(c: nat, i: nat) | PopOff(c: nat)
    | IntrOn(c: nat) | IntrOff(c: nat) | Interrupt(c: nat) | Return(c: nat)
    | Alloc(c: nat, q: nat) | Undo(c: nat, q: nat) | Start(c: nat, q: nat) | Wake(c: nat, q: nat) | Reap(c: nat, q: nat)
    | Leave(c: nat, to: RunState)
    | Pick(c: nat) | SetProc(c: nat) | SwitchIn(c: nat) | Restore(c: nat) | SwitchOut(c: nat) | ClearProc(c: nat)

  predicate Shaped(s: State)
  {
    |s.entries| == |s.home| <= |s.locks|
  }

  /** A process thread that is not in the middle of a switch holds entry q's lock. */
  predicate Acts(s: State, c: nat, q: nat)
    requires Shaped(s) && c < |s.cpus|
  {
    && s.cpus[c].thread.Process? && !s.cpus[c].thread.leaving && !s.cpus[c].thread.restoring
    && q < |s.entries| && q != s.cpus[c].thread.p && s.locks[q] == c
  }

  /** sched's callers and sched itself do not release p->lock; scheduler releases what it acquired. */
  predicate MayDrop(s: State, t: Thread, i: nat)
  {
    if t.Process? then i != t.p || (!t.leaving && !t.restoring)
    else if t.Handler? then true
    else if t.Has? then i == t.p && i < |s.entries| && s.entries[i].state != RUNNABLE
    else t.Cleared? && i == t.p
  }

  predicate Enabled(s: State, l: Label)
  {
    && Shaped(s) && l.c < |s.cpus|
    && var k := s.cpus[l.c]; var t := k.thread;
       match l
       case PushOff(c) => !(t.Loop? && k.noff > 0)
       case Take(c, i) =>
         && i < |s.locks| && s.locks[i] == -1 && k.pushes > 0
         && (t.Process? || t.Handler? || (t.Loop? && i < |s.entries| && k.noff == 1))
       case Drop(c, i) =>
         i < |s.locks| && s.locks[i] == c && MayDrop(s, t, i)
       case PopOff(c) => k.pushes > 0 && !k.intr && k.noff >= 1
       case IntrOn(c) => if t.Loop? then k.pushes == 0 else k.noff == 0   // scheduler makes no test
       case IntrOff(c) => true
       case Interrupt(c) => t.Loop? && k.intr && k.noff == 0
       case Return(c) => t.Handler? && k.noff == 0
       case Alloc(c, q) => Acts(s, c, q) && s.entries[q].state == UNUSED
       case Undo(c, q) => Acts(s, c, q) && s.entries[q].state == USED
       case Start(c, q) => Acts(s, c, q) && s.entries[q].state == USED
       case Wake(c, q) =>
         && (Acts(s, c, q) || (t.Handler? && q < |s.entries| && s.locks[q] == c))
         && s.entries[q].state == SLEEPING
       case Reap(c, q) => Acts(s, c, q) && s.entries[q].state == ZOMBIE
       case Leave(c, to) =>
         && t.Process? && !t.leaving && !t.restoring && t.p < |s.entries| && s.locks[t.p] == c
         && (to == RUNNABLE || to == SLEEPING || to == ZOMBIE)
       case Pick(c) => t.Has? && t.p < |s.entries| && s.entries[t.p].state == RUNNABLE
       case SetProc(c) => t.Picked?
       case SwitchIn(c) => t.Chose? && t.p < |s.entries|
       case Restore(c) => t.Process? && t.restoring && t.p < |s.entries|
       case SwitchOut(c) =>   // sched's four panics
         && t.Process? && t.leaving && t.p < |s.entries|
         && s.locks[t.p] == c && k.noff == 1 && s.entries[t.p].state != RUNNING && !k.intr
       case ClearProc(c) => t.Back? && t.p < |s.entries|
  }

  function OnCpu(s: State, c: nat, k: Cpu): State
    requires c < |s.cpus|
  {
    s.(cpus := s.cpus[c := k])
  }

  function OnEntry(s: State, p: nat, e: Entry): State
    requires p < |s.entries|
  {
    s.(entries := s.entries[p := e])
  }

  function Step(s: State, l: Label): State
    requires Enabled(s, l)
  {
    var c := l.c;
    var k := s.cpus[c];
    var t := k.thread;
    match l
    case PushOff(_) =>
      var s1 := OnCpu(s, c, k.(intr := false, intena := if k.noff == 0 then k.intr else k.intena,
                               noff := k.noff + 1, pushes := k.pushes + 1));
      if k.noff == 0 && t.Process? && t.p < |s.entries|
      then OnEntry(s1, t.p, s.entries[t.p].(was := k.intr)) else s1
    case Take(_, i) =>
      OnCpu(s, c, k.(pushes := k.pushes - 1, thread := if t.Loop? then Has(i) else t)).(locks := s.locks[i := c])
    case Drop(_, i) =>
      OnCpu(s, c, k.(pushes := k.pushes + 1, thread := if t.Process? || t.Handler? then t else Loop))
      .(locks := s.locks[i := -1])
    case PopOff(_) =>
      OnCpu(s, c, k.(noff := k.noff - 1, pushes := k.pushes - 1, intr := k.noff == 1 && k.intena))
    case IntrOn(_) => OnCpu(s, c, k.(intr := true))
    case IntrOff(_) => OnCpu(s, c, k.(intr := false))
    case Interrupt(_) => OnCpu(s, c, k.(intr := false, thread := Handler))
    case Return(_) => OnCpu(s, c, k.(intr := true, thread := Loop))
    case Alloc(_, q) => OnEntry(s, q, s.entries[q].(state := USED, begun := false))
    case Undo(_, q) => OnEntry(s, q, s.entries[q].(state := UNUSED))
    case Start(_, q) => OnEntry(s, q, s.entries[q].(state := RUNNABLE))
    case Wake(_, q) => OnEntry(s, q, s.entries[q].(state := RUNNABLE))
    case Reap(_, q) => OnEntry(s, q, s.entries[q].(state := UNUSED))
    case Leave(_, to) =>
      OnEntry(OnCpu(s, c, k.(thread := t.(leaving := true))), t.p, s.entries[t.p].(state := to))
    case Pick(_) =>
      OnEntry(OnCpu(s, c, k.(thread := Picked(t.p))), t.p, s.entries[t.p].(state := RUNNING)).(home := s.home[t.p := c])
    case SetProc(_) => OnCpu(s, c, k.(proc := t.p, thread := Chose(t.p)))
    case SwitchIn(_) =>
      var s1 := OnCpu(s, c, k.(thread := Process(t.p, false, s.entries[t.p].begun)));
      if s.entries[t.p].begun then s1 else OnEntry(s1, t.p, s.entries[t.p].(was := k.intena))
    case Restore(_) => OnCpu(s, c, k.(intena := s.entries[t.p].saved, thread := t.(restoring := false)))
    case SwitchOut(_) =>
      OnEntry(OnCpu(s, c, k.(thread := Back(t.p))), t.p, s.entries[t.p].(saved := k.intena, begun := true))
    case ClearProc(_) => OnCpu(s, c, k.(proc := -1, thread := Cleared(t.p))).(home := s.home[t.p := -1])
  }

  /** The locks CPU c holds. */
  ghost function Held(s: State, c: int): set<nat>
  {
    set i: nat | i < |s.locks| && s.locks[i] == c
  }

  predicate NoffOk(s: State, c: nat)
    requires c < |s.cpus|
  {
    var k := s.cpus[c];
    k.intr ==> k.noff == 0
  }

  ghost predicate NoffCounts(s: State, c: nat)
    requires c < |s.cpus|
  {
    s.cpus[c].noff == |Held(s, c)| + s.cpus[c].pushes
  }

  /** What a CPU's place in the code says about the process it deals with. */
  predicate ThreadOk(s: State, c: nat)
    requires Shaped(s) && c < |s.cpus|
  {
    var k := s.cpus[c];
    match k.thread
    case Loop => k.proc == -1
    case Handler => k.proc == -1
    case Has(p) => k.proc == -1 && p < |s.entries| && s.locks[p] == c
    case Picked(p) =>
      k.proc == -1 && p < |s.entries| && s.locks[p] == c && s.home[p] == c && s.entries[p].state == RUNNING
    case Chose(p) =>
      k.proc == p && p < |s.entries| && s.locks[p] == c && s.home[p] == c && s.entries[p].state == RUNNING
    case Back(p) => k.proc == p && p < |s.entries| && s.locks[p] == c && s.home[p] == c && s.entries[p].state != RUNNING
    case Cleared(p) => k.proc == -1 && p < |s.entries| && s.locks[p] == c
    case Process(p, leaving, restoring) =>
      && k.proc == p && p < |s.entries| && s.home[p] == c
      && (if leaving then s.locks[p] == c && s.entries[p].state in {RUNNABLE, SLEEPING, ZOMBIE}
          else s.entries[p].state == RUNNING)
      && (restoring ==> s.locks[p] == c && !leaving)
  }

  /** scheduler holds no lock between processes, and only p->lock while it deals with p. */
  predicate Alone(s: State, c: nat)
    requires c < |s.cpus|
  {
    var t := s.cpus[c].thread;
    !t.Process? && !t.Handler? ==> forall i: nat | i < |s.locks| && s.locks[i] == c :: !t.Loop? && i == t.p
  }

  /** Interrupt state follows the thread, not the CPU. */
  predicate IntenaOk(s: State, c: nat)
    requires Shaped(s) && c < |s.cpus|
  {
    var k := s.cpus[c];
    k.thread.Process? && k.thread.p < |s.entries| ==>
      var e := s.entries[k.thread.p];
      if k.thread.restoring then e.begun && e.saved == e.was
      else k.noff > 0 ==> k.intena == e.was
  }

  predicate EntryOk(s: State, p: nat)
    requires Shaped(s) && p < |s.entries|
  {
    var e := s.entries[p];
    var h := s.home[p];
    && (h == -1 || (0 <= h < |s.cpus|
                    && var t := s.cpus[h].thread; !t.Loop? && !t.Handler? && !t.Has? && !t.Cleared? && t.p == p))
    && (e.state == RUNNING ==> h != -1)
    && (e.begun && (h == -1 || !s.cpus[h].thread.Process?) ==> e.saved == e.was)
  }

  ghost predicate Inv(s: State)
  {
    && Shaped(s)
    && (forall c: nat | c < |s.cpus| :: NoffOk(s, c) && NoffCounts(s, c) && Alone(s, c))
    && (forall c: nat | c < |s.cpus| :: ThreadOk(s, c) && IntenaOk(s, c))
    && (forall p: nat | p < |s.entries| :: EntryOk(s, p))
  }

  lemma HeldMoves(s: State, i: nat, h: int, c: int)
    requires i < |s.locks| && (s.locks[i] == -1 || h == -1) && c >= 0 && h != s.locks[i]
    ensures var t := s.(locks := s.locks[i := h]);
            |Held(t, c)| == |Held(s, c)| + (if h == c then 1 else 0) - (if s.locks[i] == c then 1 else 0)
  {
    var t := s.(locks := s.locks[i := h]);
    var rest := Held(s, c) - {i};
    assert Held(s, c) == if s.locks[i] == c then rest + {i} else rest;
    assert Held(t, c) == if h == c then rest + {i} else rest;
  }

  lemma HeldSame(s: State, t: State, c: int)
    requires s.locks == t.locks
    ensures Held(s, c) == Held(t, c)
  {
  }

  lemma LoopDepth(s: State, c: nat)
    requires Inv(s) && c < |s.cpus|
    ensures s.cpus[c].thread.Loop? ==> Held(s, c) == {} && s.cpus[c].noff == s.cpus[c].pushes
  {
    hide ThreadOk, IntenaOk, EntryOk;
    assert Alone(s, c) && NoffCounts(s, c);
    assert s.cpus[c].thread.Loop? ==> Held(s, c) == {};
  }

  /** A CPU with noff 0 holds no lock; with noff 1 and lock p, no other. */
  lemma DepthHolds(s: State, c: nat, i: nat, p: nat)
    requires c < |s.cpus| && NoffCounts(s, c) && i < |s.locks| && s.locks[i] == c
    ensures s.cpus[c].noff > 0
    ensures p < |s.locks| && s.locks[p] == c && s.cpus[c].noff == 1 ==> i == p
  {
    assert i in Held(s, c);
    if p < |s.locks| && s.locks[p] == c && i != p {
      assert {i, p} <= Held(s, c);
      assert |Held(s, c) - {i, p}| == |Held(s, c)| - 2;
    }
  }

  lemma AloneKept(s: State, l: Label, c: nat)
    requires Inv(s) && Enabled(s, l) && c < |s.cpus|
    ensures |Step(s, l).cpus| == |s.cpus| && Alone(Step(s, l), c)
  {
    hide NoffCounts, IntenaOk, EntryOk, NoffOk;
    assert Alone(s, c) && ThreadOk(s, c) && NoffCounts(s, c);
    var t := Step(s, l).cpus[c].thread;
    if c == l.c && (l.Return? || l.SwitchOut?) {
      forall i: nat | i < |s.locks| && s.locks[i] == c
        ensures !t.Loop? && i == t.p
      {
        DepthHolds(s, c, i, if l.SwitchOut? then t.p else i);
      }
    }
  }

  lemma CountsKept(s: State, l: Label, c: nat)
    requires Inv(s) && Enabled(s, l) && c < |s.cpus|
    ensures Shaped(Step(s, l)) && |Step(s, l).cpus| == |s.cpus| && NoffOk(Step(s, l), c) && NoffCounts(Step(s, l), c)
  {
    hide Held, ThreadOk, IntenaOk, EntryOk, Alone;
    assert NoffOk(s, c) && NoffCounts(s, c);
    if l.IntrOn? { LoopDepth(s, l.c); }
    if l.Take? {
      HeldMoves(s, l.i, l.c, c);
      HeldSame(Step(s, l), s.(locks := s.locks[l.i := l.c]), c);
    } else if l.Drop? {
      HeldMoves(s, l.i, -1, c);
      HeldSame(Step(s, l), s.(locks := s.locks[l.i := -1]), c);
    } else {
      HeldSame(s, Step(s, l), c);
    }
  }

  /** Steps that touch interrupts only, bring a process in, store to another process's state, or move a
      process on or off. */
  predicate LocalStep(l: Label)
  {
    l.PushOff? || l.PopOff? || l.IntrOn? || l.IntrOff? || l.Interrupt? || l.Return?
  }

  predicate LoadStep(l: Label)
  {
    l.SetProc? || l.SwitchIn? || l.Restore?
  }

  predicate StoreStep(l: Label)
  {
    l.Alloc? || l.Undo? || l.Start? || l.Wake? || l.Reap?
  }

  predicate SwitchStep(l: Label)
  {
    l.Leave? || l.Pick? || l.SwitchOut? || l.ClearProc?
  }

  lemma LocalKeepsThread(s: State, l: Label, c: nat)
    requires Inv(s) && Enabled(s, l) && c < |s.cpus| && LocalStep(l)
    ensures Shaped(Step(s, l)) && |Step(s, l).cpus| == |s.cpus| && ThreadOk(Step(s, l), c)
  {
    hide NoffOk, NoffCounts, IntenaOk, Alone;
    assert ThreadOk(s, c) && ThreadOk(s, l.c);
  }

  lemma LoadKeepsThread(s: State, l: Label, c: nat)
    requires Inv(s) && Enabled(s, l) && c < |s.cpus| && LoadStep(l)
    ensures Shaped(Step(s, l)) && |Step(s, l).cpus| == |s.cpus| && ThreadOk(Step(s, l), c)
  {
    hide NoffOk, NoffCounts, IntenaOk, Alone;
    assert ThreadOk(s, c) && ThreadOk(s, l.c);
  }

  lemma LockKeepsThread(s: State, l: Label, c: nat)
    requires Inv(s) && Enabled(s, l) && c < |s.cpus| && (l.Take? || l.Drop?)
    ensures Shaped(Step(s, l)) && |Step(s, l).cpus| == |s.cpus| && ThreadOk(Step(s, l), c)
  {
    hide NoffOk, NoffCounts, IntenaOk, Alone;
    assert ThreadOk(s, c) && ThreadOk(s, l.c);
  }

  lemma StoreKeepsThread(s: State, l: Label, c: nat)
    requires Inv(s) && Enabled(s, l) && c < |s.cpus| && StoreStep(l)
    ensures Shaped(Step(s, l)) && |Step(s, l).cpus| == |s.cpus| && ThreadOk(Step(s, l), c)
  {
    hide NoffOk, NoffCounts, IntenaOk, Alone;
    assert ThreadOk(s, c) && ThreadOk(s, l.c);
  }

  lemma SwitchKeepsThread(s: State, l: Label, c: nat)
    requires Inv(s) && Enabled(s, l) && c < |s.cpus| && SwitchStep(l)
    ensures Shaped(Step(s, l)) && |Step(s, l).cpus| == |s.cpus| && ThreadOk(Step(s, l), c)
  {
    hide NoffOk, NoffCounts, IntenaOk, Alone;
    assert ThreadOk(s, c) && ThreadOk(s, l.c);
  }

  lemma HoldingDeepens(s: State, c: nat, i: nat)
    requires c < |s.cpus| && NoffCounts(s, c) && i < |s.locks| && s.locks[i] == c
    ensures s.cpus[c].noff > 0
  {
    assert i in Held(s, c);
  }

  lemma LocalKeepsIntena(s: State, l: Label, c: nat)
    requires Inv(s) && Enabled(s, l) && c < |s.cpus| && LocalStep(l)
    ensures Shaped(Step(s, l)) && |Step(s, l).cpus| == |s.cpus| && IntenaOk(Step(s, l), c)
  {
    hide NoffCounts, Alone;
    assert ThreadOk(s, c) && ThreadOk(s, l.c) && IntenaOk(s, c) && IntenaOk(s, l.c);
    if s.cpus[l.c].thread.Process? && s.cpus[l.c].thread.restoring {
      HoldingDeepens(s, l.c, s.cpus[l.c].thread.p);
    }
  }

  lemma LoadKeepsIntena(s: State, l: Label, c: nat)
    requires Inv(s) && Enabled(s, l) && c < |s.cpus| && LoadStep(l)
    ensures Shaped(Step(s, l)) && |Step(s, l).cpus| == |s.cpus| && IntenaOk(Step(s, l), c)
  {
    hide NoffCounts, Alone;
    assert ThreadOk(s, c) && ThreadOk(s, l.c) && IntenaOk(s, c) && IntenaOk(s, l.c);
    assert s.cpus[l.c].thread.Chose? ==> EntryOk(s, s.cpus[l.c].thread.p);
  }

  lemma LockKeepsIntena(s: State, l: Label, c: nat)
    requires Inv(s) && Enabled(s, l) && c < |s.cpus| && (l.Take? || l.Drop?)
    ensures Shaped(Step(s, l)) && |Step(s, l).cpus| == |s.cpus| && IntenaOk(Step(s, l), c)
  {
    hide NoffCounts, Alone;
    assert ThreadOk(s, c) && ThreadOk(s, l.c) && IntenaOk(s, c) && IntenaOk(s, l.c);
  }

  lemma StoreKeepsIntena(s: State, l: Label, c: nat)
    requires Inv(s) && Enabled(s, l) && c < |s.cpus| && StoreStep(l)
    ensures Shaped(Step(s, l)) && |Step(s, l).cpus| == |s.cpus| && IntenaOk(Step(s, l), c)
  {
    hide NoffCounts, Alone;
    assert ThreadOk(s, c) && ThreadOk(s, l.c) && IntenaOk(s, c) && IntenaOk(s, l.c);
  }

  lemma SwitchKeepsIntena(s: State, l: Label, c: nat)
    requires Inv(s) && Enabled(s, l) && c < |s.cpus| && SwitchStep(l)
    ensures Shaped(Step(s, l)) && |Step(s, l).cpus| == |s.cpus| && IntenaOk(Step(s, l), c)
  {
    hide NoffCounts, Alone;
    assert ThreadOk(s, c) && ThreadOk(s, l.c) && IntenaOk(s, c) && IntenaOk(s, l.c);
  }

  lemma LocalKeepsEntry(s: State, l: Label, p: nat)
    requires Inv(s) && Enabled(s, l) && p < |s.entries| && LocalStep(l)
    ensures Shaped(Step(s, l)) && |Step(s, l).entries| == |s.entries| && EntryOk(Step(s, l), p)
  {
    hide NoffCounts, NoffOk, Alone;
    assert ThreadOk(s, l.c) && IntenaOk(s, l.c) && EntryOk(s, p);
  }

  lemma LoadKeepsEntry(s: State, l: Label, p: nat)
    requires Inv(s) && Enabled(s, l) && p < |s.entries| && LoadStep(l)
    ensures Shaped(Step(s, l)) && |Step(s, l).entries| == |s.entries| && EntryOk(Step(s, l), p)
  {
    hide NoffCounts, NoffOk, Alone;
    assert ThreadOk(s, l.c) && IntenaOk(s, l.c) && EntryOk(s, p);
  }

  lemma LockKeepsEntry(s: State, l: Label, p: nat)
    requires Inv(s) && Enabled(s, l) && p < |s.entries| && (l.Take? || l.Drop?)
    ensures Shaped(Step(s, l)) && |Step(s, l).entries| == |s.entries| && EntryOk(Step(s, l), p)
  {
    hide NoffCounts, NoffOk, Alone;
    assert ThreadOk(s, l.c) && IntenaOk(s, l.c) && EntryOk(s, p);
  }

  lemma StoreKeepsEntry(s: State, l: Label, p: nat)
    requires Inv(s) && Enabled(s, l) && p < |s.entries| && StoreStep(l)
    ensures Shaped(Step(s, l)) && |Step(s, l).entries| == |s.entries| && EntryOk(Step(s, l), p)
  {
    hide NoffCounts, NoffOk, Alone;
    assert ThreadOk(s, l.c) && IntenaOk(s, l.c) && EntryOk(s, p);
  }

  lemma SwitchKeepsEntry(s: State, l: Label, p: nat)
    requires Inv(s) && Enabled(s, l) && p < |s.entries| && SwitchStep(l)
    ensures Shaped(Step(s, l)) && |Step(s, l).entries| == |s.entries| && EntryOk(Step(s, l), p)
  {
    hide NoffCounts, NoffOk, Alone;
    assert ThreadOk(s, l.c) && IntenaOk(s, l.c) && EntryOk(s, p);
    assert s.home[p] != -1 ==> ThreadOk(s, s.home[p]);
  }

  lemma CpuKept(s: State, l: Label, c: nat)
    requires Inv(s) && Enabled(s, l) && c < |s.cpus|
    ensures Shaped(Step(s, l)) && |Step(s, l).cpus| == |s.cpus|
    ensures ThreadOk(Step(s, l), c) && IntenaOk(Step(s, l), c)
  {
    hide Inv, Enabled, Step, ThreadOk, IntenaOk;
    if LocalStep(l) {
      LocalKeepsThread(s, l, c);
      LocalKeepsIntena(s, l, c);
    } else if LoadStep(l) {
      LoadKeepsThread(s, l, c);
      LoadKeepsIntena(s, l, c);
    } else if l.Take? || l.Drop? {
      LockKeepsThread(s, l, c);
      LockKeepsIntena(s, l, c);
    } else if StoreStep(l) {
      StoreKeepsThread(s, l, c);
      StoreKeepsIntena(s, l, c);
    } else {
      SwitchKeepsThread(s, l, c);
      SwitchKeepsIntena(s, l, c);
    }
  }

  lemma EntryKept(s: State, l: Label, p: nat)
    requires Inv(s) && Enabled(s, l) && p < |s.entries|
    ensures Shaped(Step(s, l)) && |Step(s, l).entries| == |s.entries| && EntryOk(Step(s, l), p)
  {
    hide Inv, Enabled, Step, EntryOk;
    if LocalStep(l) {
      LocalKeepsEntry(s, l, p);
    } else if LoadStep(l) {
      LoadKeepsEntry(s, l, p);
    } else if l.Take? || l.Drop? {
      LockKeepsEntry(s, l, p);
    } else if StoreStep(l) {
      StoreKeepsEntry(s, l, p);
    } else {
      SwitchKeepsEntry(s, l, p);
    }
  }

  lemma StepKeeps(s: State, l: Label)
    requires Inv(s) && Enabled(s, l)
    ensures Inv(Step(s, l))
  {
    hide Enabled, Step, NoffOk, NoffCounts, Alone, ThreadOk, IntenaOk, EntryOk, Shaped;
    var t := Step(s, l);
    SameSizes(s, l);
    forall c: nat | c < |t.cpus|
      ensures NoffOk(t, c) && NoffCounts(t, c) && Alone(t, c) && ThreadOk(t, c) && IntenaOk(t, c)
    {
      CountsKept(s, l, c);
      AloneKept(s, l, c);
      CpuKept(s, l, c);
    }
    forall p: nat | p < |t.entries|
      ensures EntryOk(t, p)
    {
      EntryKept(s, l, p);
    }
  }

  lemma SameSizes(s: State, l: Label)
    requires Enabled(s, l)
    ensures Shaped(Step(s, l)) && |Step(s, l).cpus| == |s.cpus| && |Step(s, l).entries| == |s.entries|
  {
  }

  /** Before any CPU runs a process: no lock held, interrupts as they may be. */
  predicate Init(s: State)
  {
    && Shaped(s)
    && (forall c: nat | c < |s.cpus| ::
          var k := s.cpus[c]; k.thread == Loop && k.proc == -1 && k.noff == 0 && k.pushes == 0)
    && (forall p: nat | p < |s.entries| ::
          s.home[p] == -1 && !s.entries[p].begun && s.entries[p].state in {UNUSED, RUNNABLE})
    && (forall i: nat | i < |s.locks| :: s.locks[i] == -1)
  }

  lemma InitInv(s: State)
    requires Init(s)
    ensures Inv(s)
  {
    forall c: nat | c < |s.cpus|
      ensures NoffCounts(s, c)
    {
      assert Held(s, c) == {};
    }
  }

  ghost predicate IsRun(ss: seq<State>, ls: seq<Label>)
  {
    && |ss| == |ls| + 1 && Init(ss[0])
    && forall i | 0 <= i < |ls| :: Enabled(ss[i], ls[i]) && ss[i + 1] == Step(ss[i], ls[i])
  }

  lemma {:induction false} RunInv(ss: seq<State>, ls: seq<Label>, i: nat)
    requires IsRun(ss, ls) && i < |ss|
    ensures Inv(ss[i])
  {
    hide Inv, Enabled, Step, Init;
    if i == 0 {
      InitInv(ss[0]);
    } else {
      RunInv(ss, ls, i - 1);
      StepKeeps(ss[i - 1], ls[i - 1]);
    }
  }

  /** With p->lock free, p is RUNNING exactly when some CPU has it as its current process, and then
      only one CPU has. */
  lemma RunningIffCurrent(ss: seq<State>, ls: seq<Label>, i: nat, p: nat)
    requires IsRun(ss, ls) && i < |ss| && p < |ss[i].entries| && p < |ss[i].locks| && ss[i].locks[p] == -1
    ensures ss[i].entries[p].state == RUNNING <==> exists c: nat :: c < |ss[i].cpus| && ss[i].cpus[c].proc == p
    ensures forall c: nat, d: nat | c < |ss[i].cpus| && d < |ss[i].cpus| ::
              ss[i].cpus[c].proc == p && ss[i].cpus[d].proc == p ==> c == d
  {
    hide IsRun, NoffCounts, NoffOk, IntenaOk;
    RunInv(ss, ls, i);
    var s := ss[i];
    assert EntryOk(s, p);
    if s.entries[p].state == RUNNING {
      assert ThreadOk(s, s.home[p]);
      assert s.cpus[s.home[p]].proc == p;
    }
    forall c: nat | c < |s.cpus| && s.cpus[c].proc == p
      ensures s.home[p] == c && s.entries[p].state == RUNNING
    {
      assert ThreadOk(s, c);
    }
  }

  /** noff is the number of spinlocks held on the CPU plus the open push_offs, whichever threads took
      them; so sched's "noff == 1" means that p->lock is the only one. */
  lemma NoffIsDepth(ss: seq<State>, ls: seq<Label>, i: nat, c: nat)
    requires IsRun(ss, ls) && i < |ss| && c < |ss[i].cpus|
    ensures ss[i].cpus[c].noff == |Held(ss[i], c)| + ss[i].cpus[c].pushes
    ensures ss[i].cpus[c].intr ==> Held(ss[i], c) == {}
    ensures i < |ls| && ls[i].SwitchOut? && ls[i].c == c ==>
              Held(ss[i], c) == {ss[i].cpus[c].thread.p} && ss[i].cpus[c].pushes == 0
  {
    hide IsRun, ThreadOk, IntenaOk, EntryOk, Step;
    RunInv(ss, ls, i);
    assert NoffOk(ss[i], c) && NoffCounts(ss[i], c);
    if i < |ls| && ls[i].SwitchOut? && ls[i].c == c {
      EnabledAt(ss, ls, i);
      var p := ss[i].cpus[c].thread.p;
      assert p in Held(ss[i], c);
      assert |Held(ss[i], c) - {p}| == 0;
    }
  }

  /** Between processes scheduler holds no lock, so its own intr_on, which makes no test, never turns
      interrupts on inside a critical section. */
  lemma LoopHoldsNothing(ss: seq<State>, ls: seq<Label>, i: nat, c: nat)
    requires IsRun(ss, ls) && i < |ss| && c < |ss[i].cpus| && ss[i].cpus[c].thread.Loop?
    ensures Held(ss[i], c) == {} && ss[i].cpus[c].noff == ss[i].cpus[c].pushes
    ensures Enabled(ss[i], IntrOn(c)) <==> ss[i].cpus[c].noff == 0
  {
    hide IsRun, ThreadOk, IntenaOk, EntryOk, Step;
    RunInv(ss, ls, i);
    LoopDepth(ss[i], c);
  }

  lemma EnabledAt(ss: seq<State>, ls: seq<Label>, i: nat)
    requires IsRun(ss, ls) && i < |ls|
    ensures |ss| == |ls| + 1 && Enabled(ss[i], ls[i]) && ss[i + 1] == Step(ss[i], ls[i])
  {
    hide Enabled, Step, Init;
  }

  /** A process that exited is freed only when no CPU has it current any more and no CPU is still
      executing its kernel thread. */
  lemma FreedOffCpu(ss: seq<State>, ls: seq<Label>, i: nat, c: nat)
    requires IsRun(ss, ls) && i < |ls| && i < |ss| && ls[i].Reap? && c < |ss[i].cpus|
    ensures ss[i].cpus[c].proc != ls[i].q
    ensures ss[i].cpus[c].thread.Process? ==> ss[i].cpus[c].thread.p != ls[i].q
  {
    hide IsRun, NoffCounts, NoffOk, IntenaOk, Step;
    EnabledAt(ss, ls, i);
    RunInv(ss, ls, i);
    assert ThreadOk(ss[i], c);
  }

  /** Between two reapings of the same entry somebody exits in it: a zombie is reaped once. */
  lemma {:induction false} ReapedOnce(ss: seq<State>, ls: seq<Label>, i: nat, j: nat, q: nat) returns (k: nat)
    requires IsRun(ss, ls) && i < j < |ls| && j < |ss|
    requires ls[i].Reap? && ls[i].q == q && q < |ss[j].entries| && ss[j].entries[q].state == ZOMBIE
    ensures i < k < j && ls[k].Leave? && ls[k].to == ZOMBIE && ss[k].cpus[ls[k].c].thread.p == q
    decreases j
  {
    hide IsRun, Inv;
    EnabledAt(ss, ls, j - 1);
    if j - 1 > i && q < |ss[j - 1].entries| && ss[j - 1].entries[q].state == ZOMBIE {
      k := ReapedOnce(ss, ls, i, j - 1, q);
    } else {
      k := j - 1;
    }
  }

  /** The interrupt state of a process survives its moves between CPUs: whenever it runs inside a
      push_off, past sched's last line, the CPU will restore what it had before. */
  lemma IntenaFollowsThread(ss: seq<State>, ls: seq<Label>, i: nat, c: nat)
    requires IsRun(ss, ls) && i < |ss| && c < |ss[i].cpus|
    requires ss[i].cpus[c].thread.Process? && !ss[i].cpus[c].thread.restoring && ss[i].cpus[c].noff > 0
    ensures ss[i].cpus[c].thread.p < |ss[i].entries|
    ensures ss[i].cpus[c].intena == ss[i].entries[ss[i].cpus[c].thread.p].was
  {
    hide IsRun, NoffCounts, NoffOk, EntryOk;
    RunInv(ss, ls, i);
    assert ThreadOk(ss[i], c) && IntenaOk(ss[i], c);
  }
}
