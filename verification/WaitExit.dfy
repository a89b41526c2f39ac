/** kernel/proc.c fork's, exit's and wait's critical sections over wait_lock: who is whose parent,
    who is a zombie, and who sleeps in wait. */
module WaitExit {
  import opened SleepWakeup

  const INIT: nat := 0
  const NONE: int := -1

  datatype Life = Unused | Alive | Zombie

  /** p->parent and the part of p->state that wait looks at, for every table entry. */
  datatype Family = Family(parent: seq<int>, life: seq<Life>)

  predicate Child(d: Family, k: nat, p: nat)
  {
    k < |d.parent| && d.parent[k] == p
  }

  predicate ZombieChild(d: Family, k: nat, p: nat)
  {
    Child(d, k, p) && k < |d.life| && d.life[k] == Zombie
  }

  /** Wait has an answer for p: it has no child at all, or one that has exited. */
  ghost predicate Answer(d: Family, p: nat)
  {
    (forall k: nat :: !Child(d, k, p)) || (exists k: nat :: ZombieChild(d, k, p))
  }

  /** Process j sleeps in wait on its own address. */
  ghost function Waited(): Cond<Family>
  {
    (j: nat, c: nat, d: Family) => c == j && Answer(d, j)
  }

  /** How far a process is in fork, exit or wait. Exiting(i): reparent's loop is at entry i, with
      i past the end for the wakeup of the parent; Gave(i): entry i has been given to init. */
  datatype Loc =
    | Idle | Forking | Forked | Exiting(i: nat) | Gave(i: nat) | Told | Dying | Dead | Waiting | Done

  datatype Machine = Machine(s: State<Family>, at: seq<Loc>)

  /** Process k becomes p's child. */
  predicate Forks(d: Family, d': Family, p: nat, k: nat)
  {
    && k < |d.life| == |d.parent| && d.life[k] == Unused
    && d' == Family(d.parent[k := p as int], d.life[k := Alive])
  }

  predicate Reaps(d: Family, d': Family, p: nat, k: nat)
  {
    && k < |d.life| == |d.parent| && ZombieChild(d, k, p)
    && d' == Family(d.parent[k := NONE], d.life[k := Unused])
  }

  /** One turn of reparent's loop: entry i given to init, or not p's child. */
  predicate Reparents(d: Family, d': Family, p: nat, i: nat)
  {
    i < |d.parent| && d' == if d.parent[i] == p then d.(parent := d.parent[i := INIT as int]) else d
  }

  predicate Exits(d: Family, d': Family, p: nat)
  {
    p < |d.life| && d' == d.(life := d.life[p := Zombie])
  }

  /** The program order of fork (lines 317-319), exit (lines 368-381) and wait (lines 397-433). `k` is
      the table entry that fork or wait picked. */
  ghost predicate May(m: Machine, l: Label<Family>, k: nat, b: Loc)
  {
    && Ready(m.s, l) && |m.at| == |m.s.procs| && !l.Quiet?
    && var a := m.at[l.p]; var d := m.s.data;
       if l.Acquire? then a == Idle && (b == Forking || b == Waiting || (b == Exiting(0) && l.p != INIT))
       else if l.Change? then
         match a
         case Forking => b == Forked && Forks(d, l.data, l.p, k)
         case Exiting(i) => Reparents(d, l.data, l.p, i) && b == if Child(d, i, l.p) then Gave(i) else Exiting(i + 1)
         case Told => b == Dying && Exits(d, l.data, l.p)
         case Waiting => b == Done && Reaps(d, l.data, l.p, k)
         case _ => false
       else if l.WakeStart? then
         && b == a
         && ((a.Gave? && l.chan == INIT) || (a.Exiting? && a.i == |m.at|
                                              && l.p < |d.parent| && l.chan == d.parent[l.p]))
       else if l.WakeDone? then b == if a.Gave? then Exiting(a.i + 1) else Told
       else if l.SleepLock? then a == Waiting && b == a && l.chan == l.p && !Answer(d, l.p)
       else if l.Release? then
         || ((a == Forked || a == Done || a == Waiting) && b == Idle)   // from Waiting: no children, or killed
         || (a == Dying && b == Dead)
       else b == a
  }

  ghost function Next(m: Machine, l: Label<Family>, k: nat, b: Loc): Machine
    requires May(m, l, k, b)
  {
    var at := m.at[l.p := b];
    Machine(Step(m.s, l), if b == Forked && m.at[l.p] == Forking && k < |at| then at[k := Idle] else at)
  }

  /** A parent is alive; every live or dead process but init has one. */
  predicate FamilyOk(d: Family, n: nat)
  {
    && |d.parent| == |d.life| == n && INIT < n && d.life[INIT] == Alive && d.parent[INIT] == NONE
    && (forall k: nat | k < n :: d.parent[k] == NONE || (0 <= d.parent[k] < n && d.life[d.parent[k]] == Alive))
    && (forall k: nat | k < n && k != INIT :: d.life[k] == Unused <==> d.parent[k] == NONE)
  }

  /** What p has done in its critical section so far: it has announced, or is about to, every answer
      that it gave to somebody else's wait. */
  ghost predicate Tracked(m: Machine, p: nat)
    requires p < |m.at| == |m.s.procs|
  {
    forall j: nat | j != p && Answer(m.s.data, j) ::
      j in m.s.procs[p].woke || Answer(m.s.entry, j) || (j == INIT && m.at[p].Gave?)
  }

  ghost predicate Place(m: Machine, p: nat)
    requires p < |m.at| == |m.s.procs| == |m.s.data.life| == |m.s.data.parent|
  {
    var ph := m.s.procs[p].phase;
    var d := m.s.data;
    match m.at[p]
    case Idle => ph.Out?
    case Dead => ph.Out?
    case Forking => ph.Inside?
    case Forked => ph.Inside?
    case Done => ph.Inside?
    case Exiting(i) =>
      && p != INIT && i <= |m.at| && (forall k: nat | k < i :: d.parent[k] != p)
      && (ph.Inside? || (i == |m.at| && ph.Waking? && ph.chan == d.parent[p]))
    case Gave(i) =>
      && p != INIT && i < |m.at| && (forall k: nat | k <= i :: d.parent[k] != p)
      && (ph.Inside? || (ph.Waking? && ph.chan == INIT))
    case Told =>
      && p != INIT && ph.Inside? && d.parent[p] >= 0 && d.parent[p] in m.s.procs[p].woke
      && (forall k: nat | k < |m.at| :: d.parent[k] != p)
    case Dying => ph.Inside?
    case Waiting =>
      !ph.Out? && !ph.Waking? && (ph.Inside? || ph.chan == p) && (ph.Falling? ==> !Answer(d, p))
  }

  ghost predicate LocOk(m: Machine, p: nat)
    requires p < |m.at| == |m.s.procs| == |m.s.data.life| == |m.s.data.parent|
  {
    && (HoldsLk(m.s.procs[p]) ==> Tracked(m, p))
    && (m.at[p] == Dead || m.at[p] == Dying <==> m.s.data.life[p] != Alive)
    && Place(m, p)
  }

  ghost predicate MachineInv(m: Machine)
  {
    && Inv(Waited(), m.s) && |m.at| == |m.s.procs| && FamilyOk(m.s.data, |m.at|)
    && forall p: nat | p < |m.at| :: LocOk(m, p)
  }

  lemma ObeysDiscipline(m: Machine, l: Label<Family>, k: nat, b: Loc)
    requires MachineInv(m) && May(m, l, k, b)
    ensures Guarded(Waited(), m.s, l)
  {
    hide Inv, Answer;
    assert LocOk(m, l.p);
  }

  /** How the four kinds of data change touch other processes' answers. */
  lemma ForkAnswers(d: Family, d': Family, p: nat, k: nat, n: nat, j: nat)
    requires FamilyOk(d, n) && Forks(d, d', p, k) && j != p && Answer(d', j)
    ensures Answer(d, j)
  {
    if x: nat :| ZombieChild(d', x, j) {
      assert ZombieChild(d, x, j);
    } else if x: nat :| Child(d, x, j) {
      assert Child(d', x, j);
    }
  }

  lemma ReapAnswers(d: Family, d': Family, p: nat, k: nat, n: nat, j: nat)
    requires FamilyOk(d, n) && Reaps(d, d', p, k) && j != p && Answer(d', j)
    ensures Answer(d, j)
  {
    if x: nat :| ZombieChild(d', x, j) {
      assert ZombieChild(d, x, j);
    } else if x: nat :| Child(d, x, j) {
      assert Child(d', x, j);
    }
  }

  lemma ReparentAnswers(d: Family, d': Family, p: nat, i: nat, n: nat, j: nat)
    requires FamilyOk(d, n) && Reparents(d, d', p, i) && j != p && j != INIT && Answer(d', j)
    ensures Answer(d, j)
  {
    if x: nat :| ZombieChild(d', x, j) {
      assert ZombieChild(d, x, j);
    } else if x: nat :| Child(d, x, j) {
      assert Child(d', x, j);
    }
  }

  lemma ExitAnswers(d: Family, d': Family, p: nat, n: nat, j: nat)
    requires FamilyOk(d, n) && Exits(d, d', p) && d.parent[p] != j && Answer(d', j)
    ensures Answer(d, j)
  {
    if x: nat :| ZombieChild(d', x, j) {
      assert ZombieChild(d, x, j);
    } else if x: nat :| Child(d, x, j) {
      assert Child(d', x, j);
    }
  }

  /** Each change keeps every parent alive: a process dies only when it has no children left. */
  lemma ChangeOk(d: Family, d': Family, p: nat, k: nat, n: nat)
    requires FamilyOk(d, n) && p < n && d.life[p] == Alive
    requires || Forks(d, d', p, k) || Reaps(d, d', p, k) || Reparents(d, d', p, k)
             || (Exits(d, d', p) && p != INIT && forall x: nat | x < n :: d.parent[x] != p)
    ensures FamilyOk(d', n)
  {
  }

  lemma FamilyKept(m: Machine, l: Label<Family>, k: nat, b: Loc)
    requires MachineInv(m) && May(m, l, k, b)
    ensures |Next(m, l, k, b).at| == |Next(m, l, k, b).s.procs| == |m.at|
    ensures FamilyOk(Next(m, l, k, b).s.data, |m.at|)
  {
    hide Inv, Answer, Tracked, Step, Ready, FamilyOk, Forks, Reaps, Reparents, Exits;
    DataStays(m.s, l);
    FamilySizes(m);
    assert LocOk(m, l.p);
    if l.Change? {
      ChangeOk(m.s.data, l.data, l.p, if m.at[l.p].Exiting? then m.at[l.p].i else k, |m.at|);
    }
  }

  /** The data change of a step leaves the answers that others wait for tracked. */
  lemma ChangeTracked(m: Machine, l: Label<Family>, k: nat, b: Loc, j: nat)
    requires MachineInv(m) && May(m, l, k, b) && l.Change? && j != l.p && Answer(l.data, j)
    ensures j in m.s.procs[l.p].woke || Answer(m.s.entry, j) || (j == INIT && b.Gave?)
  {
    hide Inv, Answer, Step, Ready;
    DataStays(m.s, l);
    assert LocOk(m, l.p);
    var d := m.s.data;
    match m.at[l.p]
    case Forking => ForkAnswers(d, l.data, l.p, k, |m.at|, j);
    case Exiting(i) =>
      if j != INIT {
        ReparentAnswers(d, l.data, l.p, i, |m.at|, j);
      }
    case Told =>
      if d.parent[l.p] != j {
        ExitAnswers(d, l.data, l.p, |m.at|, j);
      }
    case Waiting => ReapAnswers(d, l.data, l.p, k, |m.at|, j);
    case _ =>
  }

  lemma FamilySizes(m: Machine)
    requires MachineInv(m)
    ensures |m.s.data.life| == |m.s.data.parent| == |m.at| == |m.s.procs|
    ensures forall p: nat | p < |m.at| :: LocOk(m, p)
  {
  }

  lemma TrackedChange(m: Machine, l: Label<Family>, k: nat, b: Loc)
    requires MachineInv(m) && May(m, l, k, b) && l.Change?
    ensures var t := Next(m, l, k, b); l.p < |t.at| == |t.s.procs| && Tracked(t, l.p)
  {
    hide Inv, Answer, LocOk, FamilyOk;
    FamilySizes(m);
    assert LocOk(m, l.p);
    forall j: nat | j != l.p && Answer(l.data, j)
      ensures j in m.s.procs[l.p].woke || Answer(m.s.entry, j) || (j == INIT && b.Gave?)
    {
      ChangeTracked(m, l, k, b, j);
    }
  }

  lemma TrackedOther(m: Machine, l: Label<Family>, k: nat, b: Loc)
    requires MachineInv(m) && May(m, l, k, b) && !l.Change?
    ensures var t := Next(m, l, k, b);
            l.p < |t.at| == |t.s.procs| && (HoldsLk(t.s.procs[l.p]) ==> Tracked(t, l.p))
  {
    hide Inv, Answer, FamilyOk, Step, Ready, HoldsLk;
    FamilySizes(m);
    DataStays(m.s, l);
    MoverWoke(m.s, l);
    assert LocOk(m, l.p);
  }

  ghost predicate Placed(m: Machine, p: nat)
  {
    && p < |m.at| == |m.s.procs| == |m.s.data.life| == |m.s.data.parent|
    && (m.at[p] == Dead || m.at[p] == Dying <==> m.s.data.life[p] != Alive)
    && Place(m, p)
  }

  lemma ChangePlaced(m: Machine, l: Label<Family>, k: nat, b: Loc)
    requires MachineInv(m) && May(m, l, k, b) && l.Change?
    ensures Placed(Next(m, l, k, b), l.p)
  {
    hide Announced, PlockOk, Answer, Tracked, Step, Ready;
    DataStays(m.s, l);
    FamilySizes(m);
    assert LocOk(m, l.p);
  }

  lemma MovePlaced(m: Machine, l: Label<Family>, k: nat, b: Loc)
    requires MachineInv(m) && May(m, l, k, b) && !l.Change?
    ensures Placed(Next(m, l, k, b), l.p)
  {
    hide Inv, Answer, Tracked, Step, Ready;
    FamilySizes(m);
    DataStays(m.s, l);
    MoverWoke(m.s, l);
    MoverPhase(m.s, l);
    assert LocOk(m, l.p);
  }

  lemma MoverKeeps(m: Machine, l: Label<Family>, k: nat, b: Loc)
    requires MachineInv(m) && May(m, l, k, b)
    ensures var t := Next(m, l, k, b);
            l.p < |t.at| == |t.s.procs| == |t.s.data.life| == |t.s.data.parent| && LocOk(t, l.p)
  {
    hide Inv, FamilyOk, Tracked, Place, Step, May, Next;
    if l.Change? {
      ChangePlaced(m, l, k, b);
      TrackedChange(m, l, k, b);
    } else {
      MovePlaced(m, l, k, b);
      TrackedOther(m, l, k, b);
    }
  }

  lemma OtherTracked(m: Machine, l: Label<Family>, k: nat, b: Loc, p: nat)
    requires MachineInv(m) && May(m, l, k, b) && p < |m.at| && p != l.p
    ensures var t := Next(m, l, k, b);
            p < |t.at| == |t.s.procs| && (HoldsLk(t.s.procs[p]) ==> Tracked(t, p))
  {
    hide Announced, PlockOk, Answer, Step, Ready, FamilyOk, Place;
    OthersStay(m.s, l, p);
    DataStays(m.s, l);
    FamilySizes(m);
    assert LocOk(m, p) && LocOk(m, l.p);
    assert ProcOk(m.s, p) && ProcOk(m.s, l.p);
  }

  lemma OutsideLocs(m: Machine, p: nat)
    requires MachineInv(m) && p < |m.at| && !HoldsLk(m.s.procs[p])
    ensures m.at[p] == Idle || m.at[p] == Dead || m.at[p] == Waiting
  {
    hide Inv, Answer, Tracked;
    FamilySizes(m);
    assert LocOk(m, p);
  }

  lemma OtherPlaced(m: Machine, l: Label<Family>, k: nat, b: Loc, p: nat)
    requires MachineInv(m) && May(m, l, k, b) && p < |m.at| && p != l.p && !l.Change?
    ensures Placed(Next(m, l, k, b), p)
  {
    hide Inv, FamilyOk, Answer, Tracked, Step, Ready;
    OthersStay(m.s, l, p);
    DataStays(m.s, l);
    FamilySizes(m);
    assert LocOk(m, p);
  }

  lemma BystanderPlaced(m: Machine, l: Label<Family>, k: nat, b: Loc, p: nat)
    requires MachineInv(m) && May(m, l, k, b) && p < |m.at| && p != l.p && l.Change?
    ensures Placed(Next(m, l, k, b), p)
  {
    hide FamilyOk, Answer, Tracked, Step, Ready, PlockOk, Announced;
    OthersStay(m.s, l, p);
    DataStays(m.s, l);
    FamilySizes(m);
    assert ProcOk(m.s, p) && ProcOk(m.s, l.p);
    OutsideLocs(m, p);
    assert LocOk(m, p);
  }

  lemma StepKeepsInv(m: Machine, l: Label<Family>, k: nat, b: Loc)
    requires MachineInv(m) && May(m, l, k, b)
    ensures MachineInv(Next(m, l, k, b))
  {
    hide Inv, Guarded, Place, Tracked, Step, Ready, FamilyOk, Answer, May;
    MayReady(m, l, k, b);
    var t := Next(m, l, k, b);
    ObeysDiscipline(m, l, k, b);
    StepKeeps(Waited(), m.s, l);
    FamilyKept(m, l, k, b);
    FamilySizes2(t);
    forall p: nat | p < |m.at|
      ensures LocOk(t, p)
    {
      if p == l.p {
        MoverKeeps(m, l, k, b);
      } else {
        OtherTracked(m, l, k, b, p);
        if l.Change? {
          BystanderPlaced(m, l, k, b, p);
        } else {
          OtherPlaced(m, l, k, b, p);
        }
      }
    }
  }

  lemma MayReady(m: Machine, l: Label<Family>, k: nat, b: Loc)
    requires May(m, l, k, b)
    ensures Ready(m.s, l) && !l.Quiet?
  {
  }

  lemma FamilySizes2(m: Machine)
    requires FamilyOk(m.s.data, |m.at|)
    ensures |m.s.data.life| == |m.s.data.parent| == |m.at|
  {
  }

  /** All entries but init's unused, nobody in a critical section. */
  predicate Start(m: Machine)
  {
    && Init(m.s) && |m.at| == |m.s.procs| && FamilyOk(m.s.data, |m.at|)
    && forall p: nat | p < |m.at| ::
         m.at[p] == (if p == INIT then Idle else Dead) && (p != INIT ==> m.s.data.life[p] == Unused)
  }

  ghost predicate IsMachineRun(ms: seq<Machine>, ls: seq<Label<Family>>, ks: seq<nat>, bs: seq<Loc>)
  {
    && |ms| == |ls| + 1 && |ks| == |bs| == |ls| && Start(ms[0])
    && forall i | 0 <= i < |ls| :: May(ms[i], ls[i], ks[i], bs[i]) && ms[i + 1] == Next(ms[i], ls[i], ks[i], bs[i])
  }

  lemma StartInv(m: Machine)
    requires Start(m)
    ensures MachineInv(m)
  {
    hide Inv;
    InitInv(Waited(), m.s);
    forall p: nat | p < |m.at|
      ensures LocOk(m, p)
    {
      assert m.s.procs[p].phase.Out?;
    }
  }

  lemma {:induction false} ReachableInv(ms: seq<Machine>, ls: seq<Label<Family>>, ks: seq<nat>, bs: seq<Loc>, i: nat)
    requires IsMachineRun(ms, ls, ks, bs) && i < |ms|
    ensures MachineInv(ms[i])
  {
    hide MachineInv, May, Next, Start;
    if i == 0 {
      StartInv(ms[0]);
    } else {
      ReachableInv(ms, ls, ks, bs, i - 1);
      StepKeepsInv(ms[i - 1], ls[i - 1], ks[i - 1], bs[i - 1]);
    }
  }

  /** In every reachable state a non-null parent is a live process. */
  lemma ParentsAlive(ms: seq<Machine>, ls: seq<Label<Family>>, ks: seq<nat>, bs: seq<Loc>, i: nat, k: nat)
    requires IsMachineRun(ms, ls, ks, bs) && i < |ms| && k < |ms[i].s.data.parent| && ms[i].s.data.parent[k] != NONE
    ensures 0 <= ms[i].s.data.parent[k] < |ms[i].s.data.life| && ms[i].s.data.life[ms[i].s.data.parent[k]] == Alive
  {
    hide IsMachineRun, Inv, LocOk;
    ReachableInv(ms, ls, ks, bs, i);
  }

  /** A dead process whose entry is not free again has a live parent that can reap it. */
  lemma ZombiesHaveParents(ms: seq<Machine>, ls: seq<Label<Family>>, ks: seq<nat>, bs: seq<Loc>, i: nat, k: nat)
    requires IsMachineRun(ms, ls, ks, bs) && i < |ms| && k < |ms[i].s.data.life| && ms[i].s.data.life[k] == Zombie
    ensures k < |ms[i].s.data.parent| && 0 <= ms[i].s.data.parent[k] < |ms[i].s.data.life|
    ensures ms[i].s.data.life[ms[i].s.data.parent[k]] == Alive
  {
    hide IsMachineRun, Inv, LocOk;
    ReachableInv(ms, ls, ks, bs, i);
  }

  /** Whenever wait_lock is free, a process asleep in wait has a child and none that has exited. */
  lemma SleepingParents(ms: seq<Machine>, ls: seq<Label<Family>>, ks: seq<nat>, bs: seq<Loc>, i: nat, p: nat)
    requires IsMachineRun(ms, ls, ks, bs) && i < |ms| && ms[i].s.lk == Nobody
    requires p < |ms[i].s.procs| && ms[i].s.procs[p].state == SLEEPING
    ensures exists k: nat :: Child(ms[i].s.data, k, p)
    ensures forall k: nat :: !ZombieChild(ms[i].s.data, k, p)
  {
    hide IsMachineRun, Tracked, PlockOk;
    ReachableInv(ms, ls, ks, bs, i);
    FamilySizes(ms[i]);
    assert ProcOk(ms[i].s, p) && LocOk(ms[i], p);
    assert Dozing(ms[i].s.procs[p], p);
    assert !Waited()(p, p, ms[i].s.data);
  }
}
