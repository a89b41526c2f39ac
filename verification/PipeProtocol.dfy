/** kernel/pipe.c pipewrite, piperead and pipeclose over sleep and wakeup, in every interleaving. The
    pipe is seen as the byte stream that PipeBuffer shows its ring buffer to hold. */
module PipeProtocol {
  import opened Disk
  import opened PipeBuffer
  import opened SleepWakeup

  /** &pi->nread, where readers sleep, and &pi->nwrite, where writers sleep. */
  const NREAD: nat := 1
  const NWRITE: nat := 2

  /** `hushed`: a killed writer left bytes behind without a wakeup, and since then nobody has woken
      the readers and no reader has emptied the open pipe. */
  datatype Stream = Stream(stored: seq<byte>, taken: nat, readopen: bool, writeopen: bool, hushed: bool)

  predicate StreamOk(d: Stream)
  {
    d.taken <= |d.stored| <= d.taken + PIPESIZE
  }

  predicate Empty(d: Stream)
  {
    d.taken == |d.stored|
  }

  predicate Full(d: Stream)
  {
    |d.stored| == d.taken + PIPESIZE
  }

  predicate HushOk(d: Stream)
  {
    d.hushed ==> !Empty(d) || !d.writeopen
  }

  predicate ForReader(d: Stream)
  {
    !d.hushed && (!Empty(d) || !d.writeopen)
  }

  predicate ForWriter(d: Stream)
  {
    !Full(d) || !d.readopen
  }

  ghost function Awaited(): Cond<Stream>
  {
    (j: nat, c: nat, d: Stream) => (c == NREAD && ForReader(d)) || (c == NWRITE && ForWriter(d))
  }

  /** pipewrite: Writing until it finds the pipe full (Stuck; Paused after its wakeup) or is through
      (Ending), or was killed (Killed). piperead: Reading until there is something, then Taking.
      pipeclose: Closing the write or the read end, then Closed. Told: after the last wakeup. */
  datatype Loc =
    | Idle | Writing | Stuck | Paused | Ending | Killed | Reading | Taking
    | Closing(write: bool) | Closed(write: bool) | Told

  datatype Machine = Machine(s: State<Stream>, at: seq<Loc>)

  predicate InWrite(a: Loc)
  {
    a == Writing || a == Stuck || a == Paused || a == Ending || a == Killed
  }

  /** The stores, under pi->lock, from data d to d'; e is the data when the lock was taken. A process
      that goes on to wake the readers ends the hush, and so does the reader that empties the open pipe. */
  predicate Edits(a: Loc, b: Loc, e: Stream, d: Stream, d': Stream)
  {
    || (a == Writing && b == Writing && d.readopen && !Full(d)
        && |d'.stored| == |d.stored| + 1 && d.stored <= d'.stored && d' == d.(stored := d'.stored))
    || (a == Writing && b == Stuck && d.readopen && Full(d) && d' == d.(hushed := false))
    || (a == Writing && b == Ending && d' == d.(hushed := false))          // all written, or copyin failed
    || (a == Writing && b == Killed && d' == d.(hushed := d.hushed || d.stored != e.stored))
    || (a == Reading && b == Taking && (!Empty(d) || !d.writeopen) && d' == d)
    || (a == Taking && b == Taking && !Empty(d)
        && d' == d.(taken := d.taken + 1, hushed := d.hushed && !(d.taken + 1 == |d.stored| && d.writeopen)))
    || (a == Closing(true) && b == Closed(true) && d' == d.(writeopen := false, hushed := false))
    || (a == Closing(false) && b == Closed(false) && d' == d.(readopen := false))
  }

  /** Which channel the wakeup after location a is for. */
  function Channel(a: Loc): nat
  {
    if a == Stuck || a == Ending || a == Closed(true) then NREAD else NWRITE
  }

  predicate May(m: Machine, l: Label<Stream>, b: Loc)
  {
    && Ready(m.s, l) && |m.at| == |m.s.procs| && !l.Quiet?
    && var a := m.at[l.p]; var d := m.s.data;
       if l.Acquire? then a == Idle && (b == Writing || b == Reading || b.Closing?)
       else if l.Change? then Edits(a, b, m.s.entry, d, l.data)
       else if l.WakeStart? then
         b == a && (a == Stuck || a == Ending || a == Taking || a.Closed?) && l.chan == Channel(a)
       else if l.WakeDone? then b == if a == Stuck then Paused else Told
       else if l.SleepLock? then
         || (a == Paused && b == a && l.chan == NWRITE)
         || (a == Reading && b == a && l.chan == NREAD && Empty(d) && d.writeopen)
       else if l.Regain? then b == if a == Paused then Writing else a
       else if l.Release? then
         b == Idle && (a == Told || a == Killed || (a == Writing && !d.readopen) || a == Reading)
       else b == a
  }

  function Next(m: Machine, l: Label<Stream>, b: Loc): Machine
    requires May(m, l, b)
  {
    Machine(Step(m.s, l), m.at[l.p := b])
  }

  /** A wakeup of the readers, or of the writers, is still to come in this critical section. */
  predicate OwesReaders(a: Loc)
  {
    a == Writing || a == Stuck || a == Ending || a == Closed(true)
  }

  predicate OwesWriters(a: Loc)
  {
    a == Taking || a == Closed(false)
  }

  predicate Tracked(m: Machine, p: nat)
    requires p < |m.at| == |m.s.procs|
  {
    var w := m.s.procs[p].woke;
    && (ForReader(m.s.data) ==> NREAD in w || ForReader(m.s.entry) || OwesReaders(m.at[p]))
    && (ForWriter(m.s.data) ==> NWRITE in w || ForWriter(m.s.entry) || OwesWriters(m.at[p]))
  }

  predicate Place(m: Machine, p: nat)
    requires p < |m.at| == |m.s.procs|
  {
    var ph := m.s.procs[p].phase;
    var d := m.s.data;
    var e := m.s.entry;
    match m.at[p]
    case Idle => ph.Out?
    case Writing =>
      && ph.Inside? && e.taken <= |e.stored| && e.stored <= d.stored
      && d == e.(stored := d.stored) && (d.readopen || d == e)
    case Stuck => (ph.Inside? || (ph.Waking? && ph.chan == NREAD)) && Full(d) && d.readopen
    case Paused =>
      && !ph.Out? && !ph.Waking? && (ph.Inside? || ph.chan == NWRITE)
      && (HoldsLk(m.s.procs[p]) ==> Full(d) && d.readopen && NREAD in m.s.procs[p].woke)
    case Ending => ph.Inside? || (ph.Waking? && ph.chan == NREAD)
    case Killed => ph.Inside?
    case Reading =>
      && !ph.Out? && !ph.Waking? && (ph.Inside? || ph.chan == NREAD)
      && (HoldsLk(m.s.procs[p]) ==> d == e) && (ph.Falling? ==> Empty(d) && d.writeopen)
    case Taking => ph.Inside? || (ph.Waking? && ph.chan == NWRITE)
    case Closing(_) => ph.Inside? && d == e
    case Closed(w) => ph.Inside? || (ph.Waking? && ph.chan == if w then NREAD else NWRITE)
    case Told => ph.Inside?
  }

  predicate LocOk(m: Machine, p: nat)
    requires p < |m.at| == |m.s.procs|
  {
    Place(m, p) && (HoldsLk(m.s.procs[p]) ==> Tracked(m, p))
  }

  ghost predicate MachineInv(m: Machine)
  {
    && Inv(Awaited(), m.s) && |m.at| == |m.s.procs| && StreamOk(m.s.data) && HushOk(m.s.data)
    && forall p: nat | p < |m.at| :: LocOk(m, p)
  }

  lemma ObeysDiscipline(m: Machine, l: Label<Stream>, b: Loc)
    requires MachineInv(m) && May(m, l, b)
    ensures Guarded(Awaited(), m.s, l)
  {
    hide Inv, Edits;
    assert LocOk(m, l.p);
  }

  lemma EditKeeps(m: Machine, l: Label<Stream>, b: Loc)
    requires MachineInv(m) && May(m, l, b) && l.Change?
    ensures |Next(m, l, b).at| == |Next(m, l, b).s.procs| == |m.at| && LocOk(Next(m, l, b), l.p)
    ensures StreamOk(l.data) && HushOk(l.data)
  {
    hide Inv, Step, Ready;
    DataStays(m.s, l);
    MoverWoke(m.s, l);
    assert LocOk(m, l.p);
  }

  lemma MoveKeeps(m: Machine, l: Label<Stream>, b: Loc)
    requires MachineInv(m) && May(m, l, b) && !l.Change?
    ensures |Next(m, l, b).at| == |Next(m, l, b).s.procs| == |m.at| && LocOk(Next(m, l, b), l.p)
  {
    hide Inv, Step, Ready, Edits;
    DataStays(m.s, l);
    MoverPhase(m.s, l);
    MoverWoke(m.s, l);
    assert LocOk(m, l.p);
  }

  lemma OtherKeeps(m: Machine, l: Label<Stream>, b: Loc, q: nat)
    requires MachineInv(m) && May(m, l, b) && q < |m.at| && q != l.p
    ensures |Next(m, l, b).at| == |Next(m, l, b).s.procs| == |m.at| && LocOk(Next(m, l, b), q)
  {
    hide Announced, PlockOk, Step, Ready, Edits;
    DataStays(m.s, l);
    OthersStay(m.s, l, q);
    assert LocOk(m, q) && ProcOk(m.s, l.p) && ProcOk(m.s, q);
  }

  lemma StepKeepsInv(m: Machine, l: Label<Stream>, b: Loc)
    requires MachineInv(m) && May(m, l, b)
    ensures MachineInv(Next(m, l, b))
  {
    hide Inv, Guarded, LocOk, Step, Ready, Edits;
    ObeysDiscipline(m, l, b);
    StepKeeps(Awaited(), m.s, l);
    DataStays(m.s, l);
    if l.Change? {
      EditKeeps(m, l, b);
    } else {
      MoveKeeps(m, l, b);
    }
    forall q: nat | q < |m.at| && q != l.p
      ensures LocOk(Next(m, l, b), q)
    {
      OtherKeeps(m, l, b, q);
    }
  }

  predicate Start(m: Machine)
  {
    && Init(m.s) && m.s.data == Stream([], 0, true, true, false) && |m.at| == |m.s.procs|
    && forall p: nat | p < |m.at| :: m.at[p] == Idle
  }

  lemma StartInv(m: Machine)
    requires Start(m)
    ensures MachineInv(m)
  {
    InitInv(Awaited(), m.s);
  }

  ghost predicate IsMachineRun(ms: seq<Machine>, ls: seq<Label<Stream>>, bs: seq<Loc>)
  {
    && |ms| == |ls| + 1 && |bs| == |ls| && Start(ms[0])
    && forall i | 0 <= i < |ls| :: May(ms[i], ls[i], bs[i]) && ms[i + 1] == Next(ms[i], ls[i], bs[i])
  }

  lemma {:induction false} ReachableInv(ms: seq<Machine>, ls: seq<Label<Stream>>, bs: seq<Loc>, i: nat)
    requires IsMachineRun(ms, ls, bs) && i < |ms|
    ensures MachineInv(ms[i])
  {
    hide MachineInv, May, Next, Start;
    if i == 0 {
      StartInv(ms[0]);
    } else {
      ReachableInv(ms, ls, bs, i - 1);
      StepKeepsInv(ms[i - 1], ls[i - 1], bs[i - 1]);
    }
  }

  /** Whenever pi->lock is free, a sleeping writer faces a full pipe that is open for reading, and a
      sleeping reader an empty one that is open for writing exactly when no killed writer's bytes lie
      there unannounced. */
  lemma SleepersStuck(ms: seq<Machine>, ls: seq<Label<Stream>>, bs: seq<Loc>, i: nat, p: nat)
    requires IsMachineRun(ms, ls, bs) && i < |ms| && ms[i].s.lk == Nobody
    requires p < |ms[i].s.procs| && p < |ms[i].at| && ms[i].s.procs[p].state == SLEEPING
    ensures InWrite(ms[i].at[p]) || ms[i].at[p] == Reading
    ensures InWrite(ms[i].at[p]) ==> Full(ms[i].s.data) && ms[i].s.data.readopen
    ensures ms[i].at[p] == Reading ==>
              (Empty(ms[i].s.data) && ms[i].s.data.writeopen <==> !ms[i].s.data.hushed)
  {
    hide IsMachineRun, PlockOk;
    ReachableInv(ms, ls, bs, i);
    assert ProcOk(ms[i].s, p) && LocOk(ms[i], p);
    var c := if ms[i].at[p] == Reading then NREAD else NWRITE;
    assert Dozing(ms[i].s.procs[p], c);
    var d := ms[i].s.data;
    assert Awaited()(p, c, d) == ((c == NREAD && ForReader(d)) || (c == NWRITE && ForWriter(d)));
  }

  /** A killed writer gives up the lock after storing bytes and without a wakeup. */
  predicate LeavesQuietly(m: Machine, l: Label<Stream>, b: Loc)
  {
    l.Change? && l.p < |m.at| && m.at[l.p] == Writing && b == Killed && m.s.data.stored != m.s.entry.stored
  }

  /** A writer or the closing end goes on to wake the readers, or a reader takes the last byte of an
      open pipe. */
  predicate Settles(m: Machine, l: Label<Stream>, b: Loc)
  {
    && l.Change? && l.p < |m.at|
    && ((m.at[l.p] == Writing && (b == Stuck || b == Ending)) || m.at[l.p] == Closing(true)
        || (m.at[l.p] == Taking && m.s.data.taken + 1 == |m.s.data.stored| && m.s.data.writeopen))
  }

  ghost predicate QuietSince(ms: seq<Machine>, ls: seq<Label<Stream>>, bs: seq<Loc>, k: nat, i: nat)
  {
    && k < i <= |ls| && |ms| == |ls| + 1 && |bs| == |ls| && LeavesQuietly(ms[k], ls[k], bs[k])
    && forall n | k < n < i :: !Settles(ms[n], ls[n], bs[n])
  }

  /** In every run the readers are hushed exactly when a killed writer left bytes quietly and nothing
      has settled it since. */
  lemma {:induction false} HushedIff(ms: seq<Machine>, ls: seq<Label<Stream>>, bs: seq<Loc>, i: nat)
    requires IsMachineRun(ms, ls, bs) && i < |ms|
    ensures ms[i].s.data.hushed <==> exists k: nat :: QuietSince(ms, ls, bs, k, i)
  {
    hide May, Next, LeavesQuietly, Settles;
    if i > 0 {
      HushedIff(ms, ls, bs, i - 1);
      HushStep(ms[i - 1], ls[i - 1], bs[i - 1]);
      var s, t := ms[i - 1].s.data, ms[i].s.data;
      if LeavesQuietly(ms[i - 1], ls[i - 1], bs[i - 1]) {
        assert QuietSince(ms, ls, bs, i - 1, i);
      } else if s.hushed && t.hushed {
        var k: nat :| QuietSince(ms, ls, bs, k, i - 1);
        assert QuietSince(ms, ls, bs, k, i);
      }
      forall k: nat | QuietSince(ms, ls, bs, k, i)
        ensures t.hushed
      {
        if k < i - 1 {
          assert QuietSince(ms, ls, bs, k, i - 1);
        }
      }
    }
  }

  lemma HushStep(m: Machine, l: Label<Stream>, b: Loc)
    requires May(m, l, b)
    ensures Next(m, l, b).s.data.hushed ==
            (LeavesQuietly(m, l, b) || (m.s.data.hushed && !Settles(m, l, b)))
  {
    hide Ready, Step;
    DataStays(m.s, l);
  }

  /** In every run the stream only grows at its end, the reading point only moves forward, and the
      pipe never holds more than PIPESIZE bytes. */
  lemma {:induction false} StreamGrows(ms: seq<Machine>, ls: seq<Label<Stream>>, bs: seq<Loc>, i: nat, j: nat)
    requires IsMachineRun(ms, ls, bs) && i <= j < |ms|
    ensures ms[i].s.data.stored <= ms[j].s.data.stored && ms[i].s.data.taken <= ms[j].s.data.taken
    ensures ms[j].s.data.taken <= |ms[j].s.data.stored| <= ms[j].s.data.taken + PIPESIZE
  {
    hide Inv, Step, Ready, LocOk, Start;
    ReachableInv(ms, ls, bs, j);
    if i < j {
      StreamGrows(ms, ls, bs, i, j - 1);
      DataStays(ms[j - 1].s, ls[j - 1]);
    }
  }

  /** One more step at the end of a run. */
  lemma Extend(ms: seq<Machine>, ls: seq<Label<Stream>>, bs: seq<Loc>, l: Label<Stream>, b: Loc) returns (m: Machine)
    requires IsMachineRun(ms, ls, bs) && May(ms[|ms| - 1], l, b)
    ensures m == Next(ms[|ms| - 1], l, b) && IsMachineRun(ms + [m], ls + [l], bs + [b])
  {
    hide May, Next, Start;
    m := Next(ms[|ms| - 1], l, b);
    var ms', ls', bs' := ms + [m], ls + [l], bs + [b];
    forall i | 0 <= i < |ls'|
      ensures May(ms'[i], ls'[i], bs'[i]) && ms'[i + 1] == Next(ms'[i], ls'[i], bs'[i])
    {
      if i < |ls| {
        assert ls'[i] == ls[i] && bs'[i] == bs[i] && ms'[i] == ms[i] && ms'[i + 1] == ms[i + 1];
      }
    }
  }

  /** The exception is real. A reader sleeps; a writer stores a byte, is killed and returns: the
      reader sleeps on beside the byte. */
  lemma KilledWriterHushes() returns (ms: seq<Machine>, ls: seq<Label<Stream>>, bs: seq<Loc>)
    ensures IsMachineRun(ms, ls, bs)
    ensures var m := ms[|ms| - 1];
            && m.s.lk == Nobody && |m.s.procs| == |m.at| == 2 && m.at[0] == Reading
            && m.s.procs[0].state == SLEEPING && !Empty(m.s.data) && m.s.data.hushed
  {
    var q := Proc(Out, RUNNING, 0, {});
    var d := Stream([], 0, true, true, false);
    ms, ls, bs := [Machine(State(d, d, Nobody, [q, q], [Nobody, Nobody]), [Idle, Idle])], [], [];
    ms, ls, bs := ReaderSleeps(ms, ls, bs);
    ms, ls, bs := WriterDies(ms, ls, bs);
  }

  lemma ReaderSleeps(ms0: seq<Machine>, ls0: seq<Label<Stream>>, bs0: seq<Loc>)
    returns (ms: seq<Machine>, ls: seq<Label<Stream>>, bs: seq<Loc>)
    requires IsMachineRun(ms0, ls0, bs0)
    requires var m := ms0[|ms0| - 1]; var q := Proc(Out, RUNNING, 0, {}); var d := Stream([], 0, true, true, false);
             m == Machine(State(d, d, Nobody, [q, q], [Nobody, Nobody]), [Idle, Idle])
    ensures IsMachineRun(ms, ls, bs)
    ensures var m := ms[|ms| - 1]; var d := Stream([], 0, true, true, false);
            m == Machine(State(d, d, Nobody, [Proc(Parked(NREAD), SLEEPING, NREAD, {}), Proc(Out, RUNNING, 0, {})],
                               [Nobody, Nobody]), [Reading, Idle])
  {
    hide IsMachineRun;
    ms, ls, bs := ms0, ls0, bs0;
    var m := Extend(ms, ls, bs, Acquire(0), Reading);
    ms, ls, bs := ms + [m], ls + [Acquire(0)], bs + [Reading];
    m := Extend(ms, ls, bs, SleepLock(0, NREAD), Reading);
    ms, ls, bs := ms + [m], ls + [SleepLock(0, NREAD)], bs + [Reading];
    m := Extend(ms, ls, bs, SleepDrop(0), Reading);
    ms, ls, bs := ms + [m], ls + [SleepDrop(0)], bs + [Reading];
    m := Extend(ms, ls, bs, SleepMark(0), Reading);
    ms, ls, bs := ms + [m], ls + [SleepMark(0)], bs + [Reading];
    m := Extend(ms, ls, bs, SchedRelease(0), Reading);
    ms, ls, bs := ms + [m], ls + [SchedRelease(0)], bs + [Reading];
  }

  lemma WriterDies(ms0: seq<Machine>, ls0: seq<Label<Stream>>, bs0: seq<Loc>)
    returns (ms: seq<Machine>, ls: seq<Label<Stream>>, bs: seq<Loc>)
    requires IsMachineRun(ms0, ls0, bs0)
    requires var m := ms0[|ms0| - 1]; var d := Stream([], 0, true, true, false);
             m == Machine(State(d, d, Nobody, [Proc(Parked(NREAD), SLEEPING, NREAD, {}), Proc(Out, RUNNING, 0, {})],
                                [Nobody, Nobody]), [Reading, Idle])
    ensures IsMachineRun(ms, ls, bs)
    ensures var m := ms[|ms| - 1];
            && m.s.lk == Nobody && |m.s.procs| == |m.at| == 2 && m.at[0] == Reading
            && m.s.procs[0].state == SLEEPING && !Empty(m.s.data) && m.s.data.hushed
  {
    hide IsMachineRun;
    ms, ls, bs := ms0, ls0, bs0;
    var d := Stream([65], 0, true, true, false);
    var m := Extend(ms, ls, bs, Acquire(1), Writing);
    ms, ls, bs := ms + [m], ls + [Acquire(1)], bs + [Writing];
    m := Extend(ms, ls, bs, Change(1, d), Writing);
    ms, ls, bs := ms + [m], ls + [Change(1, d)], bs + [Writing];
    m := Extend(ms, ls, bs, Change(1, d.(hushed := true)), Killed);
    ms, ls, bs := ms + [m], ls + [Change(1, d.(hushed := true))], bs + [Killed];
    m := Extend(ms, ls, bs, Release(1), Idle);
    ms, ls, bs := ms + [m], ls + [Release(1)], bs + [Idle];
  }
}
