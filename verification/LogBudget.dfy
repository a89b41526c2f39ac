/** begin_op's reservation against log_write's panic (kernel/log.c:126-142, 214-223): when
    every operation logs at most MAXOPBLOCKS blocks, exactly which logs never overflow. */
module LogBudget {
  import opened Disk
  import opened Sequences
  import opened RedoLog
  import opened LogDevice
  import opened LogMachine

  /** Blocks the running operations may still add. */
  function Slack(ops: seq<Op>): int
  {
    if ops == [] then 0 else MAXOPBLOCKS - ops[0].added + Slack(ops[1..])
  }

  lemma {:induction false} SlackAppend(ops: seq<Op>, o: Op)
    ensures Slack(ops + [o]) == Slack(ops) + MAXOPBLOCKS - o.added
  {
    if ops == [] {
      assert ops + [o] == [o];
    } else {
      assert (ops + [o])[1..] == ops[1..] + [o];
      SlackAppend(ops[1..], o);
    }
  }

  lemma {:induction false} SlackUpdate(ops: seq<Op>, i: nat)
    requires i < |ops|
    ensures Slack(ops[i := ops[i].(added := ops[i].added + 1)]) == Slack(ops) - 1
  {
    if i > 0 {
      assert ops[i := ops[i].(added := ops[i].added + 1)][1..]
          == ops[1..][i-1 := ops[i].(added := ops[i].added + 1)];
      SlackUpdate(ops[1..], i - 1);
    }
  }

  lemma {:induction false} SlackRemove(ops: seq<Op>, i: nat)
    requires i < |ops|
    ensures Slack(Without(ops, i)) == Slack(ops) - (MAXOPBLOCKS - ops[i].added)
  {
    if i == 0 {
      assert Without(ops, 0) == ops[1..];
    } else {
      assert Without(ops, i)[1..] == Without(ops[1..], i - 1);
      SlackRemove(ops[1..], i - 1);
    }
  }

  lemma {:induction false} SlackBounds(ops: seq<Op>)
    requires forall i | 0 <= i < |ops| :: ops[i].added <= MAXOPBLOCKS
    ensures 0 <= Slack(ops) <= |ops| * MAXOPBLOCKS
    ensures forall i | 0 <= i < |ops| :: MAXOPBLOCKS - ops[i].added <= Slack(ops)
  {
    if ops != [] {
      SlackBounds(ops[1..]);
      forall i | 0 <= i < |ops|
        ensures MAXOPBLOCKS - ops[i].added <= Slack(ops)
      {
        if i > 0 { assert ops[i] == ops[1..][i-1]; }
      }
    }
  }

  /** A log_write that keeps its operation within the blocks begin_op reserved. */
  predicate WithinBudget(s: State, i: nat, b: nat)
    requires i < |s.ops|
  {
    b in s.nos || s.ops[i].added < MAXOPBLOCKS
  }

  /** Every operation of the run keeps to its budget. */
  predicate Budgeted(ss: seq<State>, ls: seq<Label>)
  {
    && |ss| == |ls| + 1
    && forall k | 0 <= k < |ls| && ls[k].LogWrite? ::
         ls[k].i < |ss[k].ops| && WithinBudget(ss[k], ls[k].i, ls[k].b)
  }

  /** What is logged and what is still reserved always fit the log together. */
  predicate Reserved(s: State)
  {
    && (forall i | 0 <= i < |s.ops| :: s.ops[i].added <= MAXOPBLOCKS)
    && |s.nos| + Slack(s.ops) <= LOGSIZE
    && (s.phase.Flushing? ==> s.ops == [])
  }

  lemma BeginReserves(s: State, t: State)
    requires Reserved(s) && s.phase.Ready? && Admits(|s.nos|, |s.ops|)
    requires t.ops == s.ops + [Op(s.nextOp, 0)] && t.nos == s.nos && t.phase == s.phase
    ensures Reserved(t)
  {
    SlackBounds(s.ops);
    SlackAppend(s.ops, Op(s.nextOp, 0));
  }

  lemma LogWriteReserves(s: State, t: State, i: nat, b: nat)
    requires Reserved(s) && i < |s.ops| && WithinBudget(s, i, b) && t.nos == Absorb(s.nos, b) && t.phase == s.phase
    requires t.ops == if b in s.nos then s.ops else s.ops[i := s.ops[i].(added := s.ops[i].added + 1)]
    ensures Reserved(t)
  {
    SlackUpdate(s.ops, i);
  }

  lemma EndReserves(s: State, t: State, i: nat)
    requires Reserved(s) && i < |s.ops| && t.ops == Without(s.ops, i) && t.nos == s.nos
    requires t.phase.Flushing? ==> t.ops == []
    ensures Reserved(t)
  {
    SlackRemove(s.ops, i);
  }

  lemma {:induction false} RunReserved(g: Geometry, d0: Disk, ss: seq<State>, ls: seq<Label>, i: nat)
    requires IsRun(g, d0, ss, ls) && Budgeted(ss, ls) && i <= |ls|
    ensures Reserved(ss[i])
  {
    hide CommitPlan, RecoveryPlan;
    if i > 0 {
      RunReserved(g, d0, ss, ls, i - 1);
      var s, t := ss[i - 1], ss[i];
      match ls[i - 1]
      case BeginOp => BeginReserves(s, t);
      case LogWrite(k, b, data) => LogWriteReserves(s, t, k, b);
      case EndOp(k) => EndReserves(s, t, k);
      case _ =>
    }
  }

  /** In all interleavings the logged blocks and what the open operations may still log for the
      first time never need more than LOGSIZE entries together. */
  lemma AdmissionBoundsLog(g: Geometry, d0: Disk, ss: seq<State>, ls: seq<Label>, i: nat)
    requires IsRun(g, d0, ss, ls) && Budgeted(ss, ls) && i <= |ls|
    ensures |ss[i].nos| + Slack(ss[i].ops) <= LOGSIZE
  {
    RunReserved(g, d0, ss, ls, i);
  }

  /** An operation that stays within its budget, logging a block for the first time. */
  predicate FirstWrite(s: State, i: nat, b: nat)
  {
    s.phase.Ready? && i < |s.ops| && b !in s.nos && s.ops[i].added < MAXOPBLOCKS
  }

  ghost predicate FirstWritesNeverPanic(g: Geometry, d0: Disk)
  {
    forall ss: seq<State>, ls: seq<Label>, i: nat, b: nat |
      IsRun(g, d0, ss, ls) && Budgeted(ss, ls) && FirstWrite(ss[|ls|], i, b) :: !Overflows(g, |ss[|ls|].nos|)
  }

  lemma FirstWriteFits(g: Geometry, d0: Disk, ss: seq<State>, ls: seq<Label>, i: nat, b: nat)
    requires IsRun(g, d0, ss, ls) && Budgeted(ss, ls) && FirstWrite(ss[|ls|], i, b)
    ensures |ss[|ls|].nos| < LOGSIZE
  {
    RunReserved(g, d0, ss, ls, |ls|);
    SlackBounds(ss[|ls|].ops);
  }

  // ---- A run that fills the log ----

  function Share(m: nat, j: nat): nat
  {
    if m <= 10 * j then 0 else if m >= 10 * j + 10 then 10 else m - 10 * j
  }

  function Three(m: nat): seq<Op>
  {
    [Op(0, Share(m, 0)), Op(1, Share(m, 1)), Op(2, Share(m, 2))]
  }

  /** Three operations admitted together that have logged the m blocks after the log region. */
  predicate Filling(g: Geometry, d0: Disk, s: State, m: nat)
  {
    && s.phase.Ready? && s.disk == d0 && s.ops == Three(m)
    && |s.nos| == m && forall i | 0 <= i < m :: s.nos[i] == g.start + g.size + i
  }

  lemma ExtendRun(g: Geometry, d0: Disk, ss: seq<State>, ls: seq<Label>, l: Label)
    requires IsRun(g, d0, ss, ls) && Enabled(g, ss[|ls|], l) && Budgeted(ss, ls)
    requires l.LogWrite? ==> l.i < |ss[|ls|].ops| && WithinBudget(ss[|ls|], l.i, l.b)
    ensures IsRun(g, d0, ss + [Step(g, ss[|ls|], l)], ls + [l])
    ensures Budgeted(ss + [Step(g, ss[|ls|], l)], ls + [l])
  {
    hide Enabled, Step, WithinBudget;
    var ss' := ss + [Step(g, ss[|ls|], l)];
    var ls' := ls + [l];
    forall i | 0 <= i < |ls'|
      ensures Enabled(g, ss'[i], ls'[i]) && ss'[i+1] == Step(g, ss'[i], ls'[i])
    {
      if i < |ls| { assert ls'[i] == ls[i] && ss'[i] == ss[i] && ss'[i+1] == ss[i+1]; }
    }
    forall i | 0 <= i < |ls'| && ls'[i].LogWrite?
      ensures ls'[i].i < |ss'[i].ops| && WithinBudget(ss'[i], ls'[i].i, ls'[i].b)
    {
      if i < |ls| { assert ls'[i] == ls[i] && ss'[i] == ss[i]; }
    }
  }

  lemma ThreeAdmitted(g: Geometry, d0: Disk) returns (ss: seq<State>, ls: seq<Label>)
    ensures IsRun(g, d0, ss, ls) && Budgeted(ss, ls) && Filling(g, d0, ss[|ls|], 0)
  {
    var s0 := Init(d0);
    var s1 := Step(g, s0, BeginOp);
    var s2 := Step(g, s1, BeginOp);
    var s3 := Step(g, s2, BeginOp);
    ss, ls := [s0, s1, s2, s3], [BeginOp, BeginOp, BeginOp];
    assert s3.ops == Three(0);
  }

  lemma {:induction false} FillLog(g: Geometry, d0: Disk, m: nat) returns (ss: seq<State>, ls: seq<Label>)
    requires Fits(g, d0) && m <= LOGSIZE && m < g.size && g.start + g.size + m <= |d0|
    ensures IsRun(g, d0, ss, ls) && Budgeted(ss, ls) && Filling(g, d0, ss[|ls|], m)
  {
    if m == 0 {
      ss, ls := ThreeAdmitted(g, d0);
    } else {
      ss, ls := FillLog(g, d0, m - 1);
      var s := ss[|ls|];
      var i := if m <= 10 then 0 else if m <= 20 then 1 else 2;
      var l := LogWrite(i, g.start + g.size + m - 1, ZeroBlock());
      ExtendRun(g, d0, ss, ls, l);
      assert Step(g, s, l).ops == Three(m);
      ss, ls := ss + [Step(g, s, l)], ls + [l];
    }
  }

  /** Reservation protects first-time writes exactly when the log region has more than
      LOGSIZE blocks; a region of LOGSIZE blocks, as mkfs lays it out, is one slot short. */
  lemma FirstWritesSafeIff(g: Geometry, d0: Disk)
    requires Fits(g, d0) && g.start + g.size + LOGSIZE < |d0|
    ensures FirstWritesNeverPanic(g, d0) <==> g.size > LOGSIZE
  {
    if g.size > LOGSIZE {
      forall ss: seq<State>, ls: seq<Label>, i: nat, b: nat |
          IsRun(g, d0, ss, ls) && Budgeted(ss, ls) && FirstWrite(ss[|ls|], i, b)
        ensures !Overflows(g, |ss[|ls|].nos|)
      {
        FirstWriteFits(g, d0, ss, ls, i, b);
      }
    } else {
      var ss, ls := FillLog(g, d0, g.size - 1);
      var s := ss[|ls|];
      var b := g.start + g.size + g.size - 1;
      assert FirstWrite(s, 2, b) by {
        assert s.ops[2].added == Share(g.size - 1, 2);
      }
      assert Overflows(g, |s.nos|);
    }
  }

  /** The guard runs before absorption: in every run state, re-logging a block of the header,
      which needs no new entry, panics exactly when the header or the log region is full. */
  lemma AbsorptionPanicsIff(g: Geometry, d0: Disk, ss: seq<State>, ls: seq<Label>, k: nat, i: nat, b: nat, data: Block)
    requires Fits(g, d0) && HeaderCount(d0[g.start]) == 0
    requires IsRun(g, d0, ss, ls) && k <= |ls|
    requires ss[k].phase.Ready? && i < |ss[k].ops| && b in ss[k].nos
    ensures WithinBudget(ss[k], i, b)
    ensures !Enabled(g, ss[k], LogWrite(i, b, data)) <==> |ss[k].nos| >= LOGSIZE || |ss[k].nos| >= g.size - 1
  {
    RunInv(g, d0, ss, ls, k);
    var s := ss[k];
    assert GoodHeader(g, |s.disk|, PinnedTxn(s.pinned, s.nos).nos);
    var j :| 0 <= j < |s.nos| && s.nos[j] == b;
    assert s.nos[j] < |s.disk| && Home(g, s.nos[j]);
  }

  /** Whatever the size of the log region, as long as it holds an entry at all, operations within
      their budgets reach a state in which even re-logging block b panics. */
  lemma FullLogRefusesAbsorption(g: Geometry, d0: Disk) returns (ss: seq<State>, ls: seq<Label>, b: nat)
    requires Fits(g, d0) && g.size >= 2 && g.start + g.size + LOGSIZE <= |d0|
    ensures IsRun(g, d0, ss, ls) && Budgeted(ss, ls)
    ensures ss[|ls|].phase.Ready? && |ss[|ls|].ops| == 3 && b in ss[|ls|].nos
    ensures forall i: nat | i < 3 :: WithinBudget(ss[|ls|], i, b)
    ensures forall i: nat, data: Block | i < 3 :: !Enabled(g, ss[|ls|], LogWrite(i, b, data))
  {
    var m := if g.size > LOGSIZE then LOGSIZE else g.size - 1;
    ss, ls := FillLog(g, d0, m);
    b := g.start + g.size;
    var s := ss[|ls|];
    assert s.nos[0] == b;
    assert |s.ops| == 3 && Overflows(g, |s.nos|);
  }
}
