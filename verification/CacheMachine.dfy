/** The buffer cache under every interleaving of its clients (kernel/bio.c:58-151 with the pins
    of kernel/log.c:214-235 and the installs of kernel/log.c:68-83): reads agree with a plain
    array of blocks although buffers are recycled. */
module CacheMachine {
  import opened Disk
  import BufferCache

  /** A buffer: `waiting` clients have called bget and wait for its sleep lock; `locked` says a
      client holds it; `leaving` clients have released it and not yet dropped their reference.
      `dirty` is history: the data were changed and neither logged nor written since (a change back
      to what the disk holds is none); so is `written`: the client holding it has written it and
      not changed it since. */
  datatype Buf = Buf(
    valid: bool, data: Block, refcnt: nat, waiting: nat, locked: bool, leaving: nat, dirty: bool, written: bool)

  /** `logged` are the blocks of the log header, each with a pin; `contents` and `stray` are
      history: the contents last released for each block, and the blocks whose last release left
      a change that was neither logged nor written and has not been since. */
  datatype State = State(disk: Disk, cache: map<nat, Buf>, logged: set<nat>, contents: Disk, stray: set<nat>)

  datatype Label =
    | GetCached(b: nat)
    | GetNew(b: nat, junk: Block)
    | Recycle(victim: nat, b: nat)
    | Lock(b: nat)
    | Fill(b: nat)
    | Modify(b: nat, data: Block)
    | LogWrite(b: nat)
    | Bwrite(b: nat)
    | Unpin(b: nat)
    | Release(b: nat)
    | DropRef(b: nat)

  function Init(d: Disk): State
  {
    State(d, map[], {}, d, {})
  }

  /** A client holds the lock of b's buffer and the buffer has its contents. */
  predicate Held(s: State, b: nat)
  {
    b in s.cache && s.cache[b].locked && s.cache[b].valid
  }

  predicate Enabled(s: State, l: Label)
  {
    match l
    case GetCached(b) => b in s.cache
    case GetNew(b, _) => b < |s.disk| && b !in s.cache && |s.cache| < BufferCache.NBUF
    case Recycle(v, b) => b < |s.disk| && b !in s.cache && v in s.cache && s.cache[v].refcnt == 0
    case Lock(b) => b in s.cache && s.cache[b].waiting > 0 && !s.cache[b].locked
    case Fill(b) => b in s.cache && b < |s.disk| && s.cache[b].locked && !s.cache[b].valid
    case Modify(b, _) => Held(s, b)
    case LogWrite(b) => Held(s, b)
    case Bwrite(b) => Held(s, b) && b < |s.disk|
    // install_trans unpins the buffer it has just written
    case Unpin(b) => Held(s, b) && b in s.logged && s.cache[b].written && s.cache[b].refcnt > 0
    // brelse: releasesleep, then the decrement under bcache.lock
    case Release(b) => Held(s, b) && b < |s.contents| && b < |s.disk|
    case DropRef(b) => b in s.cache && s.cache[b].leaving > 0 && s.cache[b].refcnt > 0
  }

  function Step(s: State, l: Label): State
    requires Enabled(s, l)
  {
    match l
    case GetCached(b) =>
      var u := s.cache[b];
      s.(cache := s.cache[b := u.(refcnt := u.refcnt + 1, waiting := u.waiting + 1)])
    case GetNew(b, junk) =>
      s.(cache := s.cache[b := Buf(false, junk, 1, 1, false, 0, false, false)])
    case Recycle(v, b) =>
      s.(cache := (s.cache - {v})[b := Buf(false, s.cache[v].data, 1, 1, false, 0, false, false)])
    case Lock(b) =>
      var u := s.cache[b];
      s.(cache := s.cache[b := u.(waiting := u.waiting - 1, locked := true)])
    case Fill(b) => s.(cache := s.cache[b := s.cache[b].(data := s.disk[b], valid := true)])
    case Modify(b, data) => s.(cache := s.cache[b := s.cache[b].(data := data, dirty := true, written := false)])
    case LogWrite(b) =>
      var u := s.cache[b].(dirty := false);
      if b in s.logged then s.(cache := s.cache[b := u], stray := s.stray - {b})
      else s.(cache := s.cache[b := u.(refcnt := u.refcnt + 1)], logged := s.logged + {b}, stray := s.stray - {b})
    case Bwrite(b) =>
      s.(disk := s.disk[b := s.cache[b].data], stray := s.stray - {b},
         cache := s.cache[b := s.cache[b].(dirty := false, written := true)])
    case Unpin(b) =>
      var u := s.cache[b];
      s.(cache := s.cache[b := u.(refcnt := u.refcnt - 1)], logged := s.logged - {b})
    case Release(b) =>
      var u := s.cache[b];
      var lost := u.dirty && u.data != s.disk[b];
      s.(cache := s.cache[b := u.(locked := false, leaving := u.leaving + 1, dirty := lost, written := false)],
         contents := s.contents[b := u.data], stray := if lost then s.stray + {b} else s.stray - {b})
    case DropRef(b) =>
      var u := s.cache[b];
      s.(cache := s.cache[b := u.(refcnt := u.refcnt - 1, leaving := u.leaving - 1)])
  }

  ghost predicate IsRun(d: Disk, ss: seq<State>, ls: seq<Label>)
  {
    && |ss| == |ls| + 1 && ss[0] == Init(d)
    && forall i | 0 <= i < |ls| :: Enabled(ss[i], ls[i]) && ss[i+1] == Step(ss[i], ls[i])
  }

  // ---- The invariant ----

  /** Where the current contents of block b are. */
  predicate GoodBlock(s: State, b: nat)
    requires b < |s.disk| == |s.contents|
  {
    && (b in s.stray ==> s.disk[b] != s.contents[b])
    && if b in s.cache then
      var u := s.cache[b];
      && u.refcnt == u.waiting + (if u.locked then 1 else 0) + u.leaving + (if b in s.logged then 1 else 0)
      && (b in s.logged ==> u.valid)
      && (u.written ==> u.locked && u.valid && u.data == s.disk[b])
      && (!u.valid && b !in s.stray ==> s.disk[b] == s.contents[b])
      && (!u.locked && b !in s.stray ==> !u.dirty)
      && (u.valid && !u.locked ==> u.data == s.contents[b])
      // data that are not dirty are on disk or in the log
      && (u.valid && !u.dirty && b !in s.logged ==> u.data == s.disk[b])
    else
      b !in s.logged && (b !in s.stray ==> s.disk[b] == s.contents[b])
  }

  predicate Inv(s: State)
  {
    && |s.disk| == |s.contents|
    && (forall b | b in s.cache :: b < |s.disk|)
    && (forall b | b in s.logged :: b < |s.disk|)
    && forall b: nat | b < |s.disk| :: GoodBlock(s, b)
  }

  lemma StepKeeps(s: State, l: Label)
    requires Inv(s) && Enabled(s, l)
    ensures Inv(Step(s, l))
  {
    var s' := Step(s, l);
    forall b: nat | b < |s'.disk|
      ensures GoodBlock(s', b)
    {
      assert GoodBlock(s, b);
      if l.Recycle? { assert GoodBlock(s, l.victim); }
    }
  }

  lemma {:induction false} RunInv(d: Disk, ss: seq<State>, ls: seq<Label>, i: nat)
    requires IsRun(d, ss, ls) && i <= |ls|
    ensures Inv(ss[i])
  {
    if i > 0 {
      RunInv(d, ss, ls, i - 1);
      StepKeeps(ss[i-1], ls[i-1]);
    }
  }

  /** What a client gets when its bread completes. */
  predicate BreadReturns(s: State, l: Label, b: nat)
  {
    (l == Lock(b) && b in s.cache && s.cache[b].valid) || l == Fill(b)
  }

  /** bread returns the contents last released for its block, except exactly when it has to read
      from disk a block whose last release left a change neither logged nor written. */
  lemma BreadReturnsLastReleased(d: Disk, ss: seq<State>, ls: seq<Label>, i: nat, b: nat)
    requires IsRun(d, ss, ls) && i < |ls| && BreadReturns(ss[i], ls[i], b)
    ensures b in ss[i+1].cache && b < |ss[i+1].contents|
    ensures ss[i+1].cache[b].data == ss[i+1].contents[b] <==> !(ls[i].Fill? && b in ss[i].stray)
  {
    RunInv(d, ss, ls, i);
    assert GoodBlock(ss[i], b);
  }

  /** An unlocked buffer that is newer than the disk is in the log, except exactly when its last
      release left an unlogged change; and what is in the log is pinned, so that no recycling step
      can take it. */
  lemma DirtyIsPinned(d: Disk, ss: seq<State>, ls: seq<Label>, i: nat, b: nat, other: nat)
    requires IsRun(d, ss, ls) && i <= |ls|
    requires b in ss[i].cache && ss[i].cache[b].valid && !ss[i].cache[b].locked
    ensures b < |ss[i].disk|
    ensures (ss[i].cache[b].data != ss[i].disk[b] ==> b in ss[i].logged) <==> (b in ss[i].stray ==> b in ss[i].logged)
    ensures b in ss[i].logged ==> ss[i].cache[b].refcnt > 0 && !Enabled(ss[i], Recycle(b, other))
  {
    RunInv(d, ss, ls, i);
    assert GoodBlock(ss[i], b);
  }

  /** The array is recovered from the disk and the logged buffers alone, for every block but
      exactly those whose last release left an unlogged change. */
  lemma ArrayIsDiskPlusLog(d: Disk, ss: seq<State>, ls: seq<Label>, i: nat, b: nat)
    requires IsRun(d, ss, ls) && i <= |ls| && b < |ss[i].disk|
    requires b in ss[i].cache ==> !ss[i].cache[b].locked
    ensures |ss[i].contents| == |ss[i].disk|
    ensures b in ss[i].logged ==> b in ss[i].cache
    ensures ss[i].contents[b] == (if b in ss[i].logged then ss[i].cache[b].data else ss[i].disk[b]) <==>
            b in ss[i].logged || b !in ss[i].stray
  {
    RunInv(d, ss, ls, i);
    assert GoodBlock(ss[i], b);
  }

  /** brelse of block b whose data were changed from what the disk holds, neither logged nor written. */
  predicate ReleasesUnlogged(s: State, l: Label, b: nat)
  {
    l == Release(b) && b in s.cache && b < |s.disk| && s.cache[b].dirty && s.cache[b].data != s.disk[b]
  }

  /** The steps that decide anew about block b: it is logged, written or released. */
  predicate Decides(l: Label, b: nat)
  {
    l == LogWrite(b) || l == Bwrite(b) || l == Release(b)
  }

  ghost predicate UnloggedSince(ss: seq<State>, ls: seq<Label>, k: nat, i: nat, b: nat)
  {
    && k < i <= |ls| && i < |ss| && ReleasesUnlogged(ss[k], ls[k], b)
    && forall n | k < n < i :: !Decides(ls[n], b)
  }

  /** In every run the stray blocks are exactly those for which the last step that logged, wrote or
      released them was a release of an unlogged change. */
  lemma {:induction false} StrayIff(d: Disk, ss: seq<State>, ls: seq<Label>, i: nat, b: nat)
    requires IsRun(d, ss, ls) && i <= |ls|
    ensures b in ss[i].stray <==> exists k: nat :: UnloggedSince(ss, ls, k, i, b)
  {
    hide ReleasesUnlogged, Decides, Enabled, Step;
    if i > 0 {
      StrayIff(d, ss, ls, i - 1, b);
      StrayStep(ss[i-1], ls[i-1], b);
      if ReleasesUnlogged(ss[i-1], ls[i-1], b) {
        assert UnloggedSince(ss, ls, i - 1, i, b);
      } else if b in ss[i-1].stray && b in ss[i].stray {
        var k: nat :| UnloggedSince(ss, ls, k, i - 1, b);
        assert UnloggedSince(ss, ls, k, i, b);
      }
      forall k: nat | UnloggedSince(ss, ls, k, i, b)
        ensures b in ss[i].stray
      {
        if k < i - 1 { assert UnloggedSince(ss, ls, k, i - 1, b); }
      }
    }
  }

  lemma StrayStep(s: State, l: Label, b: nat)
    requires Enabled(s, l)
    ensures b in Step(s, l).stray <==> ReleasesUnlogged(s, l, b) || (b in s.stray && !Decides(l, b))
  {
  }

  lemma NewRun(d: Disk)
    ensures IsRun(d, [Init(d)], [])
  {
  }

  lemma ExtendRun(d: Disk, ss: seq<State>, ls: seq<Label>, l: Label) returns (ss': seq<State>, ls': seq<Label>)
    requires IsRun(d, ss, ls) && Enabled(ss[|ls|], l)
    ensures IsRun(d, ss', ls') && |ss'| == |ls'| + 1 == |ss| + 1 && ls'[|ls|] == l
    ensures ss'[|ls|] == ss[|ls|] && ss'[|ls'|] == Step(ss[|ls|], l)
  {
    hide Enabled, Step;
    ss', ls' := ss + [Step(ss[|ls|], l)], ls + [l];
    forall i | 0 <= i < |ls'|
      ensures Enabled(ss'[i], ls'[i]) && ss'[i+1] == Step(ss'[i], ls'[i])
    {
      if i < |ls| { assert ls'[i] == ls[i] && ss'[i] == ss[i] && ss'[i+1] == ss[i+1]; }
    }
  }

  /** What stray excludes does happen: a change x of block 0 released unlogged is gone once the
      buffer has been recycled for block 1, and bread returns the old block. */
  lemma StrayIsLost(d: Disk, x: Block) returns (ss: seq<State>, ls: seq<Label>)
    requires |d| >= 2 && x != d[0]
    ensures IsRun(d, ss, ls) && |ls| > 0 && |ss| == |ls| + 1 && BreadReturns(ss[|ls|-1], ls[|ls|-1], 0)
    ensures 0 in ss[|ls|].cache && |ss[|ls|].contents| == |d|
    ensures ss[|ls|].cache[0].data == d[0] && ss[|ls|].contents[0] == x
  {
    hide IsRun;
    ss, ls := StrayReleased(d, x);
    ss, ls := ExtendRun(d, ss, ls, Recycle(0, 1));
    assert ss[|ls|].cache == map[1 := Buf(false, x, 1, 1, false, 0, false, false)];
    ss, ls := ExtendRun(d, ss, ls, GetNew(0, x));
    ss, ls := ExtendRun(d, ss, ls, Lock(0));
    ss, ls := ExtendRun(d, ss, ls, Fill(0));
  }

  lemma StrayReleased(d: Disk, x: Block) returns (ss: seq<State>, ls: seq<Label>)
    requires |d| >= 2 && x != d[0]
    ensures IsRun(d, ss, ls) && |ss| == |ls| + 1
    ensures ss[|ls|] == State(d, map[0 := Buf(true, x, 0, 0, false, 0, true, false)], {}, d[0 := x], {0})
  {
    hide IsRun;
    ss, ls := [Init(d)], [];
    NewRun(d);
    ss, ls := ExtendRun(d, ss, ls, GetNew(0, x));
    ss, ls := ExtendRun(d, ss, ls, Lock(0));
    ss, ls := ExtendRun(d, ss, ls, Fill(0));
    ss, ls := ExtendRun(d, ss, ls, Modify(0, x));
    ss, ls := ExtendRun(d, ss, ls, Release(0));
    ss, ls := ExtendRun(d, ss, ls, DropRef(0));
  }
}
