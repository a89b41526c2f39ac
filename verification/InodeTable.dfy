/** The in-memory inode table of kernel/fs.c under every interleaving of ialloc, iget, idup,
    ilock, iunlock and the three stages of iput, including an inode number that is reallocated
    between iput's iupdate(type = 0) and its final ref--. */
module InodeTable {

  const NINODE: nat := 50

  /** An on-disk inode; typ 0 means free. */
  datatype Dinode = Dinode(typ: nat, nlink: nat, body: nat)

  /** Who holds an entry's sleep lock: a user, or an iput that is freeing the inode, before
      (Freeing) or after (Freed) it wrote type 0 to disk. */
  datatype Lock = Unlocked | User | Freeing | Freed

  datatype Entry = Entry(inum: nat, ref: nat, valid: bool, lock: Lock, ino: Dinode)

  /** users[e] references are held by ordinary clients of entry e; dropping[e] belong to iputs
      that have released the lock and are about to decrement ref; pending[n] clients got inode
      number n from ialloc and have not yet called iget. */
  datatype State = State(
    entries: seq<Entry>, disk: map<nat, Dinode>,
    users: multiset<nat>, dropping: multiset<nat>, pending: multiset<nat>)

  datatype Scan = Hit(e: nat) | Empty(e: nat) | NoInodes

  /** What iget's scan of the table finds. */
  predicate Found(entries: seq<Entry>, inum: nat, r: Scan)
  {
    match r
    case Hit(e) => e < |entries| && entries[e].ref > 0 && entries[e].inum == inum
    case Empty(e) =>
      && e < |entries| && entries[e].ref == 0
      && (forall k | 0 <= k < e :: entries[k].ref > 0)
      && (forall k | 0 <= k < |entries| && entries[k].ref > 0 :: entries[k].inum != inum)
    case NoInodes => forall k | 0 <= k < |entries| :: entries[k].ref > 0 && entries[k].inum != inum
  }

  /** iget's loop: remember the first empty slot, stop at a live entry for inum. */
  method ScanTable(entries: seq<Entry>, inum: nat) returns (r: Scan)
    ensures Found(entries, inum, r)
  {
    var empty := |entries|;
    var k := 0;
    while k < |entries|
      invariant 0 <= k <= |entries|
      invariant forall j | 0 <= j < k && entries[j].ref > 0 :: entries[j].inum != inum
      invariant if empty == |entries| then forall j | 0 <= j < k :: entries[j].ref > 0
                else 0 <= empty < k && entries[empty].ref == 0 && forall j | 0 <= j < empty :: entries[j].ref > 0
    {
      if entries[k].ref > 0 && entries[k].inum == inum {
        return Hit(k);
      }
      if empty == |entries| && entries[k].ref == 0 {
        empty := k;
      }
      k := k + 1;
    }
    r := if empty == |entries| then NoInodes else Empty(empty);
  }

  /** With at most one live entry per inode number the scan's answer is unique. */
  lemma FoundUnique(entries: seq<Entry>, inum: nat, r: Scan, r': Scan)
    requires Found(entries, inum, r) && Found(entries, inum, r')
    requires forall i, j | 0 <= i < j < |entries| && entries[i].ref > 0 && entries[j].ref > 0 ::
               entries[i].inum != entries[j].inum
    ensures r == r'
  {
  }

  datatype Label =
    | Ialloc(inum: nat, typ: nat, body: nat)
    | IgetAlloc(inum: nat, r: Scan)
    | IgetLookup(inum: nat, r: Scan)
    | Idup(e: nat)
    | Lock(e: nat)
    | Load(e: nat)
    | Update(e: nat, ino: Dinode)
    | Iunlock(e: nat)
    | IputDecrement(e: nat)
    | IputStartFree(e: nat)
    | IputWriteFree(e: nat)
    | IputUnlock(e: nat)
    | IputDrop(e: nat)

  /** iput's test under itable.lock. */
  predicate LastUse(n: Entry)
  {
    n.ref == 1 && n.valid && n.ino.nlink == 0
  }

  /** A client other than the lock's owner has a reference to e. */
  predicate SpareUser(s: State, e: nat)
  {
    e < |s.entries| && s.users[e] > if s.entries[e].lock == User then 1 else 0
  }

  predicate Enabled(s: State, l: Label)
  {
    match l
    case Ialloc(n, typ, _) => n in s.disk && s.disk[n].typ == 0 && typ != 0
    case IgetAlloc(n, r) => n in s.pending && Found(s.entries, n, r) && !r.NoInodes?
    // a directory entry names n, which its link count records
    case IgetLookup(n, r) =>
      n in s.disk && s.disk[n].nlink > 0 && s.disk[n].typ != 0 && Found(s.entries, n, r) && !r.NoInodes?
    case Idup(e) => e < |s.entries| && e in s.users
    case Lock(e) => SpareUser(s, e) && s.entries[e].lock == Unlocked
    case Load(e) => e < |s.entries| && s.entries[e].lock == User && !s.entries[e].valid && s.entries[e].inum in s.disk
    case Update(e, ino) => e < |s.entries| && s.entries[e].lock == User && s.entries[e].valid && ino.typ != 0
    case Iunlock(e) => e < |s.entries| && s.entries[e].lock == User && s.entries[e].valid
    case IputDecrement(e) => SpareUser(s, e) && !LastUse(s.entries[e]) && s.entries[e].ref > 0
    case IputStartFree(e) => SpareUser(s, e) && LastUse(s.entries[e])
    case IputWriteFree(e) => e < |s.entries| && s.entries[e].lock == Freeing
    case IputUnlock(e) => e < |s.entries| && s.entries[e].lock == Freed
    case IputDrop(e) => e < |s.entries| && e in s.dropping && s.entries[e].ref > 0
  }

  function With(s: State, e: nat, n: Entry): State
    requires e < |s.entries|
  {
    s.(entries := s.entries[e := n])
  }

  /** iget after its scan. */
  function Got(s: State, inum: nat, r: Scan): State
    requires Found(s.entries, inum, r) && !r.NoInodes?
  {
    var n := s.entries[r.e];
    var n' := if r.Hit? then n.(ref := n.ref + 1) else n.(inum := inum, ref := 1, valid := false);
    With(s, r.e, n').(users := s.users + multiset{r.e})
  }

  function Step(s: State, l: Label): State
    requires Enabled(s, l)
  {
    match l
    case Ialloc(n, typ, body) =>
      s.(disk := s.disk[n := Dinode(typ, 0, body)], pending := s.pending + multiset{n})
    case IgetAlloc(n, r) => Got(s, n, r).(pending := s.pending - multiset{n})
    case IgetLookup(n, r) => Got(s, n, r)
    case Idup(e) =>
      With(s, e, s.entries[e].(ref := s.entries[e].ref + 1)).(users := s.users + multiset{e})
    case Lock(e) => With(s, e, s.entries[e].(lock := User))
    case Load(e) => With(s, e, s.entries[e].(ino := s.disk[s.entries[e].inum], valid := true))
    case Update(e, ino) =>
      With(s, e, s.entries[e].(ino := ino)).(disk := s.disk[s.entries[e].inum := ino])
    case Iunlock(e) => With(s, e, s.entries[e].(lock := Unlocked))
    case IputDecrement(e) =>
      With(s, e, s.entries[e].(ref := s.entries[e].ref - 1)).(users := s.users - multiset{e})
    case IputStartFree(e) =>
      With(s, e, s.entries[e].(lock := Freeing)).(users := s.users - multiset{e})
    case IputWriteFree(e) =>
      var n := s.entries[e];
      With(s, e, n.(lock := Freed)).(disk := s.disk[n.inum := n.ino.(typ := 0)])
    case IputUnlock(e) =>
      With(s, e, s.entries[e].(valid := false, lock := Unlocked)).(dropping := s.dropping + multiset{e})
    case IputDrop(e) =>
      With(s, e, s.entries[e].(ref := s.entries[e].ref - 1)).(dropping := s.dropping - multiset{e})
  }

  /** The empty table over any disk. */
  predicate Init(s: State)
  {
    && |s.entries| == NINODE
    && (forall e | 0 <= e < NINODE :: s.entries[e].ref == 0 && s.entries[e].lock == Unlocked)
    && s.users == multiset{} && s.dropping == multiset{} && s.pending == multiset{}
  }

  ghost predicate IsRun(ss: seq<State>, ls: seq<Label>)
  {
    && |ss| == |ls| + 1 && Init(ss[0])
    && forall i | 0 <= i < |ls| :: Enabled(ss[i], ls[i]) && ss[i+1] == Step(ss[i], ls[i])
  }

  // ---- The invariant ----

  /** One entry's books: ref counts its references, live entries name allocated inodes that
      they agree with, and a freeing iput is alone. */
  predicate GoodEntry(s: State, e: nat)
    requires e < |s.entries|
  {
    var n := s.entries[e];
    && n.ref == s.users[e] + s.dropping[e] + (if n.lock == Freeing || n.lock == Freed then 1 else 0)
    && (n.ref > 0 ==> n.inum in s.disk)
    && (s.users[e] > 0 ==> s.disk[n.inum].typ != 0)
    && (n.ref > 0 && n.valid && n.lock != Freed ==> n.ino == s.disk[n.inum] && n.ino.typ != 0)
    && (n.lock == User ==> s.users[e] > 0)
    && (n.lock == Freeing ==> n.ref == 1 && n.valid && n.ino.nlink == 0)
    && (n.ref > 0 && n.inum in s.pending ==>
          s.users[e] == 0 && n.lock != Freeing && (n.lock == Unlocked ==> !n.valid))
  }

  predicate Unique(s: State)
  {
    forall i, j | 0 <= i < j < |s.entries| && s.entries[i].ref > 0 && s.entries[j].ref > 0 ::
      s.entries[i].inum != s.entries[j].inum
  }

  predicate Inv(s: State)
  {
    && |s.entries| == NINODE
    && (forall e: nat | e < |s.entries| :: GoodEntry(s, e))
    && Unique(s)
    && (forall n | n in s.pending :: s.pending[n] == 1 && n in s.disk && s.disk[n].typ != 0 && s.disk[n].nlink == 0)
  }

  /** A step confined to entry k and its own reference counts. */
  lemma LocalKeeps(s: State, t: State, k: nat)
    requires Inv(s) && k < |s.entries| == |t.entries|
    requires t.entries == s.entries[k := t.entries[k]] && t.disk == s.disk && t.pending == s.pending
    requires forall e: nat | e != k :: t.users[e] == s.users[e] && t.dropping[e] == s.dropping[e]
    requires GoodEntry(t, k)
    requires t.entries[k].ref > 0 ==> s.entries[k].ref > 0 && t.entries[k].inum == s.entries[k].inum
    ensures Inv(t)
  {
    forall e: nat | e < |t.entries|
      ensures GoodEntry(t, e)
    {
      assert GoodEntry(s, e);
    }
  }

  /** A step that rewrites the disk inode of live entry k. */
  lemma DiskKeeps(s: State, t: State, k: nat, ino: Dinode)
    requires Inv(s) && k < |s.entries| == |t.entries| && s.entries[k].ref > 0
    requires t.entries == s.entries[k := t.entries[k]] && t.entries[k].inum == s.entries[k].inum && t.entries[k].ref > 0
    requires t.disk == s.disk[s.entries[k].inum := ino] && t.users == s.users && t.dropping == s.dropping
    requires t.pending == s.pending
    requires s.entries[k].inum !in s.pending && GoodEntry(t, k)
    ensures Inv(t)
  {
    forall e: nat | e < |t.entries|
      ensures GoodEntry(t, e)
    {
      assert GoodEntry(s, e);
    }
  }

  lemma IallocKeeps(s: State, n: nat, typ: nat, body: nat)
    requires Inv(s) && Enabled(s, Ialloc(n, typ, body))
    ensures Inv(Step(s, Ialloc(n, typ, body)))
  {
    var t := Step(s, Ialloc(n, typ, body));
    forall e: nat | e < |t.entries|
      ensures GoodEntry(t, e)
    {
      assert GoodEntry(s, e);
    }
    assert n !in s.pending;
  }

  /** A reference taken by iget, with or without a pending ialloc behind it. */
  lemma GotKeeps(s: State, n: nat, r: Scan, pending: multiset<nat>)
    requires Inv(s) && Found(s.entries, n, r) && !r.NoInodes? && n in s.disk && s.disk[n].typ != 0
    requires pending <= s.pending && pending[n] == 0
    requires n !in s.pending ==> s.disk[n].nlink > 0
    ensures Inv(Got(s, n, r).(pending := pending))
  {
    var t := Got(s, n, r).(pending := pending);
    forall e: nat | e < |t.entries|
      ensures GoodEntry(t, e)
    {
      assert GoodEntry(s, e);
    }
  }

  lemma LockStepKeeps(s: State, l: Label)
    requires Inv(s) && Enabled(s, l) && (l.Idup? || l.Lock? || l.Load? || l.Iunlock?)
    ensures Inv(Step(s, l))
  {
    hide Unique, Found;
    assert GoodEntry(s, l.e);
    LocalKeeps(s, Step(s, l), l.e);
  }

  lemma PutStepKeeps(s: State, l: Label)
    requires Inv(s) && Enabled(s, l) && (l.IputDecrement? || l.IputStartFree? || l.IputUnlock? || l.IputDrop?)
    ensures Inv(Step(s, l))
  {
    hide Unique, Found;
    assert GoodEntry(s, l.e);
    LocalKeeps(s, Step(s, l), l.e);
  }

  lemma WriteStepKeeps(s: State, l: Label)
    requires Inv(s) && Enabled(s, l) && (l.Update? || l.IputWriteFree?)
    ensures Inv(Step(s, l))
  {
    hide Unique, Found;
    assert GoodEntry(s, l.e);
    DiskKeeps(s, Step(s, l), l.e, Step(s, l).disk[s.entries[l.e].inum]);
  }

  lemma StepKeeps(s: State, l: Label)
    requires Inv(s) && Enabled(s, l)
    ensures Inv(Step(s, l))
  {
    hide Inv;
    match l
    case Ialloc(n, typ, body) => IallocKeeps(s, n, typ, body);
    case IgetAlloc(n, r) => IgetAllocKeeps(s, n, r);
    case IgetLookup(n, r) => IgetLookupKeeps(s, n, r);
    case Update(_, _) => WriteStepKeeps(s, l);
    case IputWriteFree(_) => WriteStepKeeps(s, l);
    case Idup(_) => LockStepKeeps(s, l);
    case Lock(_) => LockStepKeeps(s, l);
    case Load(_) => LockStepKeeps(s, l);
    case Iunlock(_) => LockStepKeeps(s, l);
    case _ => PutStepKeeps(s, l);
  }

  lemma IgetAllocKeeps(s: State, n: nat, r: Scan)
    requires Inv(s) && Enabled(s, IgetAlloc(n, r))
    ensures Inv(Step(s, IgetAlloc(n, r)))
  {
    hide Unique, Found, GoodEntry;
    GotKeeps(s, n, r, s.pending - multiset{n});
  }

  lemma IgetLookupKeeps(s: State, n: nat, r: Scan)
    requires Inv(s) && Enabled(s, IgetLookup(n, r))
    ensures Inv(Step(s, IgetLookup(n, r)))
  {
    hide Unique, Found, GoodEntry;
    GotKeeps(s, n, r, s.pending);
  }

  lemma InitInv(s: State)
    requires Init(s)
    ensures Inv(s)
  {
  }

  lemma {:induction false} RunInv(ss: seq<State>, ls: seq<Label>, i: nat)
    requires IsRun(ss, ls) && i <= |ls|
    ensures Inv(ss[i])
  {
    hide Inv, Enabled, Step;
    if i == 0 {
      InitInv(ss[0]);
    } else {
      RunInv(ss, ls, i - 1);
      StepKeeps(ss[i-1], ls[i-1]);
    }
  }

  /** In every run ref is the number of references to the entry, and an inode number has at
      most one live entry. */
  lemma RefsCountHolders(ss: seq<State>, ls: seq<Label>, i: nat, e: nat)
    requires IsRun(ss, ls) && i <= |ls| && e < |ss[i].entries|
    ensures ss[i].entries[e].ref ==
            ss[i].users[e] + ss[i].dropping[e] + (if ss[i].entries[e].lock in {Freeing, Freed} then 1 else 0)
    ensures forall k: nat | k < |ss[i].entries| && k != e && ss[i].entries[e].ref > 0 && ss[i].entries[k].ref > 0 ::
              ss[i].entries[k].inum != ss[i].entries[e].inum
  {
    RunInv(ss, ls, i);
    assert GoodEntry(ss[i], e);
  }

  /** Whoever locks an entry sees the inode that is on disk now, never a recycled copy, and the
      "ilock: no type" panic cannot happen. */
  lemma IlockSeesDisk(ss: seq<State>, ls: seq<Label>, i: nat, e: nat)
    requires IsRun(ss, ls) && i <= |ls| && Enabled(ss[i], Lock(e))
    ensures ss[i].entries[e].inum in ss[i].disk && ss[i].disk[ss[i].entries[e].inum].typ != 0
    ensures ss[i].entries[e].valid ==> ss[i].entries[e].ino == ss[i].disk[ss[i].entries[e].inum]
  {
    RunInv(ss, ls, i);
    assert GoodEntry(ss[i], e);
  }

  /** When iput decides to free, the sleep lock it takes next is free, so it never blocks there. */
  lemma FreeingNeverBlocks(ss: seq<State>, ls: seq<Label>, i: nat, e: nat)
    requires IsRun(ss, ls) && i <= |ls| && Enabled(ss[i], IputStartFree(e))
    ensures ss[i].entries[e].lock == Unlocked && ss[i].users[e] == 1 && ss[i].dropping[e] == 0
  {
    RunInv(ss, ls, i);
    assert GoodEntry(ss[i], e);
  }

  /** The race itself: while one iput has written type 0 but not yet dropped its reference, a
      client whose ialloc got the same number finds the old entry, and its copy is invalid or
      still under the freer's lock, so its ilock re-reads the fresh inode. */
  lemma RecycledEntryIsReread(ss: seq<State>, ls: seq<Label>, i: nat, n: nat, r: Scan)
    requires IsRun(ss, ls) && i <= |ls| && Enabled(ss[i], IgetAlloc(n, r))
    ensures var t := Step(ss[i], IgetAlloc(n, r));
            && t.entries[r.e].inum == n && n in t.disk && t.disk[n].typ != 0 && t.users[r.e] == 1
            && (t.entries[r.e].lock == Freed || (t.entries[r.e].lock == Unlocked && !t.entries[r.e].valid))
  {
    RunInv(ss, ls, i);
    assert GoodEntry(ss[i], r.e);
  }
}
