/** kernel/kalloc.c and kernel/vm.c: the page allocator and the page-table operations. */
module VirtualMemory {
  import opened Sequences
  import opened PageTable
  import opened UserPages
  import opened AddressSpaces

  /** What mappages came to: all mapped, no page for a table, or the panics on size 0 and on a page
      already mapped. */
  datatype MapResult = AllMapped | NoMemory | NoSize | Remap

  class Kernel {
    var mem: map<nat, Words>
    var freelist: seq<nat>
    ghost var use: map<nat, Use>
    ghost var trees: map<nat, Tree>

    ghost function Img(): Vm
      reads this
    {
      Vm(mem, freelist, use, trees)
    }

    /** kinit: freerange puts every page of the pool on the free list. */
    constructor (ram: map<nat, Words>, first: nat, end: nat)
      requires first <= end && forall p: nat :: p in ram <==> first <= p < end
      ensures Inv(Img()) && trees == map[] && forall p: nat :: p in use <==> first <= p < end
      ensures forall p | p in use :: use[p] == Free && p in freelist
    {
      mem := ram;
      freelist := [];
      use := map p | p in ram :: Held;
      trees := map[];
      new;
      hide Leaf;
      var p := first;
      while p < end
        invariant first <= p <= end && Books(Img()) && Trees(Img()) && trees == map[]
        invariant forall q: nat :: q in use <==> first <= q < end
        invariant forall q: nat | first <= q < end :: use[q] == if q < p then Free else Held
      {
        Kfree(p);
        p := p + 1;
      }
    }

    /** Take a page off the free list and fill it with junk; nothing when the list is empty. */
    method Kalloc() returns (ok: bool, p: nat)
      requires Books(Img()) && Trees(Img())
      modifies this`mem, this`freelist, this`use
      ensures Books(Img()) && Trees(Img()) && LeavesSame(old(Img()), Img())
      ensures ok == (old(freelist) != [])
      ensures !ok ==> Img() == old(Img())
      ensures ok ==> p == old(freelist)[0] && p in mem && Img() == Popped(old(Img()), mem[p])
    {
      hide Leaf, Trees, Books;
      ok := freelist != [];
      p := 0;
      if ok {
        PopKeeps(Img(), seq(512, _ => 0x0505_0505_0505_0505));
        p := freelist[0];
        freelist := freelist[1..];
        mem := mem[p := seq(512, _ => 0x0505_0505_0505_0505)];
        use := use[p := Held];
      }
    }

    /** Put a page back on the free list, filled with junk. */
    method Kfree(p: nat)
      requires Books(Img()) && Trees(Img()) && p in use && (use[p].Held? || use[p].Page?)
      modifies this`mem, this`freelist, this`use
      ensures Books(Img()) && Trees(Img()) && LeavesSame(old(Img()), Img())
      ensures p in mem && Img() == Pushed(old(Img()), p, mem[p])
    {
      hide Leaf, Trees, Books;
      PushKeeps(Img(), p, seq(512, _ => 0x0101_0101_0101_0101));
      mem := mem[p := seq(512, _ => 0x0101_0101_0101_0101)];
      freelist := [p] + freelist;
      use := use[p := Free];
    }

    /** walk at level 2: the second-level table for index a. */
    method WalkRoot(root: nat, a: nat, alloc: bool) returns (ok: bool, page: nat)
      requires Books(Img()) && Trees(Img()) && TreeOk(Img(), root) && a < HALF
      modifies this`mem, this`freelist, this`use, this`trees
      ensures Books(Img()) && Trees(Img()) && TreeOk(Img(), root)
      ensures LeavesSame(old(Img()), Img()) && Grown(old(Img()), Img(), root)
      ensures ok ==> a in trees[root].mids && trees[root].mids[a] == page
      ensures !ok ==> Img() == old(Img()) && a !in trees[root].mids && (!alloc || freelist == [])
      ensures |old(freelist)| <= |freelist| + 1
      ensures !alloc ==> Img() == old(Img())
    {
      hide TreeOk, Trees, Books, Leaf, Valid, Ppn, Pte, LeavesSame, Grown;
      RootEntry(Img(), root, a);
      NothingGrown(Img(), root);
      if Valid(mem[root][a]) {
        return true, Ppn(mem[root][a]);
      }
      if !alloc {
        return false, 0;
      }
      ghost var vm := Img();
      ok, page := Kalloc();
      if ok {
        ghost var junk := mem[page];
        GrowMid(vm, root, a, junk);
        mem := mem[page := Zeros()];
        mem := mem[root := mem[root][a := Pte(page, PTE_V)]];
        use := use[page := Table(root, Mid(a))];
        trees := trees[root := trees[root].(mids := trees[root].mids[a := page])];
        MidGrownIs(vm, Img(), root, a, junk);
      }
    }

    /** walk at level 1: the third-level table for indices a, b. */
    method WalkMid(root: nat, a: nat, table: nat, b: nat, alloc: bool) returns (ok: bool, page: nat)
      requires Books(Img()) && Trees(Img()) && TreeOk(Img(), root) && b < ENTRIES
      requires a in trees[root].mids && trees[root].mids[a] == table
      modifies this`mem, this`freelist, this`use, this`trees
      ensures Books(Img()) && Trees(Img()) && TreeOk(Img(), root)
      ensures LeavesSame(old(Img()), Img()) && Grown(old(Img()), Img(), root)
      ensures ok ==> (a, b) in trees[root].lows && trees[root].lows[(a, b)] == page
      ensures !ok ==> Img() == old(Img()) && (a, b) !in trees[root].lows && (!alloc || freelist == [])
      ensures |old(freelist)| <= |freelist| + 1
      ensures !alloc ==> Img() == old(Img())
    {
      hide TreeOk, Trees, Books, Leaf, Valid, Ppn, Pte, LeavesSame, Grown;
      MidEntry(Img(), root, a, b);
      RootEntry(Img(), root, 0);
      NothingGrown(Img(), root);
      if Valid(mem[table][b]) {
        return true, Ppn(mem[table][b]);
      }
      if !alloc {
        return false, 0;
      }
      ghost var vm := Img();
      ok, page := Kalloc();
      if ok {
        ghost var junk := mem[page];
        GrowLow(vm, root, a, b, junk);
        mem := mem[page := Zeros()];
        mem := mem[table := mem[table][b := Pte(page, PTE_V)]];
        use := use[page := Table(root, Low(a, b))];
        trees := trees[root := trees[root].(lows := trees[root].lows[(a, b) := page])];
        LowGrownIs(vm, Img(), root, a, b, junk);
      }
    }

    /** The third-level table holding the PTE of page v, with any missing tables allocated when
        alloc says so. Tables allocated before a failure stay, linked into this tree alone. */
    method Walk(root: nat, v: nat, alloc: bool) returns (ok: bool, page: nat)
      requires Books(Img()) && Trees(Img()) && TreeOk(Img(), root) && v < MAXVPN
      modifies this`mem, this`freelist, this`use, this`trees
      ensures Books(Img()) && Trees(Img()) && TreeOk(Img(), root)
      ensures LeavesSame(old(Img()), Img()) && Grown(old(Img()), Img(), root)
      ensures ok ==> HasLow(Img(), root, v) && page == trees[root].lows[(Px(2, v), Px(1, v))]
      ensures !ok ==> !HasLow(Img(), root, v) && (!alloc || (freelist == [] && |old(freelist)| <= 1))
      ensures |old(freelist)| <= |freelist| + 2
      ensures !alloc ==> Img() == old(Img())
    {
      hide TreeOk, Trees, Books, LeavesSame, Grown, Px;
      RootEntry(Img(), root, 0);
      NothingGrown(Img(), root);
      PxHalf(v);
      page := root;
      var level := 2;
      while level > 0
        invariant 0 <= level <= 2 && |old(freelist)| <= |freelist| + 2 - level
        invariant Books(Img()) && Trees(Img()) && TreeOk(Img(), root) && root in trees
        invariant LeavesSame(old(Img()), Img()) && Grown(old(Img()), Img(), root)
        invariant level == 1 ==> Px(2, v) in trees[root].mids && trees[root].mids[Px(2, v)] == page
        invariant level == 0 ==>
                    (Px(2, v), Px(1, v)) in trees[root].lows && trees[root].lows[(Px(2, v), Px(1, v))] == page
        invariant !alloc ==> Img() == old(Img())
      {
        ghost var vm := Img();
        if level == 2 {
          ok, page := WalkRoot(root, Px(2, v), alloc);
        } else {
          ok, page := WalkMid(root, Px(2, v), page, Px(1, v), alloc);
        }
        LeavesSameTwice(old(Img()), vm, Img());
        GrownTwice(old(Img()), vm, Img(), root);
        if !ok {
          NoLow(Img(), root, v);
          return;
        }
        level := level - 1;
      }
      LowInMem(Img(), root, v);
      ok := true;
    }

    /** Map pages v.. of root, n of them, to physical pages p.. with perm; `done` of them were
        mapped when it ended, at the first page already mapped or without a page for a table. */
    method Mappages(root: nat, v: nat, n: nat, p: nat, perm: nat) returns (r: MapResult, ghost done: nat)
      requires Books(Img()) && Trees(Img()) && TreeOk(Img(), root) && v + n <= MAXVPN && perm < 1024
      modifies this`mem, this`freelist, this`use, this`trees
      ensures Books(Img()) && Trees(Img()) && TreeOk(Img(), root) && Grown(old(Img()), Img(), root)
      ensures root in old(trees) && Mapping(old(Img()), Img(), root, v, done, p, perm) && done <= n
      ensures forall w: nat | v <= w < v + done :: !Valid(Leaf(old(Img()), root, w))
      ensures (r == NoSize <==> n == 0) && (r == AllMapped <==> 0 < done == n)
      ensures r == NoMemory ==> freelist == [] && |old(freelist)| < 2 * (done + 1)
      ensures |old(freelist)| <= |freelist| + 2 * n
      ensures r == Remap ==> Valid(Leaf(old(Img()), root, v + done))
    {
      hide Leaf, Px, Pte, OrV, Valid, Books, Trees, TreeOk, Grown, Mapping, LeavesSame, LeafStored;
      ghost var vm := Img();
      RootEntry(vm, root, 0);
      NothingMapped(vm, root, v, p, perm);
      NothingGrown(vm, root);
      done := 0;
      if n == 0 {
        return NoSize, 0;
      }
      var a := v;
      while a < v + n
        invariant v <= a <= v + n && done == a - v && root in trees
        invariant Books(Img()) && Trees(Img()) && TreeOk(Img(), root) && Grown(vm, Img(), root)
        invariant Mapping(vm, Img(), root, v, done, p, perm) && |old(freelist)| <= |freelist| + 2 * done
        invariant forall w: nat | v <= w < a :: !Valid(Leaf(vm, root, w))
      {
        ghost var vm1 := Img();
        var found, page := Walk(root, a, true);
        GrownTwice(vm, vm1, Img(), root);
        MappingThenSame(vm, vm1, Img(), root, v, done, p, perm);
        if !found {
          return NoMemory, done;
        }
        ghost var vm2 := Img();
        StillUnmapped(vm, vm2, root, v, done, p, perm);
        if Valid(mem[page][Px(0, a)]) {
          return Remap, done;
        }
        mem := mem[page := mem[page][Px(0, a) := Pte(p + (a - v), OrV(perm))]];
        LeafSetIs(vm2, Img(), root, a, Pte(p + done, OrV(perm)));
        StoreKeeps(vm2, Img(), root, a, Pte(p + done, OrV(perm)));
        MappingStep(vm, vm1, vm2, Img(), root, v, done, p, perm);
        GrownTwice(vm, vm2, Img(), root);
        a := a + 1;
        done := done + 1;
      }
      r := AllMapped;
    }

    /** Remove the mappings of pages v.. of root, n of them: user pages are freed; the two pages
        above user memory are only unmapped. Stops with the panic at the first page without a
        mapping to remove, `done` pages in. */
    method Uvmunmap(root: nat, v: nat, n: nat, do_free: bool) returns (panic: bool, ghost done: nat)
      requires Inv(Img()) && TreeOk(Img(), root) && v + n <= MAXVPN
      requires if do_free then v + n <= USERTOP else USERTOP <= v
      modifies this`mem, this`freelist, this`use, this`trees
      ensures Inv(Img()) && TreeOk(Img(), root) && root in old(trees)
      ensures done <= n && (panic <==> done < n)
      ensures forall w: nat | v <= w < v + done :: Removable(Leaf(old(Img()), root, w))
      ensures panic ==> !Removable(Leaf(old(Img()), root, v + done))
      ensures Released(old(Img()), Img(), root, v, done) && Unmapping(old(Img()), Img(), root, v, done)
    {
      hide Leaf, Px, Ppn, Valid, Flags, Books, Trees, TreeOk, DataOk, Released, Unmapping;
      hide LeafStored, LeavesSame, Grown, Removable;
      ghost var vm := Img();
      RootEntry(vm, root, 0);
      NothingReleased(vm, root, v);
      NothingMapped(vm, root, v, 0, 0);
      var a := v;
      while a < v + n
        invariant v <= a <= v + n && root in trees
        invariant Inv(Img()) && TreeOk(Img(), root)
        invariant Released(vm, Img(), root, v, a - v) && Unmapping(vm, Img(), root, v, a - v)
        invariant forall w: nat | v <= w < a :: Removable(Leaf(vm, root, w))
      {
        ghost var vm1 := Img();
        StillThere(vm, vm1, root, v, a - v, a);
        var found, page := Walk(root, a, false);
        WalkedLeaf(vm1, root, a);
        if !found {
          return true, a - v;
        }
        RemovableIs(mem[page][Px(0, a)]);
        if !Valid(mem[page][Px(0, a)]) || Flags(mem[page][Px(0, a)]) == PTE_V {
          return true, a - v;
        }
        if do_free {
          UserLeafOf(vm1, root, a);
          DropTarget(vm1, root, a);
          Kfree(Ppn(mem[page][Px(0, a)]));
        }
        ghost var vm2 := Img();
        mem := mem[page := mem[page][Px(0, a) := 0]];
        LeafSetIs(vm2, Img(), root, a, 0);
        if do_free {
          ReleasedStep(vm, vm1, Img(), root, v, a - v, vm2.mem[Ppn(Leaf(vm1, root, a))]);
        } else {
          ClearStep(vm, vm1, Img(), root, v, a - v);
        }
        UnmappingTwice(vm, vm1, Img(), root, v, a - v);
        a := a + 1;
      }
      panic, done := false, n;
    }

    /** kalloc a page, fill it and map it as user page a; on failure the page goes back. */
    method AddPage(root: nat, a: nat, fill: Words, perm: nat) returns (ok: bool)
      requires Inv(Img()) && TreeOk(Img(), root) && a < USERTOP && root in trees && Leaf(Img(), root, a) == 0
      requires perm < 1024 && IsLeaf(OrV(perm))
      modifies this`mem, this`freelist, this`use, this`trees
      ensures Inv(Img()) && TreeOk(Img(), root)
      ensures ok ==> Added(old(Img()), Img(), root, a, [fill], [perm])
      ensures !ok ==> Grown(old(Img()), Img(), root) && LeavesSame(old(Img()), Img())
      // a failure means that memory ran out on the way: a page and two tables are the most it takes
      ensures !ok ==> |freelist| <= 1 && |old(freelist)| < 3
      ensures |old(freelist)| <= |freelist| + 3
    {
      hide Leaf, Trees, Books, TreeOk, DataOk, Added, Grown, LeavesSame, Mapping, OrV, IsLeaf, Valid;
      ghost var vm := Img();
      NothingGrown(vm, root);
      var got, p := Kalloc();
      if !got {
        return false;
      }
      mem := mem[p := fill];
      assert Img() == Popped(vm, fill);
      PopKeeps(vm, fill);
      PopTreeOk(vm, root, fill);
      ZeroIsInvalid();
      var mapped, done := Mappages(root, a, 1, p, perm);
      assert mapped == AllMapped || mapped == NoMemory;
      ghost var vm2 := Img();
      if mapped != AllMapped {
        StillHeld(vm, vm2, root, fill);
        Kfree(p);
        AddFailed(vm, vm2, Img(), root, a, fill, perm, mem[p]);
        return false;
      }
      use := use[p := Page(root, a)];
      AddedOne(vm, vm2, Img(), root, a, fill, perm);
      ok := true;
    }

    /** Free user pages so that a process of oldsz bytes shrinks to newsz bytes. */
    method Uvmdealloc(root: nat, oldsz: nat, newsz: nat) returns (sz: nat)
      requires Inv(Img()) && TreeOk(Img(), root) && Sized(Img(), root, Npages(oldsz))
      modifies this`mem, this`freelist, this`use, this`trees
      ensures Inv(Img()) && TreeOk(Img(), root)
      ensures newsz >= oldsz ==> sz == oldsz && Img() == old(Img())
      ensures newsz < oldsz ==>
                && sz == newsz && Sized(Img(), root, Npages(newsz)) && Npages(newsz) <= Npages(oldsz)
                && Released(old(Img()), Img(), root, Npages(newsz), Npages(oldsz) - Npages(newsz))
                && Unmapping(old(Img()), Img(), root, Npages(newsz), Npages(oldsz) - Npages(newsz))
    {
      hide Leaf, Trees, Books, TreeOk, DataOk, Released, Unmapping;
      if newsz >= oldsz {
        return oldsz;
      }
      ghost var vm := Img();
      NothingReleased(vm, root, Npages(newsz));
      NothingMapped(vm, root, Npages(newsz), 0, 0);
      if Npages(newsz) < Npages(oldsz) {
        var n := Npages(oldsz) - Npages(newsz);
        UserRemovable(vm, root, Npages(newsz), n);
        var panic, done := Uvmunmap(root, Npages(newsz), n, true);
        assert !panic;
      }
      UnmappedSized(vm, Img(), root, Npages(oldsz), Npages(newsz));
      sz := newsz;
    }

    /** Grow a process from oldsz to newsz bytes with zeroed pages, or fail with 0 and every
        data page back on the free list and every PTE as it was. */
    method Uvmalloc(root: nat, oldsz: nat, newsz: nat, xperm: nat) returns (sz: nat)
      requires Inv(Img()) && TreeOk(Img(), root) && Sized(Img(), root, Npages(oldsz)) && |use| < USERTOP
      requires xperm in {0, PTE_W, PTE_X, PTE_W + PTE_X}
      modifies this`mem, this`freelist, this`use, this`trees
      ensures Inv(Img()) && TreeOk(Img(), root)
      ensures newsz < oldsz ==> sz == oldsz && Img() == old(Img())
      ensures newsz >= oldsz ==> sz == newsz || sz == 0
      ensures newsz >= oldsz && sz != 0 ==>
                && Sized(Img(), root, Npages(newsz))
                && var n := Npages(newsz) - Npages(oldsz);
                   && n >= 0
                   && Added(old(Img()), Img(), root, Npages(oldsz),
                            seq(n, _ => Zeros()), seq(n, _ => PTE_R + PTE_U + xperm))
      ensures newsz >= oldsz && sz == 0 && newsz > 0 ==>
                && Sized(Img(), root, Npages(oldsz))
                && Grown(old(Img()), Img(), root) && LeavesSame(old(Img()), Img())
                && |old(freelist)| < 3 * (Npages(newsz) - Npages(oldsz))
    {
      hide Leaf, Trees, Books, TreeOk, DataOk, Added, Grown, LeavesSame, Sized, IsLeaf, OrV, Released, Unmapping;
      if newsz < oldsz {
        return oldsz;
      }
      ghost var vm := Img();
      var n0 := Npages(oldsz);
      var perm := PTE_R + PTE_U + xperm;
      SizedHas(vm, root, n0);
      NothingAdded(vm, root, n0);
      ghost var fills, perms := [], [];
      var a := n0;
      while a * PGSIZE < newsz
        invariant n0 <= a <= Npages(newsz) && |fills| == |perms| == a - n0
        invariant forall i | 0 <= i < |fills| :: fills[i] == Zeros() && perms[i] == perm
        invariant Inv(Img()) && TreeOk(Img(), root) && use.Keys == old(use.Keys)
        invariant a <= USERTOP && Added(vm, Img(), root, n0, fills, perms)
        invariant |old(freelist)| <= |freelist| + 3 * (a - n0)
        decreases Npages(newsz) - a
      {
        ghost var vm1 := Img();
        AddedKeys(vm, vm1, root, n0, fills, perms);
        GrowRoom(vm, vm1, root, n0, fills, perms);
        assert IsLeaf(OrV(perm)) by { UserPermLeaf(xperm); }
        var ok := AddPage(root, a, Zeros(), perm);
        if !ok {
          ghost var vm2 := Img();
          GrownAdds(vm, vm1, vm2, root, n0, fills, perms);
          AddedSized(vm, vm2, root, n0, fills, perms);
          NothingReleased(vm2, root, n0);
          AddedKeys(vm, vm2, root, n0, fills, perms);
          NothingMapped(vm2, root, n0, 0, 0);
          sz := Uvmdealloc(root, a * PGSIZE, n0 * PGSIZE);
          UnusedAbove(vm, root, n0, a - n0);
          AddedThenReleased(vm, vm2, Img(), root, n0, fills, perms);
          SameSized(vm, Img(), root, n0);
          return 0;
        }
        AddedStep(vm, vm1, Img(), root, n0, fills, perms, Zeros(), perm);
        AddedKeys(vm, Img(), root, n0, fills + [Zeros()], perms + [perm]);
        fills, perms := fills + [Zeros()], perms + [perm];
        a := a + 1;
      }
      AddedSized(vm, Img(), root, n0, fills, perms);
      assert fills == seq(a - n0, _ => Zeros()) && perms == seq(a - n0, _ => PTE_R + PTE_U + xperm);
      sz := newsz;
    }

    /** Recursively free the table p, of role `at` in the dead tree t, and all tables below it. */
    method Freewalk(p: nat, ghost t: Tree, ghost root: nat, ghost roles: map<nat, Role>, ghost at: Role)
      requires Books(Img()) && Trees(Img()) && RolesOk(t, root, roles) && p in roles && roles[p] == at
      requires Intact(Img(), t, roles, at, 0) && p in mem && TableWords(mem[p], t, at)
      modifies this`mem, this`freelist, this`use
      ensures Books(Img()) && Trees(Img()) && LeavesSame(old(Img()), Img())
      ensures FreedAll(old(Img()), Img(), roles, at)
      decreases Level(at)
    {
      hide Books, Trees, Leaf, LeavesSame, RolesOk, Valid, IsLeaf, Ppn, FreedTo, FreedAll, TableWords, Intact;
      ghost var vm := Img();
      OneOfRole(t, root, roles, p);
      TopHeld(vm, t, roles, at, p);
      FreedStart(vm, roles, at, p);
      SameAsSelf(vm);
      var i := 0;
      while i < ENTRIES
        invariant 0 <= i <= ENTRIES && p in mem && p in use && use[p].Held?
        invariant Books(Img()) && Trees(Img()) && LeavesSame(vm, Img())
        invariant FreedTo(vm, Img(), roles, at, i, p)
        invariant forall j | i <= j < ENTRIES :: mem[p][j] == vm.mem[p][j]
      {
        ghost var vm1 := Img();
        EntryIs(t, root, roles, at, i, vm.mem[p]);
        if Valid(mem[p][i]) && !IsLeaf(mem[p][i]) {
          var child := Ppn(mem[p][i]);
          ZeroIsInvalid();
          KidIntact(vm, vm1, t, roles, at, i, p);
          Freewalk(child, t, root, roles, Kid(at, i));
          ghost var vm2 := Img();
          LeavesSameTwice(vm, vm1, vm2);
          KidElsewhere(vm1, vm2, roles, at, i, p);
          mem := mem[p := mem[p][i := 0]];
          HeldStore(vm2, Img(), p);
          LeavesSameTwice(vm, vm2, Img());
          FreedKid(vm, vm1, vm2, Img(), t, root, roles, at, i, p);
        } else {
          FreedNone(vm, vm1, roles, at, i, p);
        }
        i := i + 1;
      }
      ghost var vm1 := Img();
      Kfree(p);
      LeavesSameTwice(vm, vm1, Img());
      EntriesBounded(t, root, roles, at);
      FreedWhole(vm, vm1, Img(), roles, at, p, mem[p]);
    }

    /** Free the user pages of a process of sz bytes, then all its tables. */
    method Uvmfree(root: nat, sz: nat)
      requires Inv(Img()) && TreeOk(Img(), root) && Sized(Img(), root, Npages(sz))
      requires forall v: nat | USERTOP <= v < MAXVPN :: Leaf(Img(), root, v) == 0
      modifies this`mem, this`freelist, this`use, this`trees
      ensures Inv(Img()) && SpaceFreed(old(Img()), Img(), root)
    {
      hide Leaf, Books, Trees, TreeOk, DataOk, Released, Unmapping, LeavesSame;
      hide RolesOk, Intact, FreedAll, TableWords, SpaceFreed;
      ghost var vm := Img();
      NothingReleased(vm, root, 0);
      NothingMapped(vm, root, 0, 0, 0);
      if sz > 0 {
        UserRemovable(vm, root, 0, Npages(sz));
        var panic, done := Uvmunmap(root, 0, Npages(sz), true);
        assert !panic;
      }
      ghost var vm1 := Img();
      AllClear(vm, vm1, root, Npages(sz));
      RootEntry(vm1, root, 0);
      DoomKeeps(vm1, root);
      ghost var t, roles := trees[root], RolesOfTree(vm1, root);
      use, trees := Doomed(vm1, root).use, Doomed(vm1, root).trees;
      assert Img() == Doomed(vm1, root);
      Freewalk(root, t, root, roles, Root);
      FreeEnd(vm, vm1, Img(), root, Npages(sz));
    }

    /** An empty page table. */
    method Uvmcreate() returns (ok: bool, root: nat)
      requires Inv(Img())
      modifies this`mem, this`freelist, this`use, this`trees
      ensures Inv(Img()) && ok == (old(freelist) != [])
      ensures !ok ==> Img() == old(Img())
      ensures ok ==> |old(freelist)| == |freelist| + 1
      ensures ok ==>
                && Since(old(Img()), Img(), root) && TreeOk(Img(), root) && root in trees
                && forall v: nat :: Leaf(Img(), root, v) == 0
    {
      hide Leaf, Books, Trees, TreeOk, DataOk, Since;
      ghost var vm := Img();
      ok, root := Kalloc();
      if ok {
        ghost var junk := mem[root];
        mem := mem[root := Zeros()];
        use := use[root := Table(root, Root)];
        trees := trees[root := Tree(map[], map[])];
        SinceCreated(vm, Img(), junk);
      }
    }

    /** Copy the pages of the first sz bytes of one address space into another, empty one: the
        same words and flags on fresh pages, or false and only tables added. */
    method Uvmcopy(from: nat, to: nat, sz: nat) returns (ok: bool)
      requires Inv(Img()) && TreeOk(Img(), from) && TreeOk(Img(), to) && from != to && from in trees
      requires Sized(Img(), from, Npages(sz)) && Sized(Img(), to, 0)
      modifies this`mem, this`freelist, this`use, this`trees
      ensures Inv(Img()) && TreeOk(Img(), to)
      ensures ok ==> Sized(Img(), to, Npages(sz))
      ensures ok ==> Added(old(Img()), Img(), to, 0, SpaceWords(old(Img()), from, Npages(sz)),
                           SpaceFlags(old(Img()), from, Npages(sz)))
      ensures !ok ==> Grown(old(Img()), Img(), to) && LeavesSame(old(Img()), Img())
      ensures !ok ==> |old(freelist)| < 3 * Npages(sz)
    {
      hide Leaf, Px, Ppn, Flags, Books, Trees, TreeOk, DataOk, Added, Grown, LeavesSame, Sized, IsLeaf, OrV;
      hide Released, Unmapping, SpaceWords, SpaceFlags;
      ghost var vm := Img();
      var n := Npages(sz);
      SizedHas(vm, from, n);
      SizedHas(vm, to, 0);
      ghost var words, flags := SpaceWords(vm, from, n), SpaceFlags(vm, from, n);
      NothingAdded(vm, to, 0);
      var i := 0;
      while i * PGSIZE < sz
        invariant 0 <= i <= n && Inv(Img()) && TreeOk(Img(), to)
        invariant Added(vm, Img(), to, 0, words[..i], flags[..i]) && |old(freelist)| <= |freelist| + 3 * i
        decreases n - i
      {
        ghost var vm1 := Img();
        CopyReady(vm, vm1, from, to, n, i);
        LeafHasLow(vm1, from, i);
        var found, page := Walk(from, i, false);
        var pte := mem[page][Px(0, i)];
        var added := AddPage(to, i, mem[Ppn(pte)], Flags(pte));
        if !added {
          ghost var vm2 := Img();
          GrownAdds(vm, vm1, vm2, to, 0, words[..i], flags[..i]);
          AddedSized(vm, vm2, to, 0, words[..i], flags[..i]);
          AddedMapped(vm, vm2, to, words[..i], flags[..i]);
          UserRemovable(vm2, to, 0, i);
          var panic, done := Uvmunmap(to, 0, i, true);
          assert !panic;
          UnusedAbove(vm, to, 0, i);
          AddedThenReleased(vm, vm2, Img(), to, 0, words[..i], flags[..i]);
          return false;
        }
        AddedStep(vm, vm1, Img(), to, 0, words[..i], flags[..i], words[i], flags[i]);
        assert words[..i] + [words[i]] == words[..i + 1] && flags[..i] + [flags[i]] == flags[..i + 1];
        i := i + 1;
      }
      assert words[..i] == words && flags[..i] == flags;
      AddedSized(vm, Img(), to, 0, words, flags);
      ok := true;
    }

    /** proc_pagetable's way out: the new page table, with nothing mapped, is freed again. */
    method DropPagetable(root: nat, ghost vm: Vm)
      requires Inv(vm) && Inv(Img()) && TreeOk(Img(), root) && Since(vm, Img(), root)
      requires Sized(Img(), root, 0) && TopPages(Img(), root, 0, 0)
      modifies this`mem, this`freelist, this`use, this`trees
      ensures Inv(Img()) && Restored(vm, Img())
    {
      hide Leaf, Books, Trees, TreeOk, DataOk, Since, SpaceFreed, TopPages, Sized;
      ghost var vm1 := Img();
      TopsClear(vm1, root);
      Uvmfree(root, 0);
      SinceFreed(vm, vm1, Img(), root);
    }

    /** A page table with the trampoline and the trapframe page and no user memory. */
    method ProcPagetable(tf: nat, trampoline: nat) returns (ok: bool, root: nat)
      requires Inv(Img())
      modifies this`mem, this`freelist, this`use, this`trees
      ensures Inv(Img())
      ensures !ok ==> Restored(old(Img()), Img()) && |old(freelist)| < 5
      ensures ok ==> |old(freelist)| <= |freelist| + 5
      ensures ok ==>
                && Since(old(Img()), Img(), root) && TreeOk(Img(), root) && Sized(Img(), root, 0)
                && TopPages(Img(), root, Pte(tf, OrV(PTE_R + PTE_W)), Pte(trampoline, OrV(PTE_R + PTE_X)))
    {
      hide Leaf, Books, Trees, TreeOk, DataOk, Since, TopPages, Sized, Pte, OrV, Valid;
      hide Grown, Mapping, Released, Unmapping;
      ghost var vm := Img();
      ok, root := Uvmcreate();
      if !ok {
        NothingRestored(vm);
        return;
      }
      ghost var vm1 := Img();
      EmptySpace(vm1, root);
      ZeroIsInvalid();
      var mapped, done := Mappages(root, MAXVPN - 1, 1, trampoline, PTE_R + PTE_X);
      ghost var vm2 := Img();
      assert mapped == AllMapped || mapped == NoMemory;
      TopMapped(vm1, vm2, root, MAXVPN - 1, done, trampoline, PTE_R + PTE_X, 0, 0);
      SinceTopMapped(vm, vm1, vm2, root, MAXVPN - 1, done, trampoline, PTE_R + PTE_X);
      if mapped != AllMapped {
        DropPagetable(root, vm);
        return false, 0;
      }
      ghost var tramp := Pte(trampoline, OrV(PTE_R + PTE_X));
      TopHas(vm2, root, 0, tramp);
      mapped, done := Mappages(root, MAXVPN - 2, 1, tf, PTE_R + PTE_W);
      ghost var vm3 := Img();
      assert mapped == AllMapped || mapped == NoMemory;
      TopMapped(vm2, vm3, root, MAXVPN - 2, done, tf, PTE_R + PTE_W, 0, tramp);
      SinceTopMapped(vm, vm2, vm3, root, MAXVPN - 2, done, tf, PTE_R + PTE_W);
      if mapped != AllMapped {
        PteRemovable(trampoline, PTE_R + PTE_X);
        TopHas(vm3, root, 0, tramp);
        var panic, gone := Uvmunmap(root, MAXVPN - 1, 1, false);
        assert !panic;
        SinceReleased(vm, vm3, Img(), root, MAXVPN - 1, 1);
        TopUnmapped(vm3, Img(), root, MAXVPN - 1, 0, 0, tramp);
        DropPagetable(root, vm);
        return false, 0;
      }
    }

    /** Unmap the two pages above user memory and free the rest. */
    method ProcFreepagetable(root: nat, sz: nat, ghost tf: nat, ghost tramp: nat)
      requires Inv(Img()) && TreeOk(Img(), root) && Sized(Img(), root, Npages(sz))
      requires TopPages(Img(), root, tf, tramp) && Removable(tf) && Removable(tramp)
      modifies this`mem, this`freelist, this`use, this`trees
      ensures Inv(Img()) && SpaceFreed(old(Img()), Img(), root)
    {
      hide Leaf, Books, Trees, TreeOk, DataOk, TopPages, Sized, Released, Unmapping, SpaceFreed, Removable;
      ghost var vm, n := Img(), Npages(sz);
      TopHas(vm, root, tf, tramp);
      var panic, done := Uvmunmap(root, MAXVPN - 1, 1, false);
      assert !panic;
      ghost var vm1 := Img();
      TopUnmapped(vm, vm1, root, MAXVPN - 1, n, tf, tramp);
      TopHas(vm1, root, tf, 0);
      panic, done := Uvmunmap(root, MAXVPN - 2, 1, false);
      assert !panic;
      ghost var vm2 := Img();
      TopUnmapped(vm1, vm2, root, MAXVPN - 2, n, tf, 0);
      TopsClear(vm2, root);
      Uvmfree(root, sz);
      UnmappedThenFreed(vm1, vm2, Img(), root, MAXVPN - 2);
      UnmappedThenFreed(vm, vm1, Img(), root, MAXVPN - 1);
    }

    /** freeproc: the trapframe page, then the page table and user pages, of a process made since vm. */
    method FreeprocMemory(tf: nat, child: nat, sz: nat, ghost vm: Vm, ghost fill: Words,
                          ghost tfPte: nat, ghost tramp: nat)
      requires Inv(vm) && vm.freelist != [] && tf == vm.freelist[0] && LeavesSame(vm, Popped(vm, fill))
      requires Inv(Img()) && TreeOk(Img(), child) && Since(Popped(vm, fill), Img(), child)
      requires Sized(Img(), child, Npages(sz)) && TopPages(Img(), child, tfPte, tramp)
      requires Removable(tfPte) && Removable(tramp)
      modifies this`mem, this`freelist, this`use, this`trees
      ensures Inv(Img()) && Restored(vm, Img())
    {
      hide Leaf, Books, Trees, TreeOk, DataOk, TopPages, Sized, Since, LeavesSame, SpaceFreed;
      ghost var vm1 := Img();
      SinceHeld(Popped(vm, fill), vm1, child, tf);
      Kfree(tf);
      ghost var vm2 := Img();
      PushedData(vm1, tf, mem[tf]);
      HeldThenFreed(vm, vm1, child, fill, mem[tf]);
      SameSized(vm1, vm2, child, Npages(sz));
      SameTops(vm1, vm2, child, tfPte, tramp);
      SinceTreeOk(vm, vm2, child);
      ProcFreepagetable(child, sz, tfPte, tramp);
      SinceFreed(vm, vm2, Img(), child);
    }

    /** The memory of a forked process: trapframe page, page table and a copy of the parent's
        pages; or false and every page, page table and word in use as before. */
    method ForkMemory(parent: nat, sz: nat, trampoline: nat) returns (ok: bool, child: nat, tf: nat)
      requires Inv(Img()) && TreeOk(Img(), parent) && Sized(Img(), parent, Npages(sz))
      modifies this`mem, this`freelist, this`use, this`trees
      ensures Inv(Img())
      ensures ok ==> TreeOk(Img(), child) && Forked(old(Img()), Img(), parent, child, Npages(sz), tf, trampoline)
      ensures !ok ==> Restored(old(Img()), Img()) && |old(freelist)| < 3 * Npages(sz) + 6
    {
      hide Leaf, Books, Trees, TreeOk, DataOk, TopPages, Sized, Since, Restored, Forked, Pte, OrV;
      hide Added, Grown, LeavesSame, SpaceWords, SpaceFlags, SpaceFreed;
      child := 0;
      ghost var vm, n := Img(), Npages(sz);
      NothingRestored(vm);
      ok, tf := Kalloc();
      if !ok {
        return;
      }
      ghost var vm1, fill := Img(), mem[tf];
      PoppedInv(vm, fill, parent, n);
      ok, child := ProcPagetable(tf, trampoline);
      ghost var vm2 := Img();
      if !ok {
        RestoredUse(vm1, vm2);
        Kfree(tf);
        HeldAndBack(vm, vm2, fill, mem[tf]);
        PushedData(vm2, tf, mem[tf]);
        return;
      }
      ChildApart(vm1, vm2, parent, child, n);
      ok := Uvmcopy(parent, child, sz);
      if ok {
        ForkDone(vm, vm2, Img(), parent, child, n, fill, trampoline);
      } else {
        SinceGrownSame(vm1, vm2, Img(), child);
        SameSized(vm2, Img(), child, 0);
        SameTops(vm2, Img(), child, Pte(tf, OrV(PTE_R + PTE_W)), Pte(trampoline, OrV(PTE_R + PTE_X)));
        PteRemovable(tf, PTE_R + PTE_W);
        PteRemovable(trampoline, PTE_R + PTE_X);
        FreeprocMemory(tf, child, 0, vm, fill, Pte(tf, OrV(PTE_R + PTE_W)), Pte(trampoline, OrV(PTE_R + PTE_X)));
      }
    }
  }
}
