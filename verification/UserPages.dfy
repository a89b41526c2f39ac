/** User pages of an address space (kernel/vm.c): taking them away, adding them, the size of a process,
    and copying one address space into another. */
module UserPages {
  import opened PageTable

  // ---- Giving user pages back ----

  /** From vm to vm' exactly the user pages v.. of root, k of them, became free. */
  ghost predicate Released(vm: Vm, vm': Vm, root: nat, v: nat, k: nat)
  {
    && vm'.trees == vm.trees && vm'.use.Keys == vm.use.Keys
    && (forall q | q in vm.use ::
          vm'.use[q] == if vm.use[q].Page? && vm.use[q].root == root && v <= vm.use[q].v < v + k
                        then Free else vm.use[q])
    && (forall q | q in vm.use && q in vm.mem && (vm.use[q].Held? || vm.use[q].Page?) && vm'.use[q] == vm.use[q] ::
          q in vm'.mem && vm'.mem[q] == vm.mem[q])
  }

  lemma NothingReleased(vm: Vm, root: nat, v: nat)
    ensures Released(vm, vm, root, v, 0)
  {
  }

  /** kfree of the page of user page w, then its PTE cleared. */
  ghost predicate PageDropped(vm: Vm, vm': Vm, root: nat, w: nat, junk: Words)
  {
    && root in vm.trees
    && LeafStored(Pushed(vm, Ppn(Leaf(vm, root, w)), junk), vm', root, w, 0)
  }

  lemma DropPage(vm: Vm, vm': Vm, root: nat, w: nat, junk: Words)
    requires Books(vm) && Trees(vm) && TreeOk(vm, root) && w < USERTOP && PageDropped(vm, vm', root, w, junk)
    requires UserLeaf(vm, root, w) && Leaf(vm, root, w) != 0
    ensures Books(vm') && Trees(vm') && TreeOk(vm', root) && Unmapping(vm, vm', root, w, 1)
    ensures var p := Ppn(Leaf(vm, root, w));
            p in vm.use && vm'.use == vm.use[p := Free] && vm'.trees == vm.trees
  {
    hide Leaf, Px, Books, Trees, TreeOk, Valid, IsLeaf, Ppn;
    var p := Ppn(Leaf(vm, root, w));
    var vm1 := Pushed(vm, p, junk);
    PushKeeps(vm, p, junk);
    PushTreeOk(vm, root, p, junk);
    SetLeaf(vm1, root, w, 0);
    LeafSetGrown(vm1, root, w, 0);
  }

  lemma PushTreeOk(vm: Vm, root: nat, p: nat, junk: Words)
    requires Books(vm) && Trees(vm) && TreeOk(vm, root) && p in vm.use && (vm.use[p].Held? || vm.use[p].Page?)
    ensures TreeOk(Pushed(vm, p, junk), root)
  {
    hide TreeOk, Leaf;
    PushKeeps(vm, p, junk);
    TreesHas(vm, root);
    assert root in Pushed(vm, p, junk).trees;
  }

  lemma DropMem(vm: Vm, vm': Vm, root: nat, w: nat, junk: Words, q: nat)
    requires TreeOk(vm, root) && PageDropped(vm, vm', root, w, junk)
    requires UserLeaf(vm, root, w) && Leaf(vm, root, w) != 0
    requires q in vm.use && q in vm.mem && (vm.use[q].Held? || vm.use[q].Page?) && q != Ppn(Leaf(vm, root, w))
    ensures q in vm'.mem && vm'.mem[q] == vm.mem[q]
  {
    hide Leaf, Px, Valid, IsLeaf, Ppn, RootLinks, MidLinks;
    var k := (Px(2, w), Px(1, w));
    assert TableAt(vm, vm.trees[root].lows[k], root, Low(k.0, k.1));
  }

  lemma DropKeepsData(vm: Vm, vm': Vm, root: nat, w: nat)
    requires DataOk(vm) && root in vm.trees && w < USERTOP && UserLeaf(vm, root, w) && Leaf(vm, root, w) != 0
    requires Unmapping(vm, vm', root, w, 1) && vm'.use == vm.use[Ppn(Leaf(vm, root, w)) := Free]
    ensures DataOk(vm')
  {
    hide Leaf, Valid, IsLeaf, Ppn;
    forall r, v: nat | r in vm'.trees && v < USERTOP
      ensures UserLeaf(vm', r, v)
    {
      assert UserLeaf(vm, r, v);
    }
    forall q | q in vm'.use
      ensures UserPage(vm', q)
    {
      if q in vm.use { assert UserPage(vm, q); }
    }
  }

  lemma ReleasedStep(vm: Vm, vm1: Vm, vm2: Vm, root: nat, v: nat, k: nat, junk: Words)
    requires Released(vm, vm1, root, v, k) && DataOk(vm1) && Books(vm1) && Trees(vm1) && TreeOk(vm1, root)
    requires v + k < USERTOP && PageDropped(vm1, vm2, root, v + k, junk) && Leaf(vm1, root, v + k) != 0
    ensures Released(vm, vm2, root, v, k + 1)
    ensures Inv(vm2) && TreeOk(vm2, root) && Unmapping(vm1, vm2, root, v + k, 1)
  {
    hide Leaf, Valid, IsLeaf, Ppn, Books, Trees, TreeOk, PageDropped, Unmapping, DataOk;
    var w := v + k;
    UserLeafOf(vm1, root, w);
    DropPage(vm1, vm2, root, w, junk);
    DropKeepsData(vm1, vm2, root, w);
    var p := Ppn(Leaf(vm1, root, w));
    forall q | q in vm.use
      ensures vm2.use[q] ==
              if vm.use[q].Page? && vm.use[q].root == root && v <= vm.use[q].v < v + k + 1 then Free else vm.use[q]
    {
      OnlyPageOf(vm1, root, w, q);
    }
    forall q | q in vm.use && q in vm.mem && (vm.use[q].Held? || vm.use[q].Page?) && vm2.use[q] == vm.use[q]
      ensures q in vm2.mem && vm2.mem[q] == vm.mem[q]
    {
      DropMem(vm1, vm2, root, w, junk, q);
    }
  }

  lemma UserLeafOf(vm: Vm, root: nat, w: nat)
    requires DataOk(vm) && w < USERTOP && TreeOk(vm, root)
    ensures root in vm.trees && UserLeaf(vm, root, w)
    ensures Leaf(vm, root, w) != 0 ==>
              Ppn(Leaf(vm, root, w)) in vm.use && vm.use[Ppn(Leaf(vm, root, w))] == Page(root, w)
  {
    hide Leaf, Ppn, Valid, IsLeaf;
  }

  /** No other page is in use for the same user page. */
  lemma OnlyPageOf(vm: Vm, root: nat, w: nat, q: nat)
    requires DataOk(vm) && TreeOk(vm, root) && q in vm.use && w < USERTOP && root in vm.trees
    ensures vm.use[q] == Page(root, w) ==> q == Ppn(Leaf(vm, root, w))
  {
    hide Leaf, Ppn, Valid, TreeOk;
    assert UserPage(vm, q);
  }

  lemma UnmappingTwice(vm: Vm, vm1: Vm, vm2: Vm, root: nat, v: nat, k: nat)
    requires Unmapping(vm, vm1, root, v, k) && Unmapping(vm1, vm2, root, v + k, 1)
    ensures Unmapping(vm, vm2, root, v, k + 1)
  {
    hide Leaf;
  }

  /** Clearing the PTE of a page above user memory frees nothing. */
  lemma ClearStep(vm: Vm, vm1: Vm, vm2: Vm, root: nat, v: nat, k: nat)
    requires Released(vm, vm1, root, v, k) && Inv(vm1) && TreeOk(vm1, root)
    requires USERTOP <= v && v + k < MAXVPN && LeafStored(vm1, vm2, root, v + k, 0)
    ensures Released(vm, vm2, root, v, k + 1)
    ensures Inv(vm2) && TreeOk(vm2, root) && Unmapping(vm1, vm2, root, v + k, 1)
  {
    hide Leaf, Valid, IsLeaf, Ppn, Books, Trees, TreeOk, UserLeaf;
    SetLeaf(vm1, root, v + k, 0);
    StoreKeeps(vm1, vm2, root, v + k, 0);
    SpecialKeepsData(vm1, vm2, root, v + k, 0);
    forall q | q in vm.use
      ensures vm.use[q].Page? && vm.use[q].root == root && v <= vm.use[q].v < v + k + 1 ==> vm1.use[q].Free?
    {
      assert UserPage(vm1, q);
    }
  }

  lemma SpecialKeepsData(vm: Vm, vm': Vm, root: nat, v: nat, pte: nat)
    requires Books(vm) && Trees(vm) && TreeOk(vm, root) && DataOk(vm)
    requires USERTOP <= v < MAXVPN && LeafStored(vm, vm', root, v, pte)
    ensures DataOk(vm')
  {
    hide Leaf, Valid, IsLeaf, Ppn, Books, Trees, TreeOk;
    SetLeaf(vm, root, v, pte);
    forall r, w: nat | r in vm'.trees && w < USERTOP
      ensures UserLeaf(vm', r, w)
    {
      assert UserLeaf(vm, r, w);
    }
    forall q | q in vm'.use
      ensures UserPage(vm', q)
    {
      assert UserPage(vm, q);
    }
  }

  lemma LeafHasLow(vm: Vm, root: nat, v: nat)
    requires root in vm.trees && Leaf(vm, root, v) != 0
    ensures HasLow(vm, root, v)
    ensures vm.mem[vm.trees[root].lows[(Px(2, v), Px(1, v))]][Px(0, v)] == Leaf(vm, root, v)
  {
  }

  /** A valid PTE with more flags than PTE_V, as uvmunmap demands. */
  predicate Removable(pte: nat)
  {
    Valid(pte) && Flags(pte) != PTE_V
  }

  lemma RemovableIs(pte: nat)
    ensures Removable(pte) <==> Valid(pte) && Flags(pte) != PTE_V
  {
  }

  /** What walk finds for page v is the map's PTE; without a table there is none. */
  lemma WalkedLeaf(vm: Vm, root: nat, v: nat)
    requires root in vm.trees
    ensures !HasLow(vm, root, v) ==> !Removable(Leaf(vm, root, v))
    ensures HasLow(vm, root, v) ==>
              vm.mem[vm.trees[root].lows[(Px(2, v), Px(1, v))]][Px(0, v)] == Leaf(vm, root, v)
    ensures Removable(Leaf(vm, root, v)) ==> Leaf(vm, root, v) != 0
  {
  }

  lemma StillThere(vm: Vm, vm1: Vm, root: nat, v: nat, k: nat, w: nat)
    requires Unmapping(vm, vm1, root, v, k) && v + k <= w < MAXVPN
    ensures root in vm1.trees && Leaf(vm1, root, w) == Leaf(vm, root, w)
  {
    hide Leaf;
  }

  lemma UserRemovable(vm: Vm, root: nat, v: nat, n: nat)
    requires DataOk(vm) && TreeOk(vm, root) && v + n <= USERTOP && root in vm.trees
    requires forall w: nat | v <= w < v + n :: Leaf(vm, root, w) != 0
    ensures forall w: nat | v <= w < v + n :: Removable(Leaf(vm, root, w))
  {
    hide Leaf, TreeOk, DataOk;
    forall w: nat | v <= w < v + n
      ensures Removable(Leaf(vm, root, w))
    {
      UserLeafOf(vm, root, w);
      LeafFlags(Leaf(vm, root, w));
    }
  }

  lemma LeafFlags(pte: nat)
    requires Valid(pte) && IsLeaf(pte)
    ensures Removable(pte)
  {
    assert pte / 2 % 8 == Flags(pte) / 2 % 8;
  }

  lemma StillUnmapped(vm: Vm, vm2: Vm, root: nat, v: nat, k: nat, p: nat, perm: nat)
    requires Mapping(vm, vm2, root, v, k, p, perm) && HasLow(vm2, root, v + k) && v + k < MAXVPN
    ensures vm2.mem[vm2.trees[root].lows[(Px(2, v + k), Px(1, v + k))]][Px(0, v + k)] == Leaf(vm, root, v + k)
  {
    assert Leaf(vm2, root, v + k) == Leaf(vm, root, v + k);
  }

  /** The user page about to be freed is not a table. */
  lemma DropTarget(vm: Vm, root: nat, w: nat)
    requires TreeOk(vm, root) && HasLow(vm, root, w) && UserLeaf(vm, root, w) && Leaf(vm, root, w) != 0
    ensures var p := Ppn(Leaf(vm, root, w));
            p in vm.use && vm.use[p].Page? && p != vm.trees[root].lows[(Px(2, w), Px(1, w))]
  {
    hide Leaf, Px, Ppn, Valid, IsLeaf, RootLinks, MidLinks;
    var k := (Px(2, w), Px(1, w));
    assert TableAt(vm, vm.trees[root].lows[k], root, Low(k.0, k.1));
  }

  // ---- Adding user pages ----

  /** What from vm to vm' may have happened to a page that was not free: nothing. */
  ghost predicate OthersKept(vm: Vm, vm': Vm, root: nat)
  {
    && vm'.trees.Keys == vm.trees.Keys && root in vm.trees
    && (forall r | r in vm.trees && r != root :: vm'.trees[r] == vm.trees[r])
    && vm'.use.Keys == vm.use.Keys
    && (forall q | q in vm.use && !vm.use[q].Free? :: vm'.use[q] == vm.use[q])
    && (forall q | q in vm.use && q in vm.mem && (vm.use[q].Held? || vm.use[q].Page?) ::
          q in vm'.mem && vm'.mem[q] == vm.mem[q])
  }

  /** PTE of user page w: present, with these flags, and its page holds these words. */
  predicate PageIs(vm: Vm, root: nat, w: nat, fill: Words, perm: nat)
  {
    && root in vm.trees
    && var pte := Leaf(vm, root, w);
       pte != 0 && Flags(pte) == OrV(perm) && Ppn(pte) in vm.mem && vm.mem[Ppn(pte)] == fill
  }

  predicate PageAt(vm: Vm, root: nat, v: nat, fills: seq<Words>, perms: seq<nat>, i: nat)
    requires i < |fills| == |perms|
  {
    PageIs(vm, root, v + i, fills[i], perms[i])
  }

  /** vm' has user pages v.. of root, one per element of fills, more than vm: each a page that was
      free, holding fills[i] and mapped with perms[i]. Nothing else changed but free pages that
      became tables of root. */
  ghost predicate Added(vm: Vm, vm': Vm, root: nat, v: nat, fills: seq<Words>, perms: seq<nat>)
  {
    && |fills| == |perms| && OthersKept(vm, vm', root)
    && (forall q | q in vm.use && vm.use[q].Free? ::
          || vm'.use[q].Free? || (vm'.use[q].Table? && vm'.use[q].root == root)
          || (vm'.use[q].Page? && vm'.use[q].root == root && v <= vm'.use[q].v < v + |fills|))
    && (forall r, w: nat | r in vm.trees && w < MAXVPN && !(r == root && v <= w < v + |fills|) ::
          Leaf(vm', r, w) == Leaf(vm, r, w))
    && (forall i: nat | i < |fills| :: PageAt(vm', root, v, fills, perms, i))
  }

  lemma NothingAdded(vm: Vm, root: nat, v: nat)
    requires root in vm.trees
    ensures Added(vm, vm, root, v, [], [])
  {
  }

  /** Growth without new user pages. */
  lemma GrownAdds(vm: Vm, vm1: Vm, vm2: Vm, root: nat, v: nat, fills: seq<Words>, perms: seq<nat>)
    requires Added(vm, vm1, root, v, fills, perms) && Grown(vm1, vm2, root) && LeavesSame(vm1, vm2)
    requires v + |fills| <= USERTOP && DataOk(vm1) && Books(vm1)
    ensures Added(vm, vm2, root, v, fills, perms)
  {
    hide Leaf, Ppn, Flags, OrV, Valid, IsLeaf;
    forall i: nat | i < |fills|
      ensures PageAt(vm2, root, v, fills, perms, i)
    {
      assert PageAt(vm1, root, v, fills, perms, i);
      assert UserLeaf(vm1, root, v + i);
    }
  }

  lemma AddedStep(vm: Vm, vm1: Vm, vm2: Vm, root: nat, v: nat, fills: seq<Words>,
                  perms: seq<nat>, fill: Words, perm: nat)
    requires Added(vm, vm1, root, v, fills, perms) && Added(vm1, vm2, root, v + |fills|, [fill], [perm])
    requires v + |fills| < USERTOP && DataOk(vm1) && Books(vm1)
    ensures Added(vm, vm2, root, v, fills + [fill], perms + [perm])
  {
    hide Leaf, Ppn, Flags, OrV, Valid, IsLeaf;
    var fills', perms' := fills + [fill], perms + [perm];
    forall i: nat | i < |fills'|
      ensures PageAt(vm2, root, v, fills', perms', i)
    {
      if i < |fills| {
        assert PageAt(vm1, root, v, fills, perms, i);
        assert UserLeaf(vm1, root, v + i);
      } else {
        assert PageAt(vm2, root, v + |fills|, [fill], [perm], 0);
      }
    }
  }

  /** Giving all the added pages back leaves only growth of tables behind. */
  lemma AddedThenReleased(vm: Vm, vm1: Vm, vm2: Vm, root: nat, v: nat, fills: seq<Words>, perms: seq<nat>)
    requires Added(vm, vm1, root, v, fills, perms)
    requires Released(vm1, vm2, root, v, |fills|) && Unmapping(vm1, vm2, root, v, |fills|)
    requires v + |fills| <= USERTOP && DataOk(vm)
    requires forall w: nat | v <= w < v + |fills| :: Leaf(vm, root, w) == 0
    ensures Grown(vm, vm2, root) && LeavesSame(vm, vm2)
  {
    hide Leaf, Ppn, Flags, OrV, PageIs, UserLeaf, Valid;
    forall q | q in vm.use
      ensures vm2.use[q] == vm.use[q] || (vm.use[q].Free? && vm2.use[q].Table? && vm2.use[q].root == root)
    {
      assert UserPage(vm, q);
      NotInRange(vm, root, v, |fills|, q);
    }
    forall q | q in vm.use && (vm.use[q].Held? || vm.use[q].Page?) && q in vm.mem
      ensures q in vm2.mem && vm2.mem[q] == vm.mem[q]
    {
      NotInRange(vm, root, v, |fills|, q);
    }
  }

  lemma NotInRange(vm: Vm, root: nat, v: nat, k: nat, q: nat)
    requires DataOk(vm) && root in vm.trees && q in vm.use && v + k <= USERTOP
    requires forall w: nat | v <= w < v + k :: Leaf(vm, root, w) == 0
    ensures !(vm.use[q].Page? && vm.use[q].root == root && v <= vm.use[q].v < v + k)
  {
    hide Leaf, Ppn, UserLeaf;
    assert UserPage(vm, q);
  }

  /** The PTEs after mapping one page over a kalloc. */
  lemma AddedOneLeaves(vm: Vm, vm2: Vm, root: nat, a: nat, fill: Words, perm: nat)
    requires Books(vm) && Trees(vm) && vm.freelist != []
    requires Mapping(Popped(vm, fill), vm2, root, a, 1, vm.freelist[0], perm)
    ensures vm2.trees.Keys == vm.trees.Keys && root in vm.trees
    ensures forall r, w: nat | r in vm.trees && w < MAXVPN ::
              Leaf(vm2, r, w) == if r == root && w == a then Pte(vm.freelist[0], OrV(perm)) else Leaf(vm, r, w)
  {
    hide Leaf, Trees, Books, Pte, OrV;
    PopKeeps(vm, fill);
  }

  lemma AddedOneUse(vm: Vm, vm2: Vm, vm3: Vm, root: nat, a: nat, fill: Words)
    requires Books(vm) && TreeOk(vm, root) && vm.freelist != [] && Grown(Popped(vm, fill), vm2, root)
    requires vm3 == vm2.(use := vm2.use[vm.freelist[0] := Page(root, a)])
    ensures OthersKept(vm, vm3, root) && vm.freelist[0] in vm.use && vm.use[vm.freelist[0]].Free?
    ensures vm2.use.Keys == vm.use.Keys && vm2.use[vm.freelist[0]].Held?
    ensures vm.freelist[0] in vm3.mem && vm3.mem[vm.freelist[0]] == fill
    ensures forall q | q in vm.use && q != vm.freelist[0] ::
              vm2.use[q] == vm.use[q] || (vm.use[q].Free? && vm2.use[q].Table? && vm2.use[q].root == root)
  {
    hide TreeOk;
    FirstIsFree(vm, root);
    TreesHas(vm, root);
  }

  /** A free page p, filled, mapped as user page a, and booked as that page. */
  lemma AddedOne(vm: Vm, vm2: Vm, vm3: Vm, root: nat, a: nat, fill: Words, perm: nat)
    requires Inv(vm) && TreeOk(vm, root) && vm.freelist != [] && a < USERTOP && Leaf(vm, root, a) == 0
    requires perm < 1024 && IsLeaf(OrV(perm))
    requires Books(vm2) && Trees(vm2) && Grown(Popped(vm, fill), vm2, root)
    requires Mapping(Popped(vm, fill), vm2, root, a, 1, vm.freelist[0], perm)
    requires vm3 == vm2.(use := vm2.use[vm.freelist[0] := Page(root, a)])
    ensures Inv(vm3) && Added(vm, vm3, root, a, [fill], [perm]) && TreeOk(vm3, root)
  {
    hide Leaf, Trees, Books, TreeOk, OrV, IsLeaf, Grown, Mapping, DataOk, OthersKept, Pte, Ppn, Flags, Valid;
    var p := vm.freelist[0];
    AddedOneLeaves(vm, vm2, root, a, fill, perm);
    AddedOneUse(vm, vm2, vm3, root, a, fill);
    BookedKeeps(vm2, vm3, root, a, p);
    OrVFits(perm);
    PteParts(p, OrV(perm));
    var pte := Pte(p, OrV(perm));
    NotZero(pte);
    AddedOneData(vm, vm2, vm3, root, a, p, pte);
    assert PageIs(vm3, root, a, fill, perm);
    assert PageAt(vm3, root, a, [fill], [perm], 0);
    GrownTreeOk(vm3, root);
  }

  lemma NotZero(pte: nat)
    requires Valid(pte)
    ensures pte != 0
  {
  }

  lemma OrVFits(perm: nat)
    requires perm < 1024
    ensures OrV(perm) < 1024 && OrV(perm) % 2 == 1
  {
  }

  lemma BookedKeeps(vm: Vm, vm': Vm, root: nat, a: nat, p: nat)
    requires Books(vm) && Trees(vm) && p in vm.use && vm.use[p].Held? && vm' == vm.(use := vm.use[p := Page(root, a)])
    ensures Books(vm') && Trees(vm')
    ensures forall r, v: nat | r in vm.trees :: Leaf(vm', r, v) == Leaf(vm, r, v)
  {
    hide Trees, Leaf;
    NoTreeChanged(vm, vm');
  }

  lemma AddedOneData(vm: Vm, vm2: Vm, vm3: Vm, root: nat, a: nat, p: nat, pte: nat)
    requires DataOk(vm) && root in vm.trees && a < USERTOP && p in vm.use && vm.use[p].Free? && Leaf(vm, root, a) == 0
    requires vm3.trees == vm2.trees && vm2.trees.Keys == vm.trees.Keys && vm3.use == vm2.use[p := Page(root, a)]
    requires vm2.use.Keys == vm.use.Keys
    requires forall q | q in vm.use && q != p ::
               vm2.use[q] == vm.use[q] || (vm.use[q].Free? && vm2.use[q].Table?)
    requires forall r, w: nat | r in vm.trees && w < MAXVPN ::
               Leaf(vm3, r, w) == if r == root && w == a then pte else Leaf(vm, r, w)
    requires Valid(pte) && IsLeaf(pte) && Ppn(pte) == p && pte != 0
    ensures DataOk(vm3)
  {
    hide Leaf, IsLeaf, Ppn;
    forall r, v: nat | r in vm3.trees && v < USERTOP
      ensures UserLeaf(vm3, r, v)
    {
      assert UserLeaf(vm, r, v);
    }
    forall q | q in vm3.use
      ensures UserPage(vm3, q)
    {
      assert UserPage(vm, q);
    }
  }

  /** The same attempt when no page was left for a table: the data page goes back. */
  lemma AddFailed(vm: Vm, vm2: Vm, vm3: Vm, root: nat, a: nat, fill: Words, perm: nat, junk: Words)
    requires Inv(vm) && TreeOk(vm, root) && vm.freelist != []
    requires Books(vm2) && Trees(vm2) && Grown(Popped(vm, fill), vm2, root)
    requires Mapping(Popped(vm, fill), vm2, root, a, 0, vm.freelist[0], perm)
    requires vm3 == Pushed(vm2, vm.freelist[0], junk)
    ensures Grown(vm, vm3, root) && LeavesSame(vm, vm3) && Inv(vm3) && TreeOk(vm3, root)
  {
    hide Trees, TreeOk, Leaf, Pte, OrV, UserLeaf, UserPage;
    FirstIsFree(vm, root);
    PopKeeps(vm, fill);
    PushKeeps(vm2, vm.freelist[0], junk);
    GrownKeepsData(vm, vm3, root);
    GrownTreeOk(vm3, root);
  }

  // ---- Sizes ----

  /** PGROUNDUP(sz) / PGSIZE */
  function Npages(sz: nat): nat
  {
    (sz + PGSIZE - 1) / PGSIZE
  }

  /** User page v is mapped exactly when v < n. */
  ghost predicate Sized(vm: Vm, root: nat, n: nat)
  {
    root in vm.trees && n <= USERTOP && forall v: nat | v < USERTOP :: Leaf(vm, root, v) != 0 <==> v < n
  }

  /** The pages of physical memory from KERNBASE to PHYSTOP. */
  const FIRST_PAGE: nat := 0x8000_0000 / 4096
  const STOP_PAGE: nat := (0x8000_0000 + 128 * 1024 * 1024) / 4096

  lemma {:induction false} RangeSize(s: set<nat>, lo: nat, hi: nat)
    requires lo <= hi && forall p | p in s :: lo <= p < hi
    ensures |s| <= hi - lo
    decreases hi - lo
  {
    if lo == hi {
      assert s == {};
    } else if hi - 1 in s {
      RangeSize(s - {hi - 1}, lo, hi - 1);
    } else {
      RangeSize(s, lo, hi - 1);
    }
  }

  /** xv6's memory is smaller than user address space, so running out of it comes first. */
  lemma MachineFits(vm: Vm)
    requires forall p | p in vm.use :: FIRST_PAGE <= p < STOP_PAGE
    ensures |vm.use| < USERTOP
  {
    RangeSize(vm.use.Keys, FIRST_PAGE, STOP_PAGE);
    assert |vm.use| == |vm.use.Keys|;
  }

  /** Mapped user pages are different physical pages, so there are no more of them than pages. */
  lemma {:induction false} SizeFitsMemory(vm: Vm, root: nat, n: nat) returns (pages: set<nat>)
    requires DataOk(vm) && root in vm.trees && n <= USERTOP && forall v: nat | v < n :: Leaf(vm, root, v) != 0
    ensures |pages| == n && pages <= vm.use.Keys
    ensures forall p | p in pages :: p in vm.use && vm.use[p].Page? && vm.use[p].root == root && vm.use[p].v < n
  {
    hide Leaf, Ppn, Valid, IsLeaf, UserPage;
    if n == 0 {
      pages := {};
    } else {
      pages := SizeFitsMemory(vm, root, n - 1);
      assert UserLeaf(vm, root, n - 1);
      pages := pages + {Ppn(Leaf(vm, root, n - 1))};
    }
  }

  lemma RoomForOne(vm: Vm, root: nat, n: nat)
    requires DataOk(vm) && root in vm.trees && n <= USERTOP && forall v: nat | v < n :: Leaf(vm, root, v) != 0
    requires |vm.use| < USERTOP
    ensures n < USERTOP
  {
    hide Leaf, DataOk;
    var pages := SizeFitsMemory(vm, root, n);
    assert vm.use.Keys == pages + (vm.use.Keys - pages);
  }

  lemma AddedSized(vm: Vm, vm': Vm, root: nat, n: nat, fills: seq<Words>, perms: seq<nat>)
    requires Sized(vm, root, n) && Added(vm, vm', root, n, fills, perms) && n + |fills| <= USERTOP
    ensures Sized(vm', root, n + |fills|)
  {
    hide Leaf, OrV, Ppn, Flags;
    forall v: nat | v < USERTOP
      ensures Leaf(vm', root, v) != 0 <==> v < n + |fills|
    {
      if n <= v < n + |fills| { assert PageAt(vm', root, n, fills, perms, v - n); }
    }
  }

  lemma UnmappedSized(vm: Vm, vm': Vm, root: nat, n: nat, m: nat)
    requires Sized(vm, root, n) && m <= n && Unmapping(vm, vm', root, m, n - m)
    ensures Sized(vm', root, m)
  {
    hide Leaf;
  }

  lemma StillHeld(vm: Vm, vm2: Vm, root: nat, fill: Words)
    requires vm.freelist != [] && Grown(Popped(vm, fill), vm2, root)
    ensures vm.freelist[0] in vm2.use && vm2.use[vm.freelist[0]].Held?
  {
  }

  lemma GrownTreeOk(vm: Vm, root: nat)
    requires Trees(vm) && root in vm.trees
    ensures TreeOk(vm, root)
  {
    hide TreeOk;
  }

  /** There is room for one more user page, and its PTE is empty. */
  lemma GrowRoom(vm: Vm, vm1: Vm, root: nat, n: nat, fills: seq<Words>, perms: seq<nat>)
    requires Sized(vm, root, n) && Added(vm, vm1, root, n, fills, perms) && n + |fills| <= USERTOP
    requires DataOk(vm1) && |vm1.use| < USERTOP
    ensures n + |fills| < USERTOP && root in vm1.trees && Leaf(vm1, root, n + |fills|) == 0
  {
    hide Leaf, DataOk;
    AddedSized(vm, vm1, root, n, fills, perms);
    RoomForOne(vm1, root, n + |fills|);
  }

  lemma AddedKeys(vm: Vm, vm': Vm, root: nat, v: nat, fills: seq<Words>, perms: seq<nat>)
    requires Added(vm, vm', root, v, fills, perms)
    ensures vm'.use.Keys == vm.use.Keys && |vm'.use| == |vm.use| && root in vm.trees && root in vm'.trees
  {
    assert |vm'.use| == |vm'.use.Keys| && |vm.use| == |vm.use.Keys|;
  }

  lemma AddedMapped(vm: Vm, vm': Vm, root: nat, fills: seq<Words>, perms: seq<nat>)
    requires Sized(vm, root, 0) && Added(vm, vm', root, 0, fills, perms) && |fills| <= USERTOP
    ensures root in vm'.trees && forall v: nat | v < |fills| :: Leaf(vm', root, v) != 0
  {
    hide Leaf;
    AddedSized(vm, vm', root, 0, fills, perms);
  }

  lemma UnusedAbove(vm: Vm, root: nat, n: nat, k: nat)
    requires Sized(vm, root, n) && n + k <= USERTOP
    ensures forall w: nat | n <= w < n + k :: Leaf(vm, root, w) == 0
  {
    hide Leaf;
  }

  lemma SameSized(vm: Vm, vm': Vm, root: nat, n: nat)
    requires Sized(vm, root, n) && LeavesSame(vm, vm')
    ensures Sized(vm', root, n)
  {
    hide Leaf;
  }

  lemma SizedHas(vm: Vm, root: nat, n: nat)
    requires Sized(vm, root, n)
    ensures root in vm.trees && n <= USERTOP
  {
  }

  lemma UserPermLeaf(xperm: nat)
    requires xperm in {0, PTE_W, PTE_X, PTE_W + PTE_X}
    ensures PTE_R + PTE_U + xperm < 1024 && IsLeaf(OrV(PTE_R + PTE_U + xperm))
  {
  }

  // ---- Copying an address space ----

  /** The words and the flags of user page i. */
  function PageWords(vm: Vm, root: nat, i: nat): Words
    requires root in vm.trees
  {
    var p := Ppn(Leaf(vm, root, i));
    if p in vm.mem then vm.mem[p] else Zeros()
  }

  function PageFlags(vm: Vm, root: nat, i: nat): nat
    requires root in vm.trees
  {
    Flags(Leaf(vm, root, i))
  }

  /** The words and the flags of user pages 0..n-1. */
  function SpaceWords(vm: Vm, root: nat, n: nat): (s: seq<Words>)
    requires root in vm.trees
    ensures |s| == n && forall i | 0 <= i < n :: s[i] == PageWords(vm, root, i)
  {
    seq(n, i requires 0 <= i => PageWords(vm, root, i))
  }

  function SpaceFlags(vm: Vm, root: nat, n: nat): (s: seq<nat>)
    requires root in vm.trees
    ensures |s| == n && forall i | 0 <= i < n :: s[i] == PageFlags(vm, root, i)
  {
    seq(n, i requires 0 <= i => PageFlags(vm, root, i))
  }

  lemma FlagsOfLeaf(pte: nat)
    requires Valid(pte) && IsLeaf(pte)
    ensures Flags(pte) < 1024 && OrV(Flags(pte)) == Flags(pte) && IsLeaf(Flags(pte))
  {
    PteParts(Ppn(pte), Flags(pte));
    assert pte == Pte(Ppn(pte), Flags(pte));
  }

  /** While another address space grows, page i of this one keeps its PTE and its words. */
  lemma SourceKept(vm: Vm, vm1: Vm, root: nat, other: nat, fills: seq<Words>, perms: seq<nat>, i: nat)
    requires Inv(vm) && root in vm.trees && root != other && Added(vm, vm1, other, 0, fills, perms)
    requires i < USERTOP && Leaf(vm, root, i) != 0
    ensures root in vm1.trees && Leaf(vm1, root, i) == Leaf(vm, root, i)
    ensures Ppn(Leaf(vm, root, i)) in vm.mem && Ppn(Leaf(vm, root, i)) in vm1.mem
    ensures PageWords(vm1, root, i) == PageWords(vm, root, i) && PageFlags(vm1, root, i) == PageFlags(vm, root, i)
    ensures PageFlags(vm, root, i) < 1024 && OrV(PageFlags(vm, root, i)) == PageFlags(vm, root, i)
    ensures IsLeaf(PageFlags(vm, root, i))
  {
    hide Leaf, Ppn, Flags, OrV, Valid, IsLeaf, Trees;
    assert UserLeaf(vm, root, i);
    FlagsOfLeaf(Leaf(vm, root, i));
  }

  /** Page i can be copied: its PTE in the source is there and unchanged, the target has none. */
  lemma CopyReady(vm: Vm, vm1: Vm, from: nat, to: nat, n: nat, i: nat)
    requires Inv(vm) && Sized(vm, from, n) && Sized(vm, to, 0) && from != to && i < n && Trees(vm1)
    requires Added(vm, vm1, to, 0, SpaceWords(vm, from, n)[..i], SpaceFlags(vm, from, n)[..i])
    ensures from in vm1.trees && to in vm1.trees && TreeOk(vm1, from)
    ensures i < USERTOP && Leaf(vm1, to, i) == 0 && Leaf(vm1, from, i) != 0
    ensures var pte := Leaf(vm1, from, i);
            && Ppn(pte) in vm1.mem && vm1.mem[Ppn(pte)] == SpaceWords(vm, from, n)[i]
            && Flags(pte) == SpaceFlags(vm, from, n)[i] && Flags(pte) < 1024 && IsLeaf(OrV(Flags(pte)))
  {
    hide Leaf, Ppn, Flags, OrV, IsLeaf, TreeOk, PageAt, Inv;
    SourceKept(vm, vm1, from, to, SpaceWords(vm, from, n)[..i], SpaceFlags(vm, from, n)[..i], i);
    GrownTreeOk(vm1, from);
  }
}
