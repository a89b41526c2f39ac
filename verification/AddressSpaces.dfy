/** Address spaces from beginning to end (kernel/vm.c, kernel/proc.c): a new page table, freeing one, the
    two pages above user memory, and the memory of a forked process. */
module AddressSpaces {
  import opened PageTable
  import opened UserPages

  // ---- A new page table ----

  function Created(vm: Vm, junk: Words): Vm
    requires vm.freelist != []
  {
    var root := vm.freelist[0];
    var vm1 := Popped(vm, junk);
    vm1.(mem := vm1.mem[root := Zeros()], use := vm1.use[root := Table(root, Root)],
         trees := vm1.trees[root := Tree(map[], map[])])
  }

  lemma CreateTree(vm: Vm, junk: Words)
    requires Inv(vm) && vm.freelist != []
    ensures var root := vm.freelist[0]; var vm' := Created(vm, junk);
            && root !in vm.trees && Books(vm') && Trees(vm') && TreeOk(vm', root)
            && (forall v: nat :: Leaf(vm', root, v) == 0)
            && (forall r, v: nat | r in vm.trees :: Leaf(vm', r, v) == Leaf(vm, r, v))
  {
    hide Leaf, Px, UserLeaf, UserPage;
    var root := vm.freelist[0];
    assert root in vm.freelist;
    if root in vm.trees {
      assert TreeOk(vm, root);
    }
    var vm' := Created(vm, junk);
    CreatedTreeOk(vm, junk);
    CreatedOthers(vm, junk);
    assert forall q | q in vm.use :: InTree(vm, q);
    OneTreeChanged(vm, vm', root);
  }

  lemma CreatedTreeOk(vm: Vm, junk: Words)
    requires vm.freelist != []
    ensures var root := vm.freelist[0];
            TreeOk(Created(vm, junk), root) && forall v: nat :: Leaf(Created(vm, junk), root, v) == 0
  {
    hide Px;
  }

  lemma CreatedOthers(vm: Vm, junk: Words)
    requires Books(vm) && vm.freelist != [] && vm.freelist[0] !in vm.trees
    ensures OthersSame(vm, Created(vm, junk), vm.freelist[0])
  {
    assert vm.freelist[0] in vm.freelist;
  }

  lemma CreateKeepsData(vm: Vm, vm': Vm, junk: Words)
    requires Inv(vm) && vm.freelist != [] && vm' == Created(vm, junk) && vm.freelist[0] !in vm.trees
    requires forall v: nat :: Leaf(vm', vm.freelist[0], v) == 0
    requires forall r, v: nat | r in vm.trees :: Leaf(vm', r, v) == Leaf(vm, r, v)
    ensures DataOk(vm')
  {
    hide Leaf, Trees, Ppn, Valid, IsLeaf;
    assert vm.freelist[0] in vm.freelist;
    forall r, v: nat | r in vm'.trees && v < USERTOP
      ensures UserLeaf(vm', r, v)
    {
      if r in vm.trees { assert UserLeaf(vm, r, v); }
    }
    forall q | q in vm'.use
      ensures UserPage(vm', q)
    {
      if q in vm.use { assert UserPage(vm, q); }
    }
  }

  // ---- Freeing the tables of a page table ----

  function Level(r: Role): nat
  {
    match r case Root => 2 case Mid(_) => 1 case Low(_, _) => 0
  }

  /** Is a table with role r at or below one with role `at`? */
  predicate Under(at: Role, r: Role)
  {
    at == r || at == Root || (at.Mid? && r.Low? && r.a == at.a)
  }

  /** Which entry of the table `at` leads towards r. */
  function Entry(at: Role, r: Role): nat
  {
    if at == Root then (if r == Root then 0 else r.a) else if r.Low? then r.b else 0
  }

  function Kid(at: Role, i: nat): Role
    requires !at.Low?
  {
    if at == Root then Mid(i) else Low(at.a, i)
  }

  /** The roles of the tables of tree t: every table has one, and has the place it names. */
  predicate RolesOk(t: Tree, root: nat, roles: map<nat, Role>)
  {
    && (forall q | q in roles :: RoleOf(t, root, roles[q], q))
    && (forall a | a in t.mids :: a < ENTRIES && t.mids[a] in roles && roles[t.mids[a]] == Mid(a))
    && (forall k | k in t.lows :: k.0 in t.mids && k.1 < ENTRIES
          && t.lows[k] in roles && roles[t.lows[k]] == Low(k.0, k.1))
  }

  /** Entry i of a table with role r of tree t: a link, or nothing, and never a leaf. */
  predicate EntryOk(w: Words, t: Tree, r: Role, i: nat)
    requires i < ENTRIES
  {
    if r == Root then LinkIs(w, i, i in t.mids, if i in t.mids then t.mids[i] else 0)
    else if r.Mid? then LinkIs(w, i, (r.a, i) in t.lows, if (r.a, i) in t.lows then t.lows[(r.a, i)] else 0)
    else w[i] == 0
  }

  /** A table as freewalk must find it. */
  predicate TableWords(w: Words, t: Tree, r: Role)
  {
    forall i: nat | i < ENTRIES :: EntryOk(w, t, r, i)
  }

  /** Page q is a table at or below `at` that freewalk(at) has still to free when its loop is at i. */
  predicate ToFree(roles: map<nat, Role>, at: Role, i: nat, q: nat)
  {
    q in roles && Under(at, roles[q]) && (roles[q] == at || Entry(at, roles[q]) >= i)
  }

  /** Every table still to free is held and intact. */
  ghost predicate Intact(vm: Vm, t: Tree, roles: map<nat, Role>, at: Role, i: nat)
  {
    forall q | ToFree(roles, at, i, q) ::
      && q in vm.use && vm.use[q].Held? && q in vm.mem
      && (roles[q] != at ==> TableWords(vm.mem[q], t, roles[q]))
  }

  /** What the entry says and what it leads to, at step i. */
  lemma EntryIs(t: Tree, root: nat, roles: map<nat, Role>, at: Role, i: nat, w: Words)
    requires RolesOk(t, root, roles) && TableWords(w, t, at) && i < ENTRIES && (at.Mid? ==> at.a in t.mids)
    ensures w[i] == 0 || (Valid(w[i]) && !IsLeaf(w[i]) && !at.Low?
                         && Ppn(w[i]) in roles && roles[Ppn(w[i])] == Kid(at, i))
    ensures w[i] == 0 ==> forall q | ToFree(roles, at, i, q) && roles[q] != at :: Entry(at, roles[q]) != i
  {
    assert EntryOk(w, t, at, i);
    if at == Root && i in t.mids { PteParts(t.mids[i], PTE_V); }
    if at.Mid? && (at.a, i) in t.lows { PteParts(t.lows[(at.a, i)], PTE_V); }
    forall q | q in roles && w[i] == 0 && Under(at, roles[q]) && roles[q] != at
      ensures Entry(at, roles[q]) != i
    {
      assert RoleOf(t, root, roles[q], q);
      if at == Root && roles[q].Low? {
        var k := (roles[q].a, roles[q].b);
        assert k in t.lows && k.0 in t.mids;
      }
    }
  }

  /** The tables under entry i are those at or below its child. */
  lemma KidCovers(roles: map<nat, Role>, at: Role, i: nat, q: nat)
    requires !at.Low? && q in roles
    ensures Under(Kid(at, i), roles[q]) <==> Under(at, roles[q]) && roles[q] != at && Entry(at, roles[q]) == i
  {
  }

  /** From vm to vm', the tables at or below `at` with entry below i became free; every other page
      kept its use, and every page that is neither freed nor the table p itself its words. */
  ghost predicate FreedTo(vm: Vm, vm': Vm, roles: map<nat, Role>, at: Role, i: nat, p: nat)
  {
    && vm'.trees == vm.trees && vm'.use.Keys == vm.use.Keys && vm'.mem.Keys == vm.mem.Keys
    && (forall q | q in vm.use ::
          vm'.use[q] == if q in roles && Under(at, roles[q]) && !ToFree(roles, at, i, q) then Free else vm.use[q])
    && (forall q | q in vm.mem && q != p && !(q in roles && Under(at, roles[q]) && !ToFree(roles, at, i, q)) ::
          vm'.mem[q] == vm.mem[q])
  }

  /** All of it freed, the table `at` included. */
  ghost predicate FreedAll(vm: Vm, vm': Vm, roles: map<nat, Role>, at: Role)
  {
    && vm'.trees == vm.trees && vm'.use.Keys == vm.use.Keys && vm'.mem.Keys == vm.mem.Keys
    && (forall q | q in vm.use :: vm'.use[q] == if q in roles && Under(at, roles[q]) then Free else vm.use[q])
    && (forall q | q in vm.mem && !(q in roles && Under(at, roles[q])) :: vm'.mem[q] == vm.mem[q])
  }

  lemma FreedKid(vm: Vm, vm1: Vm, vm2: Vm, vm3: Vm, t: Tree, root: nat, roles: map<nat, Role>, at: Role, i: nat, p: nat)
    requires RolesOk(t, root, roles) && !at.Low? && p in roles && roles[p] == at && p in vm.mem
    requires FreedTo(vm, vm1, roles, at, i, p) && FreedAll(vm1, vm2, roles, Kid(at, i))
    requires i < ENTRIES && vm3 == vm2.(mem := vm2.mem[p := vm1.mem[p][i := 0]])
    requires p in vm1.mem && Intact(vm, t, roles, at, 0)
    ensures FreedTo(vm, vm3, roles, at, i + 1, p)
  {
    hide RolesOk;
    forall q | q in roles
      ensures Under(Kid(at, i), roles[q]) <==> Under(at, roles[q]) && roles[q] != at && Entry(at, roles[q]) == i
    {
      KidCovers(roles, at, i, q);
    }
  }

  lemma FreedNone(vm: Vm, vm1: Vm, roles: map<nat, Role>, at: Role, i: nat, p: nat)
    requires FreedTo(vm, vm1, roles, at, i, p)
    requires forall q | ToFree(roles, at, i, q) && roles[q] != at :: Entry(at, roles[q]) != i
    ensures FreedTo(vm, vm1, roles, at, i + 1, p)
  {
  }

  lemma FreedStart(vm: Vm, roles: map<nat, Role>, at: Role, p: nat)
    ensures FreedTo(vm, vm, roles, at, 0, p)
  {
  }

  /** The tables below entry i are intact whenever the loop has freed only earlier ones. */
  lemma KidIntact(vm: Vm, vm1: Vm, t: Tree, roles: map<nat, Role>, at: Role, i: nat, p: nat)
    requires Intact(vm, t, roles, at, 0) && FreedTo(vm, vm1, roles, at, i, p)
    requires !at.Low? && p in roles && roles[p] == at
    requires forall q | q in roles && roles[q] == at :: q == p
    ensures Intact(vm1, t, roles, Kid(at, i), 0)
    ensures forall q | q in roles && roles[q] == Kid(at, i) ::
              q in vm1.use && vm1.use[q].Held? && q in vm1.mem && TableWords(vm1.mem[q], t, Kid(at, i))
  {
    hide TableWords;
    forall q | q in roles
      ensures Under(Kid(at, i), roles[q]) <==> Under(at, roles[q]) && roles[q] != at && Entry(at, roles[q]) == i
    {
      KidCovers(roles, at, i, q);
    }
    forall q | ToFree(roles, Kid(at, i), 0, q)
      ensures q in vm1.use && vm1.use[q].Held? && q in vm1.mem && TableWords(vm1.mem[q], t, roles[q])
    {
      assert ToFree(roles, at, 0, q) && ToFree(roles, at, i, q);
    }
  }

  lemma OneOfRole(t: Tree, root: nat, roles: map<nat, Role>, p: nat)
    requires RolesOk(t, root, roles) && p in roles
    ensures forall q | q in roles && roles[q] == roles[p] :: q == p
    ensures roles[p].Mid? ==> roles[p].a in t.mids
  {
    assert RoleOf(t, root, roles[p], p);
    forall q | q in roles && roles[q] == roles[p]
      ensures q == p
    {
      assert RoleOf(t, root, roles[q], q);
    }
  }

  lemma FreedWhole(vm: Vm, vm1: Vm, vm2: Vm, roles: map<nat, Role>, at: Role, p: nat, junk: Words)
    requires FreedTo(vm, vm1, roles, at, ENTRIES, p) && p in roles && roles[p] == at && p in vm.use && p in vm.mem
    requires forall q | q in roles && roles[q] == at :: q == p
    requires forall q | q in roles && Under(at, roles[q]) && roles[q] != at :: Entry(at, roles[q]) < ENTRIES
    requires vm2 == Pushed(vm1, p, junk)
    ensures FreedAll(vm, vm2, roles, at)
  {
  }

  lemma EntriesBounded(t: Tree, root: nat, roles: map<nat, Role>, at: Role)
    requires RolesOk(t, root, roles)
    ensures forall q | q in roles && Under(at, roles[q]) && roles[q] != at :: Entry(at, roles[q]) < ENTRIES
  {
    forall q | q in roles && Under(at, roles[q]) && roles[q] != at
      ensures Entry(at, roles[q]) < ENTRIES
    {
      assert RoleOf(t, root, roles[q], q);
      if roles[q].Low? {
        var k := (roles[q].a, roles[q].b);
        assert k in t.lows && k.0 in t.mids && k.1 < ENTRIES;
      }
    }
  }

  lemma TopHeld(vm: Vm, t: Tree, roles: map<nat, Role>, at: Role, p: nat)
    requires Intact(vm, t, roles, at, 0) && p in roles && roles[p] == at
    ensures p in vm.use && vm.use[p].Held? && p in vm.mem
  {
    assert ToFree(roles, at, 0, p);
  }

  lemma SameAsSelf(vm: Vm)
    ensures LeavesSame(vm, vm)
  {
  }

  lemma KidElsewhere(vm1: Vm, vm2: Vm, roles: map<nat, Role>, at: Role, i: nat, p: nat)
    requires !at.Low? && FreedAll(vm1, vm2, roles, Kid(at, i))
    requires p in roles && roles[p] == at && p in vm1.mem && p in vm1.use
    ensures p in vm2.mem && vm2.mem[p] == vm1.mem[p] && p in vm2.use && vm2.use[p] == vm1.use[p]
  {
    KidCovers(roles, at, i, p);
  }

  /** Writing into a held page changes no page table. */
  lemma HeldStore(vm: Vm, vm': Vm, p: nat)
    requires Books(vm) && Trees(vm) && p in vm.use && vm.use[p].Held? && p in vm.mem && p in vm'.mem
    requires vm' == vm.(mem := vm.mem[p := vm'.mem[p]])
    ensures Books(vm') && Trees(vm') && LeavesSame(vm, vm')
  {
    hide Trees, Leaf;
    NoTreeChanged(vm, vm');
  }

  // ---- A page table at the end of its life ----

  /** The page with indices a, b, c. */
  function VpnOf(a: nat, b: nat, c: nat): nat
  {
    a * 0x4_0000 + b * ENTRIES + c
  }

  lemma VpnIndices(a: nat, b: nat, c: nat)
    requires a < HALF && b < ENTRIES && c < ENTRIES
    ensures var v := VpnOf(a, b, c); v < MAXVPN && Px(2, v) == a && Px(1, v) == b && Px(0, v) == c
  {
    var v := VpnOf(a, b, c);
    assert v / ENTRIES == a * ENTRIES + b;
    assert v / 0x4_0000 == a;
  }

  ghost function RolesOfTree(vm: Vm, root: nat): map<nat, Role>
  {
    map p | p in vm.use && vm.use[p].Table? && vm.use[p].root == root :: vm.use[p].role
  }

  /** The books once the kernel has decided to free page table `root`: its tables are held. */
  ghost function Doomed(vm: Vm, root: nat): Vm
  {
    vm.(use := map p | p in vm.use :: if vm.use[p].Table? && vm.use[p].root == root then Held else vm.use[p],
        trees := vm.trees - {root})
  }

  lemma DoomedRoles(vm: Vm, root: nat)
    requires Trees(vm) && TreeOk(vm, root)
    ensures RolesOk(vm.trees[root], root, RolesOfTree(vm, root))
    ensures root in RolesOfTree(vm, root) && RolesOfTree(vm, root)[root] == Root
  {
    hide RootLinks, MidLinks;
    var roles := RolesOfTree(vm, root);
    forall q | q in roles
      ensures RoleOf(vm.trees[root], root, roles[q], q)
    {
      assert InTree(vm, q);
    }
  }

  lemma ClearTable(vm: Vm, root: nat, a: nat, b: nat, c: nat)
    requires TreeOk(vm, root) && (a, b) in vm.trees[root].lows && c < ENTRIES
    requires forall v: nat | v < MAXVPN :: Leaf(vm, root, v) == 0
    ensures vm.trees[root].lows[(a, b)] in vm.mem && vm.mem[vm.trees[root].lows[(a, b)]][c] == 0
  {
    hide RootLinks, MidLinks, Px;
    var k := (a, b);
    assert TableAt(vm, vm.trees[root].lows[k], root, Low(k.0, k.1));
    assert k.0 in vm.trees[root].mids;
    VpnIndices(a, b, c);
    assert Leaf(vm, root, VpnOf(a, b, c)) == 0;
  }

  lemma DoomedWords(vm: Vm, root: nat, q: nat)
    requires Trees(vm) && TreeOk(vm, root) && q in RolesOfTree(vm, root)
    requires forall v: nat | v < MAXVPN :: Leaf(vm, root, v) == 0
    ensures q in vm.mem && TableWords(vm.mem[q], vm.trees[root], RolesOfTree(vm, root)[q])
  {
    hide Leaf, LinkIs, Px;
    var t := vm.trees[root];
    assert InTree(vm, q);
    var r := vm.use[q].role;
    if r.Mid? { assert TableAt(vm, t.mids[r.a], root, Mid(r.a)); }
    if r.Low? {
      var k := (r.a, r.b);
      assert TableAt(vm, t.lows[k], root, Low(k.0, k.1));
    }
    forall i: nat | i < ENTRIES
      ensures EntryOk(vm.mem[q], t, r, i)
    {
      if r == Root {
        assert LinkIs(vm.mem[root], i, i in t.mids, if i in t.mids then t.mids[i] else 0);
      } else if r.Mid? {
        assert LinkIs(vm.mem[t.mids[r.a]], i, (r.a, i) in t.lows, if (r.a, i) in t.lows then t.lows[(r.a, i)] else 0);
      } else {
        ClearTable(vm, root, r.a, r.b, i);
      }
    }
  }

  lemma DoomKeeps(vm: Vm, root: nat)
    requires Inv(vm) && TreeOk(vm, root) && forall v: nat | v < MAXVPN :: Leaf(vm, root, v) == 0
    ensures Books(Doomed(vm, root)) && Trees(Doomed(vm, root))
    ensures forall r, v: nat | r in vm.trees && r != root :: Leaf(Doomed(vm, root), r, v) == Leaf(vm, r, v)
    ensures Intact(Doomed(vm, root), vm.trees[root], RolesOfTree(vm, root), Root, 0)
    ensures RolesOk(vm.trees[root], root, RolesOfTree(vm, root))
    ensures root in RolesOfTree(vm, root) && RolesOfTree(vm, root)[root] == Root
    ensures root in vm.mem && TableWords(vm.mem[root], vm.trees[root], Root)
  {
    hide Leaf, TableWords, RolesOk, DataOk, TreeOk, RoleOf;
    var vm' := Doomed(vm, root);
    DoomedRoles(vm, root);
    forall q | q in RolesOfTree(vm, root)
      ensures q in vm.mem && TableWords(vm.mem[q], vm.trees[root], RolesOfTree(vm, root)[q])
    {
      DoomedWords(vm, root, q);
    }
    TreesHas(vm, root);
    OneTreeChanged(vm, vm', root);
  }

  lemma DoomedData(vm: Vm, vm': Vm, root: nat)
    requires DataOk(vm) && root in vm.trees && (forall v: nat | v < MAXVPN :: Leaf(vm, root, v) == 0)
    requires vm'.trees == vm.trees - {root} && vm'.use.Keys == vm.use.Keys
    requires forall q | q in vm.use && !(vm.use[q].Table? && vm.use[q].root == root) :: vm'.use[q] == vm.use[q]
    requires forall q | q in vm.use && vm.use[q].Table? && vm.use[q].root == root ::
               vm'.use[q].Free? || vm'.use[q].Held?
    requires forall r, v: nat | r in vm'.trees && v < MAXVPN :: Leaf(vm', r, v) == Leaf(vm, r, v)
    ensures DataOk(vm')
  {
    hide Leaf, Ppn, IsLeaf;
    forall r, v: nat | r in vm'.trees && v < USERTOP
      ensures UserLeaf(vm', r, v)
    {
      assert UserLeaf(vm, r, v);
    }
    forall q | q in vm'.use
      ensures UserPage(vm', q)
    {
      assert UserPage(vm, q);
    }
  }

  /** From vm to vm' page table `root` and all its tables and user pages are gone, all free;
      every other page table and every other page in use is as it was. */
  ghost predicate SpaceFreed(vm: Vm, vm': Vm, root: nat)
  {
    && vm'.trees == vm.trees - {root} && vm'.use.Keys == vm.use.Keys
    && (forall q | q in vm.use ::
          vm'.use[q] == if (vm.use[q].Table? || vm.use[q].Page?) && vm.use[q].root == root then Free else vm.use[q])
    && (forall q | q in vm.use && q in vm.mem && !vm.use[q].Free? && vm'.use[q] == vm.use[q] && !vm.use[q].Table? ::
          q in vm'.mem && vm'.mem[q] == vm.mem[q])
    && (forall r, v: nat | r in vm'.trees && v < MAXVPN :: Leaf(vm', r, v) == Leaf(vm, r, v))
  }

  /** Dooming a page table and freeing all its tables, in one step. */
  lemma TablesFreed(vm: Vm, vm3: Vm, root: nat)
    requires Inv(vm) && TreeOk(vm, root) && (forall v: nat | v < MAXVPN :: Leaf(vm, root, v) == 0)
    requires FreedAll(Doomed(vm, root), vm3, RolesOfTree(vm, root), Root) && LeavesSame(Doomed(vm, root), vm3)
    ensures vm3.trees == vm.trees - {root} && vm3.use.Keys == vm.use.Keys && vm3.mem.Keys == vm.mem.Keys
    ensures forall q | q in vm.use ::
              vm3.use[q] == if vm.use[q].Table? && vm.use[q].root == root then Free else vm.use[q]
    ensures forall q | q in vm.mem && !(q in vm.use && vm.use[q].Table? && vm.use[q].root == root) ::
              vm3.mem[q] == vm.mem[q]
    ensures forall r, v: nat | r in vm3.trees && v < MAXVPN :: Leaf(vm3, r, v) == Leaf(vm, r, v)
  {
    hide Leaf, Inv, TreeOk, Intact, RolesOk, TableWords;
    DoomKeeps(vm, root);
  }

  lemma FreeEnd(vm: Vm, vm1: Vm, vm3: Vm, root: nat, n: nat)
    requires Inv(vm) && TreeOk(vm, root) && Sized(vm, root, n)
    requires Released(vm, vm1, root, 0, n) && Unmapping(vm, vm1, root, 0, n) && Inv(vm1) && TreeOk(vm1, root)
    requires forall v: nat | v < MAXVPN :: Leaf(vm1, root, v) == 0
    requires FreedAll(Doomed(vm1, root), vm3, RolesOfTree(vm1, root), Root)
    requires LeavesSame(Doomed(vm1, root), vm3)
    ensures SpaceFreed(vm, vm3, root) && DataOk(vm3)
  {
    hide Leaf, Books, Trees, TreeOk, UserLeaf, Ppn, FreedAll, LeavesSame, Doomed, RolesOfTree;
    TablesFreed(vm1, vm3, root);
    TreesHas(vm1, root);
    forall q | q in vm.use
      ensures vm3.use[q] == if (vm.use[q].Table? || vm.use[q].Page?) && vm.use[q].root == root then Free else vm.use[q]
    {
      assert UserPage(vm, q);
    }
    DoomedData(vm1, vm3, root);
  }

  lemma AllClear(vm: Vm, vm1: Vm, root: nat, n: nat)
    requires Sized(vm, root, n) && Unmapping(vm, vm1, root, 0, n)
    requires forall v: nat | USERTOP <= v < MAXVPN :: Leaf(vm, root, v) == 0
    ensures forall v: nat | v < MAXVPN :: Leaf(vm1, root, v) == 0
  {
    hide Leaf;
  }

  // ---- From before an address space existed ----

  /** vm' is vm plus one address space `child` made of pages that were free. */
  ghost predicate Since(vm: Vm, vm': Vm, child: nat)
  {
    && child !in vm.trees && vm'.trees.Keys == vm.trees.Keys + {child} && vm'.use.Keys == vm.use.Keys
    && (forall r | r in vm.trees :: vm'.trees[r] == vm.trees[r])
    && (forall r, v: nat | r in vm.trees && v < MAXVPN :: Leaf(vm', r, v) == Leaf(vm, r, v))
    && (forall q | q in vm.use && !vm.use[q].Free? :: vm'.use[q] == vm.use[q])
    && (forall q | q in vm.use && vm.use[q].Free? ::
          vm'.use[q].Free? || ((vm'.use[q].Table? || vm'.use[q].Page?) && vm'.use[q].root == child))
    && (forall q | q in vm.use && q in vm.mem && (vm.use[q].Held? || vm.use[q].Page?) ::
          q in vm'.mem && vm'.mem[q] == vm.mem[q])
  }

  lemma SinceCreated(vm: Vm, vm': Vm, junk: Words)
    requires Inv(vm) && vm.freelist != [] && vm' == Created(vm, junk)
    ensures Since(vm, vm', vm.freelist[0]) && Inv(vm') && TreeOk(vm', vm.freelist[0])
    ensures forall v: nat :: Leaf(vm', vm.freelist[0], v) == 0
  {
    hide Leaf, Trees, DataOk, TreeOk;
    CreateTree(vm, junk);
    CreateKeepsData(vm, vm', junk);
    assert vm.freelist[0] in vm.freelist;
  }

  lemma SinceGrown(vm: Vm, vm1: Vm, vm2: Vm, child: nat)
    requires Since(vm, vm1, child) && Grown(vm1, vm2, child)
    requires forall r, v: nat | r in vm1.trees && r != child && v < MAXVPN :: Leaf(vm2, r, v) == Leaf(vm1, r, v)
    ensures Since(vm, vm2, child)
  {
    hide Leaf;
  }

  lemma SinceGrownSame(vm: Vm, vm1: Vm, vm2: Vm, child: nat)
    requires Since(vm, vm1, child) && Grown(vm1, vm2, child) && LeavesSame(vm1, vm2)
    ensures Since(vm, vm2, child)
  {
    hide Leaf, Grown, Since;
    SinceGrown(vm, vm1, vm2, child);
  }

  lemma SinceReleased(vm: Vm, vm1: Vm, vm2: Vm, child: nat, v: nat, k: nat)
    requires Since(vm, vm1, child) && Released(vm1, vm2, child, v, k) && Unmapping(vm1, vm2, child, v, k)
    requires DataOk(vm)
    ensures Since(vm, vm2, child)
  {
    hide Leaf, UserLeaf;
    forall q | q in vm.use && !vm.use[q].Free?
      ensures vm2.use[q] == vm.use[q]
    {
      assert UserPage(vm, q);
    }
  }

  /** Freeing that address space again leaves every page in the use it had. */
  lemma SinceFreed(vm: Vm, vm1: Vm, vm2: Vm, child: nat)
    requires Since(vm, vm1, child) && SpaceFreed(vm1, vm2, child) && DataOk(vm) && Trees(vm)
    ensures vm2.use == vm.use && vm2.trees == vm.trees && LeavesSame(vm, vm2)
    ensures forall q | q in vm.use && q in vm.mem && (vm.use[q].Held? || vm.use[q].Page?) ::
              q in vm2.mem && vm2.mem[q] == vm.mem[q]
  {
    hide Leaf, UserLeaf, TreeOk, RoleOf;
    forall q | q in vm.use && !vm.use[q].Free?
      ensures vm2.use[q] == vm.use[q]
    {
      assert UserPage(vm, q);
      assert InTree(vm, q);
    }
  }

  lemma SpecialMapped(vm: Vm, vm': Vm, root: nat, v: nat, k: nat, p: nat, perm: nat)
    requires DataOk(vm) && Grown(vm, vm', root) && Mapping(vm, vm', root, v, k, p, perm) && USERTOP <= v
    ensures DataOk(vm')
    ensures forall r, w: nat | r in vm.trees && r != root && w < MAXVPN :: Leaf(vm', r, w) == Leaf(vm, r, w)
    ensures forall w: nat | w < USERTOP :: Leaf(vm', root, w) == Leaf(vm, root, w)
  {
    hide Leaf, Pte, OrV, Ppn, Valid, IsLeaf;
    forall r, w: nat | r in vm'.trees && w < USERTOP
      ensures UserLeaf(vm', r, w)
    {
      assert UserLeaf(vm, r, w);
    }
    forall q | q in vm'.use
      ensures UserPage(vm', q)
    {
      assert UserPage(vm, q);
    }
  }

  // ---- The two pages above user memory ----

  /** The PTEs of the trapframe and the trampoline page, the only ones above user memory. */
  ghost predicate TopPages(vm: Vm, root: nat, trapframe: nat, trampoline: nat)
  {
    root in vm.trees && Leaf(vm, root, USERTOP) == trapframe && Leaf(vm, root, USERTOP + 1) == trampoline
  }

  lemma TopsClear(vm: Vm, root: nat)
    requires TopPages(vm, root, 0, 0)
    ensures forall v: nat | USERTOP <= v < MAXVPN :: Leaf(vm, root, v) == 0
  {
    hide Leaf;
  }

  lemma EmptySpace(vm: Vm, root: nat)
    requires root in vm.trees && forall v: nat :: Leaf(vm, root, v) == 0
    ensures Sized(vm, root, 0) && TopPages(vm, root, 0, 0)
  {
    hide Leaf;
  }

  /** One of the two pages was mapped, or not. */
  lemma TopMapped(vm: Vm, vm': Vm, root: nat, v: nat, k: nat, p: nat, perm: nat, tf: nat, tramp: nat)
    requires DataOk(vm) && Grown(vm, vm', root) && Mapping(vm, vm', root, v, k, p, perm)
    requires USERTOP <= v <= USERTOP + 1 && k <= 1 && Sized(vm, root, 0) && TopPages(vm, root, tf, tramp)
    ensures DataOk(vm') && Sized(vm', root, 0)
    ensures TopPages(vm', root, if k == 1 && v == USERTOP then Pte(p, OrV(perm)) else tf,
                     if k == 1 && v == USERTOP + 1 then Pte(p, OrV(perm)) else tramp)
  {
    hide Leaf, Pte, OrV, DataOk, Grown;
    SpecialMapped(vm, vm', root, v, k, p, perm);
  }

  lemma TopUnmapped(vm: Vm, vm': Vm, root: nat, v: nat, n: nat, tf: nat, tramp: nat)
    requires Unmapping(vm, vm', root, v, 1) && USERTOP <= v <= USERTOP + 1
    requires Sized(vm, root, n) && TopPages(vm, root, tf, tramp)
    ensures Sized(vm', root, n)
    ensures TopPages(vm', root, if v == USERTOP then 0 else tf, if v == USERTOP + 1 then 0 else tramp)
  {
    hide Leaf;
  }

  lemma SinceTopMapped(vm: Vm, vm1: Vm, vm2: Vm, child: nat, v: nat, k: nat, p: nat, perm: nat)
    requires Since(vm, vm1, child) && Grown(vm1, vm2, child) && Mapping(vm1, vm2, child, v, k, p, perm)
    ensures Since(vm, vm2, child)
  {
    hide Leaf, Pte, OrV, Grown, Since;
    SinceGrown(vm, vm1, vm2, child);
  }

  /** Unmapping the pages above user memory and then freeing the space frees the space. */
  lemma UnmappedThenFreed(vm: Vm, vm1: Vm, vm2: Vm, root: nat, v: nat)
    requires DataOk(vm) && Released(vm, vm1, root, v, 1) && Unmapping(vm, vm1, root, v, 1) && USERTOP <= v
    requires SpaceFreed(vm1, vm2, root)
    ensures SpaceFreed(vm, vm2, root)
  {
    hide Leaf, UserLeaf;
    forall q | q in vm.use
      ensures vm1.use[q] == vm.use[q]
    {
      assert UserPage(vm, q);
    }
  }

  lemma TopHas(vm: Vm, root: nat, tf: nat, tramp: nat)
    requires TopPages(vm, root, tf, tramp)
    ensures root in vm.trees && Leaf(vm, root, USERTOP) == tf && Leaf(vm, root, USERTOP + 1) == tramp
  {
  }

  lemma SameTops(vm: Vm, vm': Vm, root: nat, tf: nat, tramp: nat)
    requires TopPages(vm, root, tf, tramp) && LeavesSame(vm, vm')
    ensures TopPages(vm', root, tf, tramp)
  {
    hide Leaf;
  }

  lemma SinceTreeOk(vm: Vm, vm': Vm, child: nat)
    requires Since(vm, vm', child) && Trees(vm')
    ensures TreeOk(vm', child)
  {
    hide Leaf, TreeOk;
  }

  lemma PteRemovable(p: nat, perm: nat)
    requires perm == PTE_R + PTE_W || perm == PTE_R + PTE_X
    ensures Pte(p, OrV(perm)) != 0 && Removable(Pte(p, OrV(perm)))
  {
    hide Pte, Flags, Valid;
    PteParts(p, perm + 1);
    RemovableIs(Pte(p, perm + 1));
    ZeroIsInvalid();
  }

  // ---- Fork ----

  /** vm' has the use of every page, every page table and every word in use that vm has. */
  ghost predicate Restored(vm: Vm, vm': Vm)
  {
    && vm'.use == vm.use && vm'.trees == vm.trees && LeavesSame(vm, vm')
    && (forall q | q in vm.use && q in vm.mem && (vm.use[q].Held? || vm.use[q].Page?) ::
          q in vm'.mem && vm'.mem[q] == vm.mem[q])
  }

  lemma NothingRestored(vm: Vm)
    ensures Restored(vm, vm)
  {
  }

  lemma RestoredUse(vm: Vm, vm': Vm)
    requires Restored(vm, vm')
    ensures vm'.use == vm.use
  {
  }

  /** A page going between the free list and a holder is no user page. */
  lemma HeldData(vm: Vm, vm': Vm, p: nat)
    requires DataOk(vm) && vm'.trees == vm.trees && LeavesSame(vm, vm') && p in vm.use && p in vm'.use
    requires (vm.use[p].Free? || vm.use[p].Held?) && (vm'.use[p].Free? || vm'.use[p].Held?)
    requires vm'.use == vm.use[p := vm'.use[p]]
    ensures DataOk(vm')
  {
    hide Leaf, Valid, IsLeaf, Ppn;
    forall r, v: nat | r in vm'.trees && v < USERTOP
      ensures UserLeaf(vm', r, v)
    {
      assert UserLeaf(vm, r, v);
    }
    forall q | q in vm'.use
      ensures UserPage(vm', q)
    {
      assert UserPage(vm, q);
    }
  }

  lemma PoppedInv(vm: Vm, fill: Words, parent: nat, n: nat)
    requires Inv(vm) && vm.freelist != [] && TreeOk(vm, parent) && Sized(vm, parent, n)
    ensures Inv(Popped(vm, fill)) && TreeOk(Popped(vm, fill), parent) && Sized(Popped(vm, fill), parent, n)
    ensures Popped(vm, fill).use[vm.freelist[0]].Held? && LeavesSame(vm, Popped(vm, fill))
  {
    hide Leaf, Trees, TreeOk, DataOk;
    PopKeeps(vm, fill);
    PopTreeOk(vm, parent, fill);
    assert vm.freelist[0] in vm.freelist;
    HeldData(vm, Popped(vm, fill), vm.freelist[0]);
  }

  lemma PushedData(vm: Vm, p: nat, junk: Words)
    requires Inv(vm) && p in vm.use && vm.use[p].Held?
    ensures Inv(Pushed(vm, p, junk)) && LeavesSame(vm, Pushed(vm, p, junk))
  {
    hide Leaf, Trees, Books, DataOk;
    PushKeeps(vm, p, junk);
    HeldData(vm, Pushed(vm, p, junk), p);
  }

  /** While a child's address space exists, a page held before stays held. */
  lemma SinceHeld(vm: Vm, vm1: Vm, child: nat, p: nat)
    requires Since(vm, vm1, child) && p in vm.use && vm.use[p].Held?
    ensures p in vm1.use && vm1.use[p].Held?
  {
    hide Leaf;
  }

  lemma ChildApart(vm: Vm, vm1: Vm, parent: nat, child: nat, n: nat)
    requires Since(vm, vm1, child) && Sized(vm, parent, n) && Trees(vm1)
    ensures child != parent && parent in vm1.trees && TreeOk(vm1, parent) && Sized(vm1, parent, n)
  {
    hide Leaf, TreeOk;
  }

  /** A page taken, an address space made, the page given back. */
  lemma HeldThenFreed(vm: Vm, vm2: Vm, child: nat, fill: Words, junk: Words)
    requires Books(vm) && vm.freelist != [] && Since(Popped(vm, fill), vm2, child) && LeavesSame(vm, Popped(vm, fill))
    requires LeavesSame(vm2, Pushed(vm2, vm.freelist[0], junk))
    ensures Since(vm, Pushed(vm2, vm.freelist[0], junk), child)
  {
    hide Leaf;
    assert vm.freelist[0] in vm.freelist;
  }

  lemma HeldAndBack(vm: Vm, vm2: Vm, fill: Words, junk: Words)
    requires Books(vm) && vm.freelist != [] && Restored(Popped(vm, fill), vm2) && LeavesSame(vm, Popped(vm, fill))
    requires LeavesSame(vm2, Pushed(vm2, vm.freelist[0], junk))
    ensures Restored(vm, Pushed(vm2, vm.freelist[0], junk))
  {
    hide Leaf;
    assert vm.freelist[0] in vm.freelist;
  }

  /** vm' is vm plus one process: trapframe page tf and address space child, which has the parent's
      n user pages word for word and flag for flag, and the two pages above user memory. */
  ghost predicate Forked(vm: Vm, vm': Vm, parent: nat, child: nat, n: nat, tf: nat, trampoline: nat)
  {
    && parent in vm.trees && child !in vm.trees && vm'.trees.Keys == vm.trees.Keys + {child}
    && Sized(vm', child, n)
    && TopPages(vm', child, Pte(tf, OrV(PTE_R + PTE_W)), Pte(trampoline, OrV(PTE_R + PTE_X)))
    && (forall v: nat | v < n ::
          PageWords(vm', child, v) == PageWords(vm, parent, v) && PageFlags(vm', child, v) == PageFlags(vm, parent, v))
    && (forall r, v: nat | r in vm.trees && v < MAXVPN :: Leaf(vm', r, v) == Leaf(vm, r, v))
    && vm'.use.Keys == vm.use.Keys && tf in vm.use && vm.use[tf].Free? && vm'.use[tf].Held?
    && (forall q | q in vm.use && !vm.use[q].Free? :: vm'.use[q] == vm.use[q])
    && (forall q | q in vm.use && q in vm.mem && (vm.use[q].Held? || vm.use[q].Page?) ::
          q in vm'.mem && vm'.mem[q] == vm.mem[q])
    && (forall q | q in vm.use && vm.use[q].Free? && q != tf ::
          vm'.use[q].Free? || ((vm'.use[q].Table? || vm'.use[q].Page?) && vm'.use[q].root == child))
  }

  /** The parent's pages are the same before and after the child's page table was made. */
  lemma ParentSame(vm: Vm, vm1: Vm, parent: nat, child: nat, fill: Words, v: nat)
    requires Inv(vm) && vm.freelist != [] && LeavesSame(vm, Popped(vm, fill)) && v < USERTOP
    requires Since(Popped(vm, fill), vm1, child) && parent in vm.trees && Leaf(vm, parent, v) != 0
    ensures parent in vm1.trees && PageWords(vm1, parent, v) == PageWords(vm, parent, v)
    ensures PageFlags(vm1, parent, v) == PageFlags(vm, parent, v) == OrV(PageFlags(vm, parent, v))
  {
    hide Leaf, OrV, Ppn, Flags, Trees, Valid, IsLeaf;
    assert UserLeaf(vm, parent, v);
    FlagsOfLeaf(Leaf(vm, parent, v));
    assert vm.freelist[0] in vm.freelist;
  }

  lemma ForkPage(vm: Vm, vm1: Vm, vm2: Vm, parent: nat, child: nat, n: nat, fill: Words, v: nat)
    requires Inv(vm) && Sized(vm, parent, n) && vm.freelist != [] && LeavesSame(vm, Popped(vm, fill)) && v < n
    requires Since(Popped(vm, fill), vm1, child) && parent in vm1.trees
    requires Added(vm1, vm2, child, 0, SpaceWords(vm1, parent, n), SpaceFlags(vm1, parent, n))
    ensures child in vm2.trees
    ensures PageWords(vm2, child, v) == PageWords(vm, parent, v) && PageFlags(vm2, child, v) == PageFlags(vm, parent, v)
  {
    hide Leaf, OrV, Ppn, Flags, Inv, Since, LeavesSame, OthersKept;
    ParentSame(vm, vm1, parent, child, fill, v);
    assert PageAt(vm2, child, 0, SpaceWords(vm1, parent, n), SpaceFlags(vm1, parent, n), v);
  }

  lemma ForkDone(vm: Vm, vm1: Vm, vm2: Vm, parent: nat, child: nat, n: nat, fill: Words, trampoline: nat)
    requires Inv(vm) && Sized(vm, parent, n) && vm.freelist != [] && LeavesSame(vm, Popped(vm, fill))
    requires Since(Popped(vm, fill), vm1, child) && Sized(vm2, child, n) && child != parent
    requires TopPages(vm1, child, Pte(vm.freelist[0], OrV(PTE_R + PTE_W)), Pte(trampoline, OrV(PTE_R + PTE_X)))
    requires parent in vm1.trees && Added(vm1, vm2, child, 0, SpaceWords(vm1, parent, n), SpaceFlags(vm1, parent, n))
    ensures Forked(vm, vm2, parent, child, n, vm.freelist[0], trampoline)
  {
    hide Leaf, Pte, OrV, Ppn, Flags, Trees, DataOk, PageAt, PageWords, PageFlags;
    forall v: nat | v < n
      ensures PageWords(vm2, child, v) == PageWords(vm, parent, v)
      ensures PageFlags(vm2, child, v) == PageFlags(vm, parent, v)
    {
      ForkPage(vm, vm1, vm2, parent, child, n, fill, v);
    }
    assert vm.freelist[0] in vm.freelist;
  }
}
