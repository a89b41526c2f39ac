/** Sv39 page tables over physical pages (kernel/vm.c, kernel/riscv.h; section 4.4 of the RISC-V
    Privileged Architecture, 20211203): a three-level radix tree that stands for a finite map
    from page numbers to PTEs, with every physical page in exactly one use. Addresses are page
    numbers: a physical page p is the 4096 bytes from p * PGSIZE on, kept as 512 words. */
module PageTable {
  import opened Sequences

  const PGSIZE: nat := 4096
  const ENTRIES: nat := 512
  /** Only the lower half of a root table lies below MAXVA. */
  const HALF: nat := 256
  /** MAXVA / PGSIZE: one bit less than Sv39 allows. */
  const MAXVPN: nat := 0x400_0000
  /** Pages below the trapframe page, which user memory may use. */
  const USERTOP: nat := 0x3ff_fffe

  const PTE_V: nat := 1
  const PTE_R: nat := 2
  const PTE_W: nat := 4
  const PTE_X: nat := 8
  const PTE_U: nat := 16

  /** PA2PTE(pa) | flags */
  function Pte(p: nat, flags: nat): nat { p * 1024 + flags }

  /** PTE2PA and PTE_FLAGS */
  function Ppn(pte: nat): nat { pte / 1024 }

  function Flags(pte: nat): nat { pte % 1024 }

  predicate Valid(pte: nat) { pte % 2 == 1 }

  /** pte & (PTE_R|PTE_W|PTE_X) != 0 */
  predicate IsLeaf(pte: nat) { pte / 2 % 8 != 0 }

  lemma PteParts(p: nat, flags: nat)
    requires flags < 1024
    ensures Ppn(Pte(p, flags)) == p && Flags(Pte(p, flags)) == flags
    ensures Valid(Pte(p, flags)) == (flags % 2 == 1)
    ensures IsLeaf(Pte(p, flags)) == IsLeaf(flags)
  {
    assert (p * 1024 + flags) / 2 == p * 512 + flags / 2;
  }

  /** PX(level, va), on page numbers. */
  function Px(level: nat, v: nat): (x: nat)
    requires level <= 2
    ensures x < ENTRIES
  {
    if level == 2 then v / 0x4_0000 % ENTRIES else if level == 1 then v / ENTRIES % ENTRIES else v % ENTRIES
  }

  /** Different pages below MAXVA have different index triples. */
  lemma PxInjective(v: nat, w: nat)
    requires v < MAXVPN && w < MAXVPN
    requires Px(2, v) == Px(2, w) && Px(1, v) == Px(1, w) && Px(0, v) == Px(0, w)
    ensures v == w
  {
    assert v / 0x4_0000 == v / ENTRIES / ENTRIES && w / 0x4_0000 == w / ENTRIES / ENTRIES;
  }

  // ---- Physical pages and their uses ----

  datatype Role = Root | Mid(a: nat) | Low(a: nat, b: nat)

  /** What a physical page is for: on the free list, held by kernel code, a table of the page
      table rooted at `root`, or user page v of that address space. */
  datatype Use = Free | Held | Table(root: nat, role: Role) | Page(root: nat, v: nat)

  /** Where the tables of a page table are: second level by index, third level by two indices. */
  datatype Tree = Tree(mids: map<nat, nat>, lows: map<(nat, nat), nat>)

  type Words = w: seq<nat> | |w| == 512 witness seq(512, _ => 0)

  function Zeros(): (w: Words)
    ensures forall i | 0 <= i < 512 :: w[i] == 0
  {
    seq(512, _ => 0)
  }

  /** `use` and `trees` are the books that the proofs keep; the kernel has mem and freelist. */
  datatype Vm = Vm(mem: map<nat, Words>, freelist: seq<nat>, use: map<nat, Use>, trees: map<nat, Tree>)

  /** The free list holds exactly the free pages, each once. */
  predicate Books(vm: Vm)
  {
    && (forall p | p in vm.use :: p in vm.mem)
    && Distinct(vm.freelist)
    && (forall p | p in vm.freelist :: p in vm.use && vm.use[p] == Free)
    && (forall p | p in vm.use && vm.use[p] == Free :: p in vm.freelist)
  }

  predicate TableAt(vm: Vm, p: nat, root: nat, role: Role)
  {
    p in vm.use && vm.use[p] == Table(root, role) && p in vm.mem
  }

  /** The tables of one page table are where the tree says. */
  predicate Placed(vm: Vm, root: nat, t: Tree)
  {
    && TableAt(vm, root, root, Root)
    && (forall a | a in t.mids :: a < HALF && TableAt(vm, t.mids[a], root, Mid(a)))
    && (forall k | k in t.lows :: k.0 in t.mids && k.1 < ENTRIES && TableAt(vm, t.lows[k], root, Low(k.0, k.1)))
  }

  /** Entry b of a table that leads to lower tables. */
  predicate LinkIs(w: Words, b: nat, present: bool, p: nat)
    requires b < ENTRIES
  {
    w[b] == if present then Pte(p, PTE_V) else 0
  }

  predicate RootLinks(vm: Vm, root: nat, t: Tree)
    requires Placed(vm, root, t)
  {
    forall a: nat | a < ENTRIES :: LinkIs(vm.mem[root], a, a in t.mids, if a in t.mids then t.mids[a] else 0)
  }

  predicate MidLinks(vm: Vm, root: nat, t: Tree)
    requires Placed(vm, root, t)
  {
    forall a, b: nat | a in t.mids && b < ENTRIES ::
      LinkIs(vm.mem[t.mids[a]], b, (a, b) in t.lows, if (a, b) in t.lows then t.lows[(a, b)] else 0)
  }

  predicate TreeOk(vm: Vm, root: nat)
  {
    && root in vm.trees
    && Placed(vm, root, vm.trees[root])
    && RootLinks(vm, root, vm.trees[root])
    && MidLinks(vm, root, vm.trees[root])
  }

  /** The page a role names in a tree. */
  predicate RoleOf(t: Tree, root: nat, role: Role, p: nat)
  {
    match role
    case Root => p == root
    case Mid(a) => a in t.mids && t.mids[a] == p
    case Low(a, b) => (a, b) in t.lows && t.lows[(a, b)] == p
  }

  /** A page used as a table is a table of a live tree, in the place its role names. */
  predicate InTree(vm: Vm, p: nat)
    requires p in vm.use
  {
    vm.use[p].Table? ==>
      vm.use[p].root in vm.trees && RoleOf(vm.trees[vm.use[p].root], vm.use[p].root, vm.use[p].role, p)
  }

  predicate Trees(vm: Vm)
  {
    && (forall root | root in vm.trees :: TreeOk(vm, root))
    && (forall p | p in vm.use :: InTree(vm, p))
  }

  /** The leaf PTE of the index triple a, b, c: 0 when there is no table for it. */
  function LeafAt(vm: Vm, root: nat, a: nat, b: nat, c: nat): nat
    requires root in vm.trees && c < ENTRIES
  {
    var t := vm.trees[root];
    if (a, b) in t.lows && t.lows[(a, b)] in vm.mem then vm.mem[t.lows[(a, b)]][c] else 0
  }

  /** The map a page table stands for. */
  function Leaf(vm: Vm, root: nat, v: nat): nat
    requires root in vm.trees
  {
    LeafAt(vm, root, Px(2, v), Px(1, v), Px(0, v))
  }

  // ---- What leaves page tables alone ----

  /** The tables of page table r are the same in vm'. */
  predicate TablesSame(vm: Vm, vm': Vm, r: nat)
  {
    && (r in vm.trees ==> r in vm'.trees && vm'.trees[r] == vm.trees[r])
    && forall p | p in vm.use && p in vm.mem && vm.use[p].Table? && vm.use[p].root == r ::
         p in vm'.use && vm'.use[p] == vm.use[p] && p in vm'.mem && vm'.mem[p] == vm.mem[p]
  }

  lemma TableFrame(vm: Vm, vm': Vm, r: nat, p: nat, role: Role)
    requires TablesSame(vm, vm', r) && TableAt(vm, p, r, role)
    ensures TableAt(vm', p, r, role) && vm'.mem[p] == vm.mem[p]
  {
  }

  lemma TreeFrame(vm: Vm, vm': Vm, r: nat)
    requires TreeOk(vm, r) && TablesSame(vm, vm', r)
    ensures TreeOk(vm', r)
    ensures forall v: nat :: Leaf(vm', r, v) == Leaf(vm, r, v)
  {
    hide Px, LinkIs, TablesSame;
    var t := vm.trees[r];
    TableFrame(vm, vm', r, r, Root);
    assert r in vm'.trees && vm'.trees[r] == t by { TreeSameAs(vm, vm', r); }
    forall a | a in t.mids
      ensures TableAt(vm', t.mids[a], r, Mid(a)) && vm'.mem[t.mids[a]] == vm.mem[t.mids[a]]
    {
      TableFrame(vm, vm', r, t.mids[a], Mid(a));
    }
    forall k | k in t.lows
      ensures TableAt(vm', t.lows[k], r, Low(k.0, k.1)) && vm'.mem[t.lows[k]] == vm.mem[t.lows[k]]
    {
      TableFrame(vm, vm', r, t.lows[k], Low(k.0, k.1));
    }
  }

  lemma TreeSameAs(vm: Vm, vm': Vm, r: nat)
    requires TablesSame(vm, vm', r) && r in vm.trees
    ensures r in vm'.trees && vm'.trees[r] == vm.trees[r]
  {
  }

  /** All tables of all page tables but `root` are the same, and no page became a table of
      another one. */
  ghost predicate OthersSame(vm: Vm, vm': Vm, root: nat)
  {
    && (forall r | r in vm.trees && r != root :: TablesSame(vm, vm', r))
    && (forall r | r in vm'.trees && r != root :: r in vm.trees)
    && (forall p | p in vm'.use && vm'.use[p].Table? && vm'.use[p].root != root ::
          p in vm.use && vm.use[p] == vm'.use[p])
  }

  lemma OneTreeChanged(vm: Vm, vm': Vm, root: nat)
    requires Trees(vm) && OthersSame(vm, vm', root)
    requires root in vm'.trees ==> TreeOk(vm', root)
    requires forall p | p in vm'.use && vm'.use[p].Table? && vm'.use[p].root == root :: InTree(vm', p)
    ensures Trees(vm')
    ensures forall r, v: nat | r in vm.trees && r != root :: r in vm'.trees && Leaf(vm', r, v) == Leaf(vm, r, v)
  {
    hide Leaf, TreeOk, RoleOf;
    forall r | r in vm.trees && r != root
      ensures r in vm'.trees && TreeOk(vm', r) && forall v: nat :: Leaf(vm', r, v) == Leaf(vm, r, v)
    {
      TreeFrame(vm, vm', r);
    }
    forall p | p in vm'.use
      ensures InTree(vm', p)
    {
      if vm'.use[p].Table? && vm'.use[p].root != root { assert InTree(vm, p); }
    }
  }

  /** Neither trees nor tables changed at all. */
  ghost predicate NoTableTouched(vm: Vm, vm': Vm)
  {
    && vm'.trees == vm.trees
    && (forall r | r in vm.trees :: TablesSame(vm, vm', r))
    && (forall p | p in vm'.use && vm'.use[p].Table? :: p in vm.use && vm.use[p] == vm'.use[p])
  }

  lemma NoTreeChanged(vm: Vm, vm': Vm)
    requires Trees(vm) && NoTableTouched(vm, vm')
    ensures Trees(vm')
    ensures forall r, v: nat | r in vm.trees :: Leaf(vm', r, v) == Leaf(vm, r, v)
  {
    hide Leaf, TreeOk, RoleOf;
    forall r | r in vm.trees
      ensures TreeOk(vm', r) && forall v: nat :: Leaf(vm', r, v) == Leaf(vm, r, v)
    {
      TreeFrame(vm, vm', r);
    }
    forall p | p in vm'.use
      ensures InTree(vm', p)
    {
      if vm'.use[p].Table? { assert InTree(vm, p); }
    }
  }

  // ---- kalloc and kfree ----

  function Popped(vm: Vm, junk: Words): Vm
    requires vm.freelist != []
  {
    var p := vm.freelist[0];
    vm.(freelist := vm.freelist[1..], use := vm.use[p := Held], mem := vm.mem[p := junk])
  }

  function Pushed(vm: Vm, p: nat, junk: Words): Vm
  {
    vm.(freelist := [p] + vm.freelist, use := vm.use[p := Free], mem := vm.mem[p := junk])
  }

  lemma PopKeeps(vm: Vm, junk: Words)
    requires Books(vm) && Trees(vm) && vm.freelist != []
    ensures Books(Popped(vm, junk)) && Trees(Popped(vm, junk))
    ensures forall r, v: nat | r in vm.trees :: Leaf(Popped(vm, junk), r, v) == Leaf(vm, r, v)
  {
    hide Leaf, Trees;
    var p := vm.freelist[0];
    assert p in vm.freelist;
    assert vm.freelist == [p] + vm.freelist[1..];
    NoTreeChanged(vm, Popped(vm, junk));
  }

  lemma PushKeeps(vm: Vm, p: nat, junk: Words)
    requires Books(vm) && Trees(vm) && p in vm.use && (vm.use[p].Held? || vm.use[p].Page?)
    ensures Books(Pushed(vm, p, junk)) && Trees(Pushed(vm, p, junk))
    ensures forall r, v: nat | r in vm.trees :: Leaf(Pushed(vm, p, junk), r, v) == Leaf(vm, r, v)
  {
    hide Leaf, Trees;
    NoTreeChanged(vm, Pushed(vm, p, junk));
  }

  // ---- walk's growth of the tree ----

  /** A held, zeroed page p linked in as second-level table a. */
  function MidAdded(vm: Vm, root: nat, a: nat, p: nat): Vm
    requires root in vm.trees && root in vm.mem && a < ENTRIES
  {
    var t := vm.trees[root];
    vm.(mem := vm.mem[p := Zeros()][root := vm.mem[root][a := Pte(p, PTE_V)]],
        use := vm.use[p := Table(root, Mid(a))],
        trees := vm.trees[root := t.(mids := t.mids[a := p])])
  }

  lemma MidPlaced(vm: Vm, root: nat, a: nat, p: nat)
    requires TreeOk(vm, root) && a < HALF && a !in vm.trees[root].mids && p in vm.use && vm.use[p].Held?
    ensures Placed(MidAdded(vm, root, a, p), root, MidAdded(vm, root, a, p).trees[root])
  {
    hide Pte, RootLinks, MidLinks;
  }

  lemma MidTreeOk(vm: Vm, root: nat, a: nat, p: nat)
    requires TreeOk(vm, root) && a < HALF && a !in vm.trees[root].mids && p in vm.use && vm.use[p].Held?
    ensures TreeOk(MidAdded(vm, root, a, p), root)
  {
    hide Pte;
    MidPlaced(vm, root, a, p);
    var t, vm' := vm.trees[root], MidAdded(vm, root, a, p);
    var t' := vm'.trees[root];
    forall x: nat | x < ENTRIES
      ensures LinkIs(vm'.mem[root], x, x in t'.mids, if x in t'.mids then t'.mids[x] else 0)
    {
      assert LinkIs(vm.mem[root], x, x in t.mids, if x in t.mids then t.mids[x] else 0);
    }
    forall x, y: nat | x in t'.mids && y < ENTRIES
      ensures LinkIs(vm'.mem[t'.mids[x]], y, (x, y) in t'.lows, if (x, y) in t'.lows then t'.lows[(x, y)] else 0)
    {
      MidLinkKept(vm, root, a, p, x, y);
    }
  }

  lemma MidLinkKept(vm: Vm, root: nat, a: nat, p: nat, x: nat, y: nat)
    requires TreeOk(vm, root) && a < HALF && a !in vm.trees[root].mids && p in vm.use && vm.use[p].Held?
    requires y < ENTRIES && (x == a || x in vm.trees[root].mids)
    ensures var vm' := MidAdded(vm, root, a, p); var t' := vm'.trees[root];
            && t'.mids[x] in vm'.mem
            && LinkIs(vm'.mem[t'.mids[x]], y, (x, y) in t'.lows, if (x, y) in t'.lows then t'.lows[(x, y)] else 0)
  {
    hide Pte, RootLinks;
    var t := vm.trees[root];
    if x == a {
      assert (x, y) !in t.lows;
    } else {
      assert TableAt(vm, t.mids[x], root, Mid(x));
      assert LinkIs(vm.mem[t.mids[x]], y, (x, y) in t.lows, if (x, y) in t.lows then t.lows[(x, y)] else 0);
    }
  }

  lemma MidLeaves(vm: Vm, root: nat, a: nat, p: nat, v: nat)
    requires TreeOk(vm, root) && a < HALF && p in vm.use && vm.use[p].Held?
    ensures Leaf(MidAdded(vm, root, a, p), root, v) == Leaf(vm, root, v)
  {
    hide Pte, Px, RootLinks, MidLinks;
    var k := (Px(2, v), Px(1, v));
    if k in vm.trees[root].lows {
      assert TableAt(vm, vm.trees[root].lows[k], root, Low(k.0, k.1));
    }
  }

  lemma MidOthers(vm: Vm, root: nat, a: nat, p: nat)
    requires TreeOk(vm, root) && a < HALF && p in vm.use && vm.use[p].Held?
    ensures OthersSame(vm, MidAdded(vm, root, a, p), root)
  {
    hide Pte, RootLinks, MidLinks;
  }

  lemma AddMid(vm: Vm, root: nat, a: nat, p: nat)
    requires Books(vm) && Trees(vm) && TreeOk(vm, root)
    requires a < HALF && a !in vm.trees[root].mids && p in vm.use && vm.use[p].Held?
    ensures Books(MidAdded(vm, root, a, p)) && Trees(MidAdded(vm, root, a, p))
    ensures forall r, v: nat | r in vm.trees :: Leaf(MidAdded(vm, root, a, p), r, v) == Leaf(vm, r, v)
  {
    hide Leaf, Pte, TreeOk, OthersSame, Trees, InTree;
    MidReady(vm, root);
    var vm' := MidAdded(vm, root, a, p);
    MidTreeOk(vm, root, a, p);
    MidOthers(vm, root, a, p);
    forall v: nat
      ensures Leaf(vm', root, v) == Leaf(vm, root, v)
    {
      MidLeaves(vm, root, a, p, v);
    }
    forall q | q in vm'.use && vm'.use[q].Table? && vm'.use[q].root == root
      ensures InTree(vm', q)
    {
      MidInTree(vm, root, a, p, q);
    }
    OneTreeChanged(vm, vm', root);
  }

  lemma MidReady(vm: Vm, root: nat)
    requires TreeOk(vm, root)
    ensures root in vm.trees && root in vm.mem
    ensures forall a | a in vm.trees[root].mids :: vm.trees[root].mids[a] in vm.mem
  {
    hide RootLinks, MidLinks;
  }

  lemma MidInTree(vm: Vm, root: nat, a: nat, p: nat, q: nat)
    requires Trees(vm) && root in vm.trees && root in vm.mem && a < HALF && a !in vm.trees[root].mids
    requires p in vm.use && vm.use[p].Held? && (q in vm.use || q == p)
    ensures InTree(MidAdded(vm, root, a, p), q)
  {
    hide Pte, TreeOk;
    if q != p { assert InTree(vm, q); }
  }

  lemma LowInTree(vm: Vm, root: nat, a: nat, b: nat, p: nat, q: nat)
    requires Trees(vm) && root in vm.trees && a in vm.trees[root].mids && vm.trees[root].mids[a] in vm.mem
    requires b < ENTRIES && (a, b) !in vm.trees[root].lows && p in vm.use && vm.use[p].Held? && (q in vm.use || q == p)
    ensures InTree(LowAdded(vm, root, a, b, p), q)
  {
    hide Pte, TreeOk;
    if q != p { assert InTree(vm, q); }
  }

  /** A held, zeroed page p linked in as third-level table a, b. */
  function LowAdded(vm: Vm, root: nat, a: nat, b: nat, p: nat): Vm
    requires root in vm.trees && a in vm.trees[root].mids && vm.trees[root].mids[a] in vm.mem && b < ENTRIES
  {
    var t := vm.trees[root];
    var m := t.mids[a];
    vm.(mem := vm.mem[p := Zeros()][m := vm.mem[m][b := Pte(p, PTE_V)]],
        use := vm.use[p := Table(root, Low(a, b))],
        trees := vm.trees[root := t.(lows := t.lows[(a, b) := p])])
  }

  lemma LowPlaced(vm: Vm, root: nat, a: nat, b: nat, p: nat)
    requires TreeOk(vm, root) && a in vm.trees[root].mids && b < ENTRIES && (a, b) !in vm.trees[root].lows
    requires p in vm.use && vm.use[p].Held?
    ensures Placed(LowAdded(vm, root, a, b, p), root, LowAdded(vm, root, a, b, p).trees[root])
  {
    hide Pte, RootLinks, MidLinks;
  }

  lemma LowTreeOk(vm: Vm, root: nat, a: nat, b: nat, p: nat)
    requires TreeOk(vm, root) && a in vm.trees[root].mids && b < ENTRIES && (a, b) !in vm.trees[root].lows
    requires p in vm.use && vm.use[p].Held?
    ensures TreeOk(LowAdded(vm, root, a, b, p), root)
  {
    hide Pte;
    LowPlaced(vm, root, a, b, p);
    var t, vm' := vm.trees[root], LowAdded(vm, root, a, b, p);
    var t' := vm'.trees[root];
    forall x: nat | x < ENTRIES
      ensures LinkIs(vm'.mem[root], x, x in t'.mids, if x in t'.mids then t'.mids[x] else 0)
    {
      assert LinkIs(vm.mem[root], x, x in t.mids, if x in t.mids then t.mids[x] else 0);
    }
    forall x, y: nat | x in t'.mids && y < ENTRIES
      ensures LinkIs(vm'.mem[t'.mids[x]], y, (x, y) in t'.lows, if (x, y) in t'.lows then t'.lows[(x, y)] else 0)
    {
      LowLinkKept(vm, root, a, b, p, x, y);
    }
  }

  lemma LowLinkKept(vm: Vm, root: nat, a: nat, b: nat, p: nat, x: nat, y: nat)
    requires TreeOk(vm, root) && a in vm.trees[root].mids && b < ENTRIES && (a, b) !in vm.trees[root].lows
    requires p in vm.use && vm.use[p].Held? && y < ENTRIES && x in vm.trees[root].mids
    ensures var vm' := LowAdded(vm, root, a, b, p); var t' := vm'.trees[root];
            && t'.mids[x] in vm'.mem
            && LinkIs(vm'.mem[t'.mids[x]], y, (x, y) in t'.lows, if (x, y) in t'.lows then t'.lows[(x, y)] else 0)
  {
    hide Pte, RootLinks;
    var t := vm.trees[root];
    assert TableAt(vm, t.mids[x], root, Mid(x)) && TableAt(vm, t.mids[a], root, Mid(a));
    assert LinkIs(vm.mem[t.mids[x]], y, (x, y) in t.lows, if (x, y) in t.lows then t.lows[(x, y)] else 0);
  }

  lemma LowLeaves(vm: Vm, root: nat, a: nat, b: nat, p: nat, v: nat)
    requires TreeOk(vm, root) && a in vm.trees[root].mids && b < ENTRIES && (a, b) !in vm.trees[root].lows
    requires p in vm.use && vm.use[p].Held?
    ensures Leaf(LowAdded(vm, root, a, b, p), root, v) == Leaf(vm, root, v)
  {
    hide Pte, Px, RootLinks, MidLinks;
    var k := (Px(2, v), Px(1, v));
    if k in vm.trees[root].lows {
      assert TableAt(vm, vm.trees[root].lows[k], root, Low(k.0, k.1));
    }
  }

  lemma LowOthers(vm: Vm, root: nat, a: nat, b: nat, p: nat)
    requires TreeOk(vm, root) && a in vm.trees[root].mids && b < ENTRIES && p in vm.use && vm.use[p].Held?
    ensures OthersSame(vm, LowAdded(vm, root, a, b, p), root)
  {
    hide Pte, RootLinks, MidLinks;
  }

  lemma AddLow(vm: Vm, root: nat, a: nat, b: nat, p: nat)
    requires Books(vm) && Trees(vm) && TreeOk(vm, root) && a in vm.trees[root].mids
    requires b < ENTRIES && (a, b) !in vm.trees[root].lows && p in vm.use && vm.use[p].Held?
    ensures Books(LowAdded(vm, root, a, b, p)) && Trees(LowAdded(vm, root, a, b, p))
    ensures forall r, v: nat | r in vm.trees :: Leaf(LowAdded(vm, root, a, b, p), r, v) == Leaf(vm, r, v)
  {
    hide Leaf, Pte, TreeOk, OthersSame, Trees, InTree;
    MidReady(vm, root);
    var vm' := LowAdded(vm, root, a, b, p);
    LowTreeOk(vm, root, a, b, p);
    LowOthers(vm, root, a, b, p);
    forall v: nat
      ensures Leaf(vm', root, v) == Leaf(vm, root, v)
    {
      LowLeaves(vm, root, a, b, p, v);
    }
    forall q | q in vm'.use && vm'.use[q].Table? && vm'.use[q].root == root
      ensures InTree(vm', q)
    {
      LowInTree(vm, root, a, b, p, q);
    }
    OneTreeChanged(vm, vm', root);
  }

  // ---- Storing a leaf ----

  predicate HasLow(vm: Vm, root: nat, v: nat)
  {
    root in vm.trees && (Px(2, v), Px(1, v)) in vm.trees[root].lows
    && vm.trees[root].lows[(Px(2, v), Px(1, v))] in vm.mem
  }

  function LeafSet(vm: Vm, root: nat, v: nat, pte: nat): Vm
    requires HasLow(vm, root, v)
  {
    var low := vm.trees[root].lows[(Px(2, v), Px(1, v))];
    vm.(mem := vm.mem[low := vm.mem[low][Px(0, v) := pte]])
  }

  lemma LeafTreeOk(vm: Vm, root: nat, v: nat, pte: nat)
    requires TreeOk(vm, root) && HasLow(vm, root, v)
    ensures TreeOk(LeafSet(vm, root, v, pte), root)
    ensures OthersSame(vm, LeafSet(vm, root, v, pte), root)
  {
    hide Pte, Px, LinkIs;
    var vm' := LeafSet(vm, root, v, pte);
    var t := vm.trees[root];
    assert Placed(vm', root, t);
  }

  lemma LeafSetAt(vm: Vm, root: nat, v: nat, pte: nat, w: nat)
    requires TreeOk(vm, root) && HasLow(vm, root, v) && v < MAXVPN && w < MAXVPN
    ensures Leaf(LeafSet(vm, root, v, pte), root, w) == if w == v then pte else Leaf(vm, root, w)
  {
    hide Pte, Px, RootLinks, MidLinks;
    var k := (Px(2, w), Px(1, w));
    if k in vm.trees[root].lows {
      assert TableAt(vm, vm.trees[root].lows[k], root, Low(k.0, k.1));
    }
    var j := (Px(2, v), Px(1, v));
    assert TableAt(vm, vm.trees[root].lows[j], root, Low(j.0, j.1));
    if w != v && Px(2, w) == Px(2, v) && Px(1, w) == Px(1, v) && Px(0, w) == Px(0, v) {
      PxInjective(v, w);
    }
  }

  /** Storing the PTE of page v changes the map at v and nowhere else, in any page table. */
  lemma SetLeaf(vm: Vm, root: nat, v: nat, pte: nat)
    requires Books(vm) && Trees(vm) && TreeOk(vm, root) && HasLow(vm, root, v) && v < MAXVPN
    ensures Books(LeafSet(vm, root, v, pte)) && Trees(LeafSet(vm, root, v, pte))
    ensures forall r, w: nat | r in vm.trees && w < MAXVPN ::
              Leaf(LeafSet(vm, root, v, pte), r, w) == if r == root && w == v then pte else Leaf(vm, r, w)
  {
    hide Leaf, Pte, RootLinks, MidLinks, OthersSame, LinkIs, Px;
    var vm' := LeafSet(vm, root, v, pte);
    LeafTreeOk(vm, root, v, pte);
    forall q | q in vm'.use && vm'.use[q].Table? && vm'.use[q].root == root
      ensures InTree(vm', q)
    {
      assert InTree(vm, q);
    }
    OneTreeChanged(vm, vm', root);
    forall w: nat | w < MAXVPN
      ensures Leaf(vm', root, w) == if w == v then pte else Leaf(vm, root, w)
    {
      LeafSetAt(vm, root, v, pte, w);
    }
  }

  lemma PxHalf(v: nat)
    requires v < MAXVPN
    ensures Px(2, v) < HALF
  {
  }

  // ---- Growth of one page table, and user pages ----

  /** From vm to vm' only page table `root` grew, by free pages that became its tables. */
  ghost predicate Grown(vm: Vm, vm': Vm, root: nat)
  {
    && vm'.trees.Keys == vm.trees.Keys && root in vm.trees
    && (forall r | r in vm.trees && r != root :: vm'.trees[r] == vm.trees[r])
    && vm'.use.Keys == vm.use.Keys
    && (forall p | p in vm.use ::
          vm'.use[p] == vm.use[p] || (vm.use[p].Free? && vm'.use[p].Table? && vm'.use[p].root == root))
    && (forall p | p in vm.use && (vm.use[p].Held? || vm.use[p].Page?) && p in vm.mem ::
          p in vm'.mem && vm'.mem[p] == vm.mem[p])
  }

  /** The maps of all page tables are the same. */
  ghost predicate LeavesSame(vm: Vm, vm': Vm)
  {
    && vm'.trees.Keys == vm.trees.Keys
    && forall r, v: nat | r in vm.trees && v < MAXVPN :: Leaf(vm', r, v) == Leaf(vm, r, v)
  }

  lemma NothingGrown(vm: Vm, root: nat)
    requires root in vm.trees
    ensures Grown(vm, vm, root) && LeavesSame(vm, vm)
  {
  }

  lemma GrownTwice(vm: Vm, vm1: Vm, vm2: Vm, root: nat)
    requires Grown(vm, vm1, root) && Grown(vm1, vm2, root)
    ensures Grown(vm, vm2, root)
  {
  }

  /** The PTE of user page v names a page in use for exactly that. */
  predicate UserLeaf(vm: Vm, root: nat, v: nat)
    requires root in vm.trees
  {
    var pte := Leaf(vm, root, v);
    pte == 0 || (Valid(pte) && IsLeaf(pte) && Ppn(pte) in vm.use && vm.use[Ppn(pte)] == Page(root, v))
  }

  predicate UserPage(vm: Vm, p: nat)
    requires p in vm.use
  {
    vm.use[p].Page? ==>
      var root, v := vm.use[p].root, vm.use[p].v;
      root in vm.trees && v < USERTOP && Valid(Leaf(vm, root, v)) && Ppn(Leaf(vm, root, v)) == p
  }

  ghost predicate DataOk(vm: Vm)
  {
    && (forall root, v: nat | root in vm.trees && v < USERTOP :: UserLeaf(vm, root, v))
    && (forall p | p in vm.use :: UserPage(vm, p))
  }

  ghost predicate Inv(vm: Vm)
  {
    Books(vm) && Trees(vm) && DataOk(vm)
  }

  lemma GrownKeepsData(vm: Vm, vm': Vm, root: nat)
    requires DataOk(vm) && Grown(vm, vm', root) && LeavesSame(vm, vm')
    ensures DataOk(vm')
  {
    hide Leaf, Valid, IsLeaf, Ppn;
    forall r, v: nat | r in vm'.trees && v < USERTOP
      ensures UserLeaf(vm', r, v)
    {
      assert UserLeaf(vm, r, v);
    }
    forall p | p in vm'.use
      ensures UserPage(vm', p)
    {
      assert UserPage(vm, p);
    }
  }

  // ---- One level of walk ----

  lemma RootEntry(vm: Vm, root: nat, a: nat)
    requires TreeOk(vm, root) && a < ENTRIES
    ensures root in vm.mem && root in vm.trees
    ensures Valid(vm.mem[root][a]) <==> a in vm.trees[root].mids
    ensures a in vm.trees[root].mids ==>
              Ppn(vm.mem[root][a]) == vm.trees[root].mids[a] && vm.trees[root].mids[a] in vm.mem
  {
    var t := vm.trees[root];
    assert LinkIs(vm.mem[root], a, a in t.mids, if a in t.mids then t.mids[a] else 0);
    if a in t.mids {
      PteParts(t.mids[a], PTE_V);
      assert TableAt(vm, t.mids[a], root, Mid(a));
    }
  }

  lemma MidEntry(vm: Vm, root: nat, a: nat, b: nat)
    requires TreeOk(vm, root) && a in vm.trees[root].mids && b < ENTRIES
    ensures vm.trees[root].mids[a] in vm.mem
    ensures Valid(vm.mem[vm.trees[root].mids[a]][b]) <==> (a, b) in vm.trees[root].lows
    ensures (a, b) in vm.trees[root].lows ==>
              && Ppn(vm.mem[vm.trees[root].mids[a]][b]) == vm.trees[root].lows[(a, b)]
              && vm.trees[root].lows[(a, b)] in vm.mem
  {
    var t := vm.trees[root];
    assert TableAt(vm, t.mids[a], root, Mid(a));
    assert LinkIs(vm.mem[t.mids[a]], b, (a, b) in t.lows, if (a, b) in t.lows then t.lows[(a, b)] else 0);
    if (a, b) in t.lows {
      PteParts(t.lows[(a, b)], PTE_V);
      assert TableAt(vm, t.lows[(a, b)], root, Low(a, b));
    }
  }

  /** kalloc, zero and link a missing second-level table. */
  function MidGrown(vm: Vm, root: nat, a: nat, junk: Words): Vm
    requires vm.freelist != [] && root in vm.trees && root in vm.mem && a < ENTRIES
  {
    MidAdded(Popped(vm, junk), root, a, vm.freelist[0])
  }

  lemma PopTreeOk(vm: Vm, root: nat, junk: Words)
    requires Books(vm) && Trees(vm) && vm.freelist != [] && TreeOk(vm, root)
    ensures TreeOk(Popped(vm, junk), root) && Popped(vm, junk).use[vm.freelist[0]] == Held
  {
    hide TreeOk;
    PopKeeps(vm, junk);
    TreesHas(vm, root);
    assert root in Popped(vm, junk).trees;
  }

  lemma TreesHas(vm: Vm, root: nat)
    requires TreeOk(vm, root)
    ensures root in vm.trees && root in vm.mem
  {
  }

  lemma GrowMid(vm: Vm, root: nat, a: nat, junk: Words)
    requires Books(vm) && Trees(vm) && TreeOk(vm, root) && vm.freelist != [] && a < HALF && a !in vm.trees[root].mids
    ensures root in vm.mem
    ensures var vm' := MidGrown(vm, root, a, junk);
            && Books(vm') && Trees(vm') && TreeOk(vm', root) && LeavesSame(vm, vm') && Grown(vm, vm', root)
  {
    hide TreeOk, Trees, Leaf, Pte;
    TreesHas(vm, root);
    PopTreeOk(vm, root, junk);
    PopKeeps(vm, junk);
    AddMid(Popped(vm, junk), root, a, vm.freelist[0]);
    MidTreeOk(Popped(vm, junk), root, a, vm.freelist[0]);
    FirstIsFree(vm, root);
  }

  lemma FirstIsFree(vm: Vm, root: nat)
    requires Books(vm) && TreeOk(vm, root) && vm.freelist != []
    ensures var p := vm.freelist[0];
            p in vm.use && vm.use[p] == Free && p != root && vm.use[root] == Table(root, Root)
    ensures forall a | a in vm.trees[root].mids ::
              vm.trees[root].mids[a] != vm.freelist[0] && vm.use[vm.trees[root].mids[a]].Table?
  {
    assert vm.freelist[0] in vm.freelist;
  }

  function LowGrown(vm: Vm, root: nat, a: nat, b: nat, junk: Words): Vm
    requires vm.freelist != [] && root in vm.trees && a in vm.trees[root].mids && vm.trees[root].mids[a] in vm.mem
    requires b < ENTRIES
  {
    LowAdded(Popped(vm, junk), root, a, b, vm.freelist[0])
  }

  lemma GrowLow(vm: Vm, root: nat, a: nat, b: nat, junk: Words)
    requires Books(vm) && Trees(vm) && TreeOk(vm, root) && vm.freelist != []
    requires a in vm.trees[root].mids && b < ENTRIES && (a, b) !in vm.trees[root].lows
    ensures vm.trees[root].mids[a] in vm.mem
    ensures var vm' := LowGrown(vm, root, a, b, junk);
            && Books(vm') && Trees(vm') && TreeOk(vm', root) && LeavesSame(vm, vm') && Grown(vm, vm', root)
  {
    hide TreeOk, Trees, Leaf, Pte;
    TreesHas(vm, root);
    MidEntry(vm, root, a, b);
    PopTreeOk(vm, root, junk);
    PopKeeps(vm, junk);
    AddLow(Popped(vm, junk), root, a, b, vm.freelist[0]);
    LowTreeOk(Popped(vm, junk), root, a, b, vm.freelist[0]);
    FirstIsFree(vm, root);
  }

  lemma MidGrownIs(vm: Vm, vm': Vm, root: nat, a: nat, junk: Words)
    requires Books(vm) && TreeOk(vm, root) && vm.freelist != [] && a < HALF
    requires var p := vm.freelist[0]; var t := vm.trees[root];
             && vm'.mem ==
                vm.mem[p := junk][p := Zeros()][root := vm.mem[p := junk][p := Zeros()][root][a := Pte(p, PTE_V)]]
             && vm'.freelist == vm.freelist[1..]
             && vm'.use == vm.use[p := Held][p := Table(root, Mid(a))]
             && vm'.trees == vm.trees[root := t.(mids := t.mids[a := p])]
    ensures vm' == MidGrown(vm, root, a, junk)
  {
    hide Pte;
    FirstIsFree(vm, root);
  }

  lemma LowGrownIs(vm: Vm, vm': Vm, root: nat, a: nat, b: nat, junk: Words)
    requires Books(vm) && TreeOk(vm, root) && vm.freelist != [] && a in vm.trees[root].mids && b < ENTRIES
    requires var p := vm.freelist[0]; var t := vm.trees[root]; var m := t.mids[a];
             && m in vm.mem
             && vm'.mem == vm.mem[p := junk][p := Zeros()][m := vm.mem[p := junk][p := Zeros()][m][b := Pte(p, PTE_V)]]
             && vm'.freelist == vm.freelist[1..]
             && vm'.use == vm.use[p := Held][p := Table(root, Low(a, b))]
             && vm'.trees == vm.trees[root := t.(lows := t.lows[(a, b) := p])]
    ensures vm' == LowGrown(vm, root, a, b, junk)
  {
    hide Pte;
    FirstIsFree(vm, root);
  }

  lemma LeavesSameTwice(vm: Vm, vm1: Vm, vm2: Vm)
    requires LeavesSame(vm, vm1) && LeavesSame(vm1, vm2)
    ensures LeavesSame(vm, vm2)
  {
    hide Leaf;
  }

  /** A missing table on the way means there is no PTE slot. */
  lemma NoLow(vm: Vm, root: nat, v: nat)
    requires TreeOk(vm, root)
    requires Px(2, v) !in vm.trees[root].mids || (Px(2, v), Px(1, v)) !in vm.trees[root].lows
    ensures !HasLow(vm, root, v)
  {
    hide RootLinks, MidLinks, Px;
  }

  lemma LowInMem(vm: Vm, root: nat, v: nat)
    requires TreeOk(vm, root) && (Px(2, v), Px(1, v)) in vm.trees[root].lows
    ensures HasLow(vm, root, v)
  {
    hide RootLinks, MidLinks, Px;
    var k := (Px(2, v), Px(1, v));
    assert TableAt(vm, vm.trees[root].lows[k], root, Low(k.0, k.1));
  }

  // ---- Ranges of leaves ----

  predicate LeafStored(vm: Vm, vm': Vm, root: nat, v: nat, pte: nat)
  {
    HasLow(vm, root, v) && vm' == LeafSet(vm, root, v, pte)
  }

  /** perm | PTE_V */
  function OrV(perm: nat): nat
  {
    if perm % 2 == 1 then perm else perm + 1
  }

  /** vm' maps pages v.. of root, k of them, to physical pages p..; all other PTEs are as in vm. */
  ghost predicate Mapping(vm: Vm, vm': Vm, root: nat, v: nat, k: nat, p: nat, perm: nat)
  {
    && vm'.trees.Keys == vm.trees.Keys && root in vm.trees
    && forall r, w: nat | r in vm.trees && w < MAXVPN ::
         Leaf(vm', r, w) == if r == root && v <= w < v + k then Pte(p + (w - v), OrV(perm)) else Leaf(vm, r, w)
  }

  /** vm' has no PTE for pages v.. of root, k of them; all other PTEs are as in vm. */
  ghost predicate Unmapping(vm: Vm, vm': Vm, root: nat, v: nat, k: nat)
  {
    && vm'.trees.Keys == vm.trees.Keys && root in vm.trees
    && forall r, w: nat | r in vm.trees && w < MAXVPN ::
         Leaf(vm', r, w) == if r == root && v <= w < v + k then 0 else Leaf(vm, r, w)
  }

  lemma LeafSetGrown(vm: Vm, root: nat, v: nat, pte: nat)
    requires TreeOk(vm, root) && HasLow(vm, root, v)
    ensures Grown(vm, LeafSet(vm, root, v, pte), root)
    ensures TreeOk(LeafSet(vm, root, v, pte), root)
  {
    hide Px, RootLinks, MidLinks;
    LeafTreeOk(vm, root, v, pte);
    var k := (Px(2, v), Px(1, v));
    assert TableAt(vm, vm.trees[root].lows[k], root, Low(k.0, k.1));
  }

  lemma NothingMapped(vm: Vm, root: nat, v: nat, p: nat, perm: nat)
    requires root in vm.trees
    ensures Mapping(vm, vm, root, v, 0, p, perm) && Unmapping(vm, vm, root, v, 0)
  {
  }

  lemma MappingStep(vm: Vm, vm1: Vm, vm2: Vm, vm3: Vm, root: nat, v: nat, k: nat, p: nat, perm: nat)
    requires Mapping(vm, vm1, root, v, k, p, perm) && LeavesSame(vm1, vm2) && v + k < MAXVPN
    requires Books(vm2) && Trees(vm2) && TreeOk(vm2, root)
    requires LeafStored(vm2, vm3, root, v + k, Pte(p + k, OrV(perm)))
    ensures Mapping(vm, vm3, root, v, k + 1, p, perm)
  {
    hide Leaf, Px, Pte, OrV, Books, Trees, TreeOk;
    SetLeaf(vm2, root, v + k, Pte(p + k, OrV(perm)));
  }

  lemma MappingThenSame(vm: Vm, vm1: Vm, vm2: Vm, root: nat, v: nat, k: nat, p: nat, perm: nat)
    requires Mapping(vm, vm1, root, v, k, p, perm) && LeavesSame(vm1, vm2)
    ensures Mapping(vm, vm2, root, v, k, p, perm)
  {
    hide Leaf, Pte, OrV;
  }

  lemma LeafSetIs(vm: Vm, vm': Vm, root: nat, v: nat, pte: nat)
    requires HasLow(vm, root, v)
    requires var page := vm.trees[root].lows[(Px(2, v), Px(1, v))];
             vm' == vm.(mem := vm.mem[page := vm.mem[page][Px(0, v) := pte]])
    ensures LeafStored(vm, vm', root, v, pte)
  {
  }

  lemma StoreKeeps(vm: Vm, vm': Vm, root: nat, v: nat, pte: nat)
    requires Books(vm) && Trees(vm) && TreeOk(vm, root) && v < MAXVPN && LeafStored(vm, vm', root, v, pte)
    ensures Books(vm') && Trees(vm') && TreeOk(vm', root) && Grown(vm, vm', root) && root in vm'.trees
  {
    hide Leaf, Px, Books, Trees, TreeOk, Grown;
    SetLeaf(vm, root, v, pte);
    LeafSetGrown(vm, root, v, pte);
  }

  lemma ZeroIsInvalid()
    ensures !Valid(0)
  {
  }

  // ---- What the books mean for memory ----

  /** The PTE that address translation finds by following the words in memory from the root, as section
      4.3.2 of the RISC-V Privileged Architecture does for three levels; 0 if it meets an invalid one. */
  function Translate(mem: map<nat, Words>, root: nat, v: nat): nat
  {
    if root !in mem || !Valid(mem[root][Px(2, v)]) then 0
    else
      var mid := Ppn(mem[root][Px(2, v)]);
      if mid !in mem || !Valid(mem[mid][Px(1, v)]) then 0
      else
        var low := Ppn(mem[mid][Px(1, v)]);
        if low !in mem then 0 else mem[low][Px(0, v)]
  }

  /** Translation in memory is the map that the tree stands for. */
  lemma TranslateIsLeaf(vm: Vm, root: nat, v: nat)
    requires TreeOk(vm, root) && v < MAXVPN
    ensures Translate(vm.mem, root, v) == Leaf(vm, root, v)
  {
    hide Px;
    PxHalf(v);
    RootEntry(vm, root, Px(2, v));
    var t := vm.trees[root];
    assert LinkIs(vm.mem[root], Px(2, v), Px(2, v) in t.mids, if Px(2, v) in t.mids then t.mids[Px(2, v)] else 0);
    if Px(2, v) in t.mids {
      var a, b := Px(2, v), Px(1, v);
      PteParts(t.mids[a], PTE_V);
      assert LinkIs(vm.mem[t.mids[a]], b, (a, b) in t.lows, if (a, b) in t.lows then t.lows[(a, b)] else 0);
      if (a, b) in t.lows {
        PteParts(t.lows[(a, b)], PTE_V);
      }
    }
  }

  /** Different pages, of one address space or of two, have different leaf PTE slots. */
  lemma SlotsApart(vm: Vm, r: nat, v: nat, r': nat, v': nat)
    requires Trees(vm) && HasLow(vm, r, v) && HasLow(vm, r', v') && v < MAXVPN && v' < MAXVPN
    requires vm.trees[r].lows[(Px(2, v), Px(1, v))] == vm.trees[r'].lows[(Px(2, v'), Px(1, v'))]
    requires Px(0, v) == Px(0, v')
    ensures r == r' && v == v'
  {
    hide Px, RootLinks, MidLinks;
    assert TreeOk(vm, r) && TreeOk(vm, r');
    var k, k' := (Px(2, v), Px(1, v)), (Px(2, v'), Px(1, v'));
    assert TableAt(vm, vm.trees[r].lows[k], r, Low(k.0, k.1));
    assert TableAt(vm, vm.trees[r'].lows[k'], r', Low(k'.0, k'.1));
    PxInjective(v, v');
  }

  /** Every page of the pool is in exactly one place: on the free list, held by kernel code, in the one
      place of one page table that its role names, or mapped as one user page and no other. */
  lemma PoolPartition(vm: Vm, p: nat)
    requires Inv(vm) && p in vm.use
    ensures vm.use[p].Free? <==> p in vm.freelist
    ensures vm.use[p].Table? ==>
              vm.use[p].root in vm.trees && RoleOf(vm.trees[vm.use[p].root], vm.use[p].root, vm.use[p].role, p)
    ensures forall r, v: nat | r in vm.trees && v < USERTOP && Leaf(vm, r, v) != 0 ::
              Ppn(Leaf(vm, r, v)) == p <==> vm.use[p] == Page(r, v)
    ensures vm.use[p].Page? ==>
              vm.use[p].root in vm.trees && vm.use[p].v < USERTOP && Leaf(vm, vm.use[p].root, vm.use[p].v) != 0
  {
    hide Leaf, Ppn, TreeOk, RoleOf;
    assert InTree(vm, p) && UserPage(vm, p);
    ZeroIsInvalid();
    forall r, v: nat | r in vm.trees && v < USERTOP && Leaf(vm, r, v) != 0
      ensures Ppn(Leaf(vm, r, v)) == p <==> vm.use[p] == Page(r, v)
    {
      assert UserLeaf(vm, r, v);
    }
  }
}
