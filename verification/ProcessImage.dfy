/**
  Making, copying, replacing and destroying whole address spaces (proc.c, vm.c, exec.c).

  Every operation either leaves a complete address space or gives back every page it took.
 */
module ProcessImage {
  import opened Counting
  import opened PageTable
  import opened VirtualMemory
  import opened UserMemory

  /** What proc_pagetable maps: the trampoline and the trapframe, and nothing below. */
  ghost predicate Bare(pt: Tables, at: Tree, trampoline: nat, trapframe: nat) {
    && (forall v :: 0 <= v < TRAPFRAME ==> Lookup(pt, at, v) == 0)
    && Lookup(pt, at, TRAPFRAME) == MakePte(trapframe, PTE_R + PTE_W)
    && Lookup(pt, at, TRAMPOLINE) == MakePte(trampoline, PTE_R + PTE_X)
  }

  /** proc_pagetable.  Without memory for it, every page is given back. */
  method ProcPagetable(km: Kmem, trampoline: nat, trapframe: nat) returns (a: AddrSpace?)
    requires km.Valid()
    modifies km
    ensures km.Valid() && km.data == old(km.data)
    ensures a == null ==> km.pt == old(km.pt) && |old(km.free)| < 5
    ensures a != null ==> fresh(a) && a.km == km && a.Valid() && TablesAround(old(km.pt), map[], km.pt, a.at)
    ensures a != null ==> Bare(km.pt, a.at, trampoline, trapframe)
  {
    hide Lookup; hide IsTree; hide Conserved; hide TablesAround; hide Grown; hide MakePte; hide Owned; hide Mapped; hide PagesOf; hide PteV; hide Cut; hide TablesKept;
    ghost var pt, data := km.pt, km.data;
    AroundRefl(pt, map[]);
    var root := km.KallocTable();
    if root == 0 {
      return null;
    }
    NewRoot(pt, root);
    a := new AddrSpace(km, root);
    ghost var pt1, t1, free1 := km.pt, a.at, km.free;
    a.FreeIsDisjoint();
    ZeroIsInvalid();
    var r, done := a.MapPages(TRAMPOLINE, 1, trampoline, PTE_R + PTE_X);
    AroundGrown(pt, map[], pt1, t1, free1, km.pt, a.at, km.free);
    if r < 0 {
      NothingOwned(km.pt, a.at, data);
      FreshTables(pt, km.pt, a.at);
      a.Uvmfree(0);
      return null;
    }
    ghost var pt2, t2, free2 := km.pt, a.at, km.free;
    a.FreeIsDisjoint();
    r, done := a.MapPages(TRAPFRAME, 1, trapframe, PTE_R + PTE_W);
    AroundGrown(pt, map[], pt2, t2, free2, km.pt, a.at, km.free);
    NothingOwned(km.pt, a.at, data);
    if r < 0 {
      ghost var pt3 := km.pt;
      a.Unmap(TRAMPOLINE, 1, false);
      AroundKept(pt, map[], pt3, a.at, km.pt);
      FreshTables(pt, km.pt, a.at);
      CutAll(pt3, km.pt, a.at, data);
      assert km.data == data;
      a.Uvmfree(0);
      return null;
    }
  }

  lemma NewRoot(pt: Tables, root: nat)
    requires root !in pt
    ensures TablesAround(pt, map[], pt[root := ZeroTable], map[Root := root])
  {
    var at: Tree := map[Root := root];
    assert at[Root] == root;
  }

  lemma NothingOwned(pt: Tables, at: Tree, data: Frames)
    requires forall v :: 0 <= v < TRAPFRAME ==> Lookup(pt, at, v) == 0
    ensures Owned(pt, at, data, 0, TRAPFRAME) && Mapped(pt, at, 0, TRAPFRAME) == {} == Mine(pt, at)
  {
    hide Lookup;
  }

  lemma CutAll(pt: Tables, pt1: Tables, at: Tree, data: Frames)
    requires Cut(pt, pt1, at, TRAMPOLINE, TRAMPOLINE + 1)
    requires forall v :: 0 <= v < TRAMPOLINE ==> Lookup(pt, at, v) == 0
    ensures forall v :: 0 <= v < PAGES ==> Lookup(pt1, at, v) == 0
    ensures Owned(pt1, at, data, 0, TRAPFRAME) && Mapped(pt1, at, 0, TRAPFRAME) == {}
  {
    hide Lookup;
    NothingOwned(pt1, at, data);
  }

  // All tables of a tree made from nothing are new.
  lemma FreshTables(pt: Tables, pt1: Tables, at1: Tree)
    requires TablesAround(pt, map[], pt1, at1)
    ensures pt1 - PagesOf(at1) == pt
  {
    assert PagesOf(map[]) == {};
  }

  /** proc_freepagetable: every table and every user page goes back to the free list. */
  method ProcFreePagetable(a: AddrSpace, sz: nat)
    requires a.Valid() && UserSpace(a.km.pt, a.at, a.km.data, sz)
    modifies a, a.km
    ensures a.km.Valid() && a.km.pt == old(a.km.pt) - PagesOf(old(a.at))
    ensures a.km.data == old(a.km.data) - Mine(old(a.km.pt), old(a.at))
  {
    hide Lookup; hide IsTree; hide Conserved; hide Owned; hide Mapped; hide PagesOf; hide PteV; hide TablesKept; hide PteU;
    ghost var pt, t, data := a.km.pt, a.at, a.km.data;
    SizePages(sz);
    ZeroIsInvalid();
    a.Unmap(TRAMPOLINE, 1, false);
    ghost var pt1 := a.km.pt;
    a.Unmap(TRAPFRAME, 1, false);
    KeptMinus(pt, t, pt1);
    KeptMinus(pt1, t, a.km.pt);
    OwnedSame(pt, a.km.pt, t, data);
    assert a.km.data == data;
    a.Uvmfree(sz);
  }

  lemma OwnedSame(pt: Tables, pt1: Tables, at: Tree, data: Frames)
    requires Owned(pt, at, data, 0, TRAPFRAME) && forall v :: 0 <= v < TRAPFRAME ==> Lookup(pt1, at, v) == Lookup(pt, at, v)
    ensures Owned(pt1, at, data, 0, TRAPFRAME) && Mine(pt1, at) == Mine(pt, at)
  {
    hide Lookup; hide Mapped;
    MappedSame(pt, at, pt1, at, 0, TRAPFRAME);
  }

  // ---------------------------------------------------------------- fork

  /** What uvmcopy is to map: the mapped pages below sz, with their flags and contents. */
  ghost function CopyPlan(pt: Tables, at: Tree, data: Frames, sz: nat): (r: Plan)
    ensures forall v :: v in r <==> 0 <= v < PAGES && v < Pages(sz) && PteV(Lookup(pt, at, v)) && PtePage(Lookup(pt, at, v)) in data
    ensures forall v :: v in r ==> r[v] == Want(PteFlags(Lookup(pt, at, v)), data[PtePage(Lookup(pt, at, v))])
  {
    map v | v in Below(Pages(sz)) && v < PAGES && PteV(Lookup(pt, at, v)) && PtePage(Lookup(pt, at, v)) in data ::
      Want(PteFlags(Lookup(pt, at, v)), data[PtePage(Lookup(pt, at, v))])
  }

  // Two address spaces over the same memory.
  ghost predicate Apart(at: Tree, at1: Tree) { PagesOf(at) !! PagesOf(at1) }

  // Changes around one tree leave another alone.
  lemma OtherTree(pt: Tables, at: Tree, pt1: Tables, at1: Tree, root: nat, other: Tree)
    requires TablesAround(pt, at, pt1, at1) && IsTree(pt, root, other) && Apart(other, at)
    ensures IsTree(pt1, root, other) && Apart(other, at1) && SameMap(pt, other, pt1, other)
  {
    forall n | n in other ensures other[n] in pt1 && pt1[other[n]] == pt[other[n]] && other[n] !in PagesOf(at1) {
      assert other[n] in PagesOf(other);
      assert forall m :: m in at ==> at[m] in PagesOf(at);
    }
    TreeFrame(pt, pt1, root, other);
  }

  /**
    uvmcopy: give the child what the parent has.  On success both see the same memory,
    with the same flags; on failure the child is as empty as it was, and every data page
    is given back.  The parent does not change.
   */
  method Uvmcopy(parent: AddrSpace, child: AddrSpace, sz: nat) returns (r: int)
    requires parent != child && parent.km == child.km && parent.Valid() && child.Valid() && Apart(parent.at, child.at)
    requires UserSpace(parent.km.pt, parent.at, parent.km.data, sz)
    requires forall v :: 0 <= v < TRAPFRAME ==> Lookup(child.km.pt, child.at, v) == 0
    modifies parent, child, parent.km
    ensures parent.Valid() && child.Valid() && parent.at == old(parent.at) && Apart(parent.at, child.at) && (r == 0 || r == -1)
    ensures SameMap(old(parent.km.pt), parent.at, parent.km.pt, parent.at)
    ensures TablesAround(old(parent.km.pt), old(child.at), parent.km.pt, child.at)
    ensures r == 0 ==> Pages(sz) <= PAGES && Filled(old(child.km.pt), old(child.at), old(child.km.data), child.km.pt, child.at, child.km.data,
                              CopyPlan(old(parent.km.pt), parent.at, old(parent.km.data), sz), 0, Pages(sz))
    ensures r == -1 ==> child.km.data == old(child.km.data) && SameMap(old(child.km.pt), old(child.at), child.km.pt, child.at)
    ensures r == -1 ==> |old(child.km.free)| < 3 * Pages(sz)
  {
    hide Lookup; hide IsTree; hide Conserved; hide Filled; hide TablesAround; hide SameMap; hide Owned; hide PteV; hide PtePage; hide PteU; hide Apart; hide Extended; hide PteFlags; hide TablesKept; hide CopyPlan;
    var km := parent.km;
    ghost var pt, t, data, free, p := km.pt, child.at, km.data, km.free, parent.at;
    ghost var plan := CopyPlan(pt, p, data, sz);
    SizePages(sz);
    ZeroIsInvalid();
    AroundRefl(pt, t);
    FilledNone(pt, t, data, plan, 0);
    SameMapRefl(pt, p);
    var i := 0;
    while i * PGSIZE < sz
      invariant 0 <= i <= Pages(sz) <= TRAPFRAME && parent.Valid() && child.Valid() && parent.at == p && Apart(p, child.at)
      invariant SameMap(pt, p, km.pt, p) && TablesAround(pt, t, km.pt, child.at)
      invariant Filled(pt, t, data, km.pt, child.at, km.data, plan, 0, i)
      invariant |km.free| + 3 * i >= |free|
      decreases Pages(sz) - i
    {
      CopySource(pt, p, data, km.pt, t, child.at, km.data, sz, plan, i);
      parent.LeafEntry(i);
      var leaf := parent.Walk(i, false);
      if leaf != 0 && PteV(km.pt[leaf][i % 512]) {
        var pte := km.pt[leaf][i % 512];
        var contents := km.data[PtePage(pte)];
        ghost var pt1, t1 := km.pt, child.at;
        var mem := child.NewPage(i, contents, PteFlags(pte), pt, t, data, plan, 0);
        OtherTree(pt1, t1, km.pt, child.at, parent.root, p);
        SameMapTrans(pt, pt1, km.pt, p);
        if mem == 0 {
          ghost var pt2 := km.pt;
          child.Retreat(pt, t, data, plan, 0, i);
          AroundRefl(pt2, child.at);
          AroundKept(pt2, child.at, pt2, child.at, km.pt);
          OtherTree(pt2, child.at, km.pt, child.at, parent.root, p);
          SameMapTrans(pt, pt2, km.pt, p);
          return -1;
        }
      } else {
        FilledSkip(pt, t, data, km.pt, child.at, km.data, plan, 0, i);
      }
      i := i + 1;
    }
    r := 0;
  }

  lemma SameMapRefl(pt: Tables, at: Tree)
    ensures SameMap(pt, at, pt, at)
  {
  }

  lemma SameMapTrans(pt: Tables, pt1: Tables, pt2: Tables, at: Tree)
    requires SameMap(pt, at, pt1, at) && SameMap(pt1, at, pt2, at)
    ensures SameMap(pt, at, pt2, at)
  {
    hide Lookup;
  }

  // The parent's page i is as it was, and is in the plan exactly if it is mapped.
  lemma CopySource(pt: Tables, p: Tree, data: Frames, pt1: Tables, t: Tree, at1: Tree, data1: Frames, sz: nat, plan: Plan, i: nat)
    requires i < Pages(sz) <= TRAPFRAME && UserSpace(pt, p, data, sz) && SameMap(pt, p, pt1, p)
    requires plan == CopyPlan(pt, p, data, sz) && Filled(pt, t, data, pt1, at1, data1, plan, 0, i)
    ensures var pte := Lookup(pt1, p, i);
      && (i in plan <==> PteV(pte))
      && (PteV(pte) ==> PtePage(pte) in data1 && plan[i] == Want(PteFlags(pte), data1[PtePage(pte)]) && PteFlags(pte) < 1024)
  {
    hide Lookup; hide Mapped;
    assert Lookup(pt1, p, i) == Lookup(pt, p, i);
  }

  /** The memory part of kfork. */
  method ForkMemory(parent: AddrSpace, sz: nat, trampoline: nat, trapframe: nat) returns (child: AddrSpace?)
    requires parent.Valid() && UserSpace(parent.km.pt, parent.at, parent.km.data, sz)
    modifies parent, parent.km
    ensures parent.km.Valid() && parent.at == old(parent.at)
    ensures child == null ==> parent.km.pt == old(parent.km.pt) && parent.km.data == old(parent.km.data)
    ensures child != null ==>
      && child.km == parent.km && child.Valid() && UserSpace(child.km.pt, child.at, child.km.data, sz)
      && parent.Valid() && UserSpace(parent.km.pt, parent.at, parent.km.data, sz)
      && Apart(parent.at, child.at) && Mine(parent.km.pt, parent.at) !! Mine(parent.km.pt, child.at)
      && SameView(old(parent.km.pt), parent.at, old(parent.km.data), parent.km.pt, parent.at, parent.km.data)
      && SameView(parent.km.pt, parent.at, parent.km.data, child.km.pt, child.at, child.km.data)
      && (forall v :: 0 <= v < TRAPFRAME && PteV(Lookup(parent.km.pt, parent.at, v)) ==>
            PteFlags(Lookup(child.km.pt, child.at, v)) == PteFlags(Lookup(parent.km.pt, parent.at, v)))
      && Confined(old(parent.km.pt), map[], old(parent.km.data), child.km.pt, child.at, child.km.data)
  {
    hide Lookup; hide IsTree; hide Conserved; hide Filled; hide TablesAround; hide SameMap; hide Owned; hide PteV; hide PtePage; hide PteU; hide Apart; hide PteFlags; hide CopyPlan; hide MakePte; hide Mine; hide PagesOf; hide SameView; hide DataAround;
    var km := parent.km;
    ghost var pt, data, p := km.pt, km.data, parent.at;
    child := ProcPagetable(km, trampoline, trapframe);
    if child == null {
      return;
    }
    ghost var pt1, t1 := km.pt, child.at;
    NewTreeApart(pt, parent.root, p, pt1, t1);
    OtherTree(pt, map[], pt1, t1, parent.root, p);
    SameMapUser(pt, p, pt1, p, data, sz);
    BareKernel(pt1, t1, trampoline, trapframe);
    var r := Uvmcopy(parent, child, sz);
    AroundTrans(pt, map[], pt1, t1, km.pt, child.at);
    SameMapTrans(pt, pt1, km.pt, p);
    if r < 0 {
      SameMapBare(pt1, t1, km.pt, child.at, data);
      FreshTables(pt, km.pt, child.at);
      ProcFreePagetable(child, 0);
      assert km.data == data;
      return null;
    }
    Copied(pt, p, data, pt1, t1, km.pt, child.at, km.data, sz);
  }

  lemma NewTreeApart(pt: Tables, root: nat, p: Tree, pt1: Tables, t1: Tree)
    requires IsTree(pt, root, p) && TablesAround(pt, map[], pt1, t1)
    ensures Apart(p, map[]) && Apart(p, t1)
  {
    assert PagesOf(map[]) == {};
  }

  // The trampoline and the trapframe are not for user code.
  lemma BareKernel(pt: Tables, at: Tree, trampoline: nat, trapframe: nat)
    requires Bare(pt, at, trampoline, trapframe)
    ensures forall v :: TRAPFRAME <= v < PAGES ==> !PteU(Lookup(pt, at, v))
  {
    hide Lookup;
    KernelPte(trampoline, PTE_R + PTE_X);
    KernelPte(trapframe, PTE_R + PTE_W);
  }

  lemma KernelPte(page: nat, perm: nat)
    requires perm < 15
    ensures !PteU(MakePte(page, perm))
  {
    LowBits(MakePte(page, perm), page, if perm % 2 == 1 then perm else perm + 1);
  }

  // A child that got no memory is as bare as before.
  lemma SameMapBare(pt: Tables, at: Tree, pt1: Tables, at1: Tree, data: Frames)
    requires SameMap(pt, at, pt1, at1)
    requires forall v :: 0 <= v < TRAPFRAME ==> Lookup(pt, at, v) == 0
    requires forall v :: TRAPFRAME <= v < PAGES ==> !PteU(Lookup(pt, at, v))
    ensures UserSpace(pt1, at1, data, 0) && Mine(pt1, at1) == {}
  {
    hide Lookup; hide PteU;
    forall v | 0 <= v < PAGES ensures Lookup(pt1, at1, v) == Lookup(pt, at, v) {}
    NothingOwned(pt1, at1, data);
  }

  // The child after uvmcopy, and the parent.
  lemma Copied(pt: Tables, p: Tree, data: Frames, pt1: Tables, t1: Tree, pt2: Tables, t2: Tree, data2: Frames, sz: nat)
    requires UserSpace(pt, p, data, sz) && UserSpace(pt1, p, data, sz) && SameMap(pt, p, pt2, p) && SameMap(pt, p, pt1, p)
    requires forall v :: 0 <= v < TRAPFRAME ==> Lookup(pt1, t1, v) == 0
    requires forall v :: TRAPFRAME <= v < PAGES ==> !PteU(Lookup(pt1, t1, v))
    requires Pages(sz) <= TRAPFRAME && Filled(pt1, t1, data, pt2, t2, data2, CopyPlan(pt1, p, data, sz), 0, Pages(sz))
    ensures UserSpace(pt2, t2, data2, sz) && UserSpace(pt2, p, data2, sz)
    ensures SameView(pt, p, data, pt2, p, data2) && SameView(pt2, p, data2, pt2, t2, data2)
    ensures Mine(pt2, p) !! Mine(pt2, t2)
    ensures DataAround(data, Mine(pt, map[]), data2, Mine(pt2, t2))
    ensures forall v :: 0 <= v < TRAPFRAME && PteV(Lookup(pt2, p, v)) ==> PteFlags(Lookup(pt2, t2, v)) == PteFlags(Lookup(pt2, p, v))
  {
    hide Lookup; hide PteU; hide Mapped; hide PtePage; hide PteFlags; hide PteV; hide Filled; hide DataAround; hide Owned; hide PageView; hide Mine; hide CopyPlan; hide SameMap; hide UserSpace; hide NewEntry;
    var plan := CopyPlan(pt1, p, data, sz);
    ZeroIsInvalid();
    NothingOwned(pt1, t1, data);
    NoTree(pt);
    FilledView(pt1, t1, data, pt2, t2, data2, plan, 0, Pages(sz));
    FilledAround(pt1, t1, data, pt2, t2, data2, plan, 0, Pages(sz));
    PlanView(pt1, p, t1, data, sz);
    FilledKeeps(pt1, t1, data, pt2, t2, data2, plan, 0, Pages(sz));
    MoreData(pt, p, data, pt2, data2, sz);
    SameMapUser(pt, p, pt1, p, data, sz);
    CopiedSpace(pt1, t1, data, pt2, t2, data2, plan, sz);
    CopiedApart(pt, p, data, pt1, t1, pt2, t2, data2, plan, sz);
    forall v | 0 <= v < TRAPFRAME && PteV(Lookup(pt2, p, v))
      ensures PteFlags(Lookup(pt2, t2, v)) == PteFlags(Lookup(pt2, p, v))
    {
      CopiedFlags(pt, p, data, pt1, t1, pt2, t2, data2, plan, sz, v);
    }
  }

  lemma NoTree(pt: Tables)
    ensures Mine(pt, map[]) == {}
  {
  }

  lemma PlanView(pt: Tables, p: Tree, t: Tree, data: Frames, sz: nat)
    requires UserSpace(pt, p, data, sz) && Pages(sz) <= TRAPFRAME
    requires forall v :: 0 <= v < TRAPFRAME ==> Lookup(pt, t, v) == 0
    ensures var plan := CopyPlan(pt, p, data, sz);
      forall v :: 0 <= v < TRAPFRAME ==>
        PageView(pt, p, data, v) == if v in plan && v < Pages(sz) then plan[v].contents else PageView(pt, t, data, v)
  {
    hide Lookup; hide PteFlags; hide PtePage; hide PteU; hide CopyPlan;
  }

  lemma FilledKeeps(pt: Tables, at: Tree, data: Frames, pt1: Tables, at1: Tree, data1: Frames, plan: Plan, lo: nat, a: nat)
    requires a <= PAGES && Filled(pt, at, data, pt1, at1, data1, plan, lo, a)
    ensures forall p :: p in data ==> p in data1 && data1[p] == data[p]
  {
  }

  // More data pages and other tables make no difference to this address space.
  lemma MoreData(pt: Tables, at: Tree, data: Frames, pt1: Tables, data1: Frames, sz: nat)
    requires UserSpace(pt, at, data, sz) && SameMap(pt, at, pt1, at)
    requires forall p :: p in data ==> p in data1 && data1[p] == data[p]
    ensures UserSpace(pt1, at, data1, sz) && SameView(pt, at, data, pt1, at, data1)
  {
    hide Lookup; hide Mapped; hide PteV; hide PtePage; hide PteU;
  }

  lemma CopiedSpace(pt1: Tables, t1: Tree, data: Frames, pt2: Tables, t2: Tree, data2: Frames, plan: Plan, sz: nat)
    requires sz <= LIMIT && Pages(sz) <= TRAPFRAME && Filled(pt1, t1, data, pt2, t2, data2, plan, 0, Pages(sz))
    requires forall v :: 0 <= v < TRAPFRAME ==> Lookup(pt1, t1, v) == 0
    requires forall v :: TRAPFRAME <= v < PAGES ==> !PteU(Lookup(pt1, t1, v))
    ensures UserSpace(pt2, t2, data2, sz)
  {
    hide Lookup; hide PteU; hide Mapped; hide PtePage; hide PteV; hide Filled; hide Owned;
    ZeroIsInvalid();
    NothingOwned(pt1, t1, data);
    FilledOwnedAll(pt1, t1, data, pt2, t2, data2, plan, 0, Pages(sz), TRAPFRAME);
    FilledLookup(pt1, t1, data, pt2, t2, data2, plan, 0, Pages(sz));
  }

  lemma CopiedApart(pt: Tables, p: Tree, data: Frames, pt1: Tables, t1: Tree, pt2: Tables, t2: Tree, data2: Frames, plan: Plan, sz: nat)
    requires UserSpace(pt, p, data, sz) && SameMap(pt, p, pt2, p)
    requires Pages(sz) <= TRAPFRAME && Filled(pt1, t1, data, pt2, t2, data2, plan, 0, Pages(sz))
    requires forall v :: 0 <= v < TRAPFRAME ==> Lookup(pt1, t1, v) == 0
    ensures Mine(pt2, p) !! Mine(pt2, t2)
  {
    hide Lookup; hide PteU; hide Mapped; hide PtePage; hide PteV; hide Filled;
    ZeroIsInvalid();
    FilledLookup(pt1, t1, data, pt2, t2, data2, plan, 0, Pages(sz));
    forall q | q in Mine(pt2, p) ensures q in data {
      var v :| 0 <= v < TRAPFRAME && PteV(Lookup(pt2, p, v)) && PtePage(Lookup(pt2, p, v)) == q;
      assert Lookup(pt2, p, v) == Lookup(pt, p, v);
    }
    forall q | q in Mine(pt2, t2) ensures q !in data {
      var v :| 0 <= v < TRAPFRAME && PteV(Lookup(pt2, t2, v)) && PtePage(Lookup(pt2, t2, v)) == q;
      assert NewEntry(Lookup(pt2, t2, v), data, data2, plan[v]);
    }
  }

  lemma CopiedFlags(pt: Tables, p: Tree, data: Frames, pt1: Tables, t1: Tree, pt2: Tables, t2: Tree, data2: Frames, plan: Plan, sz: nat, v: nat)
    requires UserSpace(pt, p, data, sz) && SameMap(pt, p, pt2, p) && SameMap(pt, p, pt1, p) && plan == CopyPlan(pt1, p, data, sz)
    requires Pages(sz) <= TRAPFRAME && Filled(pt1, t1, data, pt2, t2, data2, plan, 0, Pages(sz))
    requires v < TRAPFRAME && PteV(Lookup(pt2, p, v))
    ensures PteFlags(Lookup(pt2, t2, v)) == PteFlags(Lookup(pt2, p, v))
  {
    hide Lookup; hide PteU; hide Mapped; hide PtePage; hide PteV; hide Filled; hide CopyPlan; hide PteFlags;
    FilledLookup(pt1, t1, data, pt2, t2, data2, plan, 0, Pages(sz));
    assert Lookup(pt2, p, v) == Lookup(pt, p, v) == Lookup(pt1, p, v);
    assert v in plan && NewEntry(Lookup(pt2, t2, v), data, data2, plan[v]);
    ValidFlags(Lookup(pt2, p, v));
  }

  lemma ValidFlags(pte: nat)
    requires PteV(pte)
    ensures PteFlags(pte) % 2 == 1
  {
    var q, f, h := pte / 1024, pte % 1024, pte / 2;
    assert pte == 1024 * q + f && pte == 2 * h + 1;
    assert f == 2 * (h - 512 * q) + 1;
  }
}
