/**
  All processes together.  Every page table page, every data page in use and every
  trapframe belongs to exactly one of them, and what one process does, no other sees.
 */
module Isolation {
  import opened PageTable
  import opened VirtualMemory
  import opened UserMemory
  import opened ProcessImage
  import opened Exec

  // An address space, and the page of the process's trapframe.
  datatype Space = Space(root: nat, at: Tree, sz: nat, tf: nat)

  // Memory and the address spaces of all processes, by process number.
  datatype World = World(pt: Tables, data: Frames, ps: map<nat, Space>)

  ghost predicate Proper(w: World, s: Space) {
    IsTree(w.pt, s.root, s.at) && UserSpace(w.pt, s.at, w.data, s.sz) && s.tf in w.data && s.tf !in Mine(w.pt, s.at)
  }

  // The data pages of a process.
  ghost function Own(pt: Tables, s: Space): set<nat> {
    Mine(pt, s.at) + {s.tf}
  }

  ghost predicate Strangers(pt: Tables, s: Space, t: Space) {
    Apart(s.at, t.at) && Own(pt, s) !! Own(pt, t)
  }

  ghost predicate HasOwner(w: World, p: nat) {
    exists i :: i in w.ps && p in Own(w.pt, w.ps[i])
  }

  ghost predicate HasTree(w: World, p: nat) {
    exists i :: i in w.ps && p in PagesOf(w.ps[i].at)
  }

  /** Tables and data pages are the disjoint unions of what the processes have. */
  ghost predicate Isolated(w: World) {
    && (forall i :: i in w.ps ==> Proper(w, w.ps[i]))
    && (forall i, j :: i in w.ps && j in w.ps && i != j ==> Strangers(w.pt, w.ps[i], w.ps[j]))
    && (forall p :: p in w.data ==> HasOwner(w, p))
    && (forall p :: p in w.pt ==> HasTree(w, p))
  }

  // The tables of process k, if there is one.
  ghost function TreeOf(w: World, k: nat): Tree {
    if k in w.ps then w.ps[k].at else map[]
  }

  ghost function OwnOf(w: World, k: nat): set<nat> {
    if k in w.ps then Own(w.pt, w.ps[k]) else {}
  }

  /**
    One operation of process k: a fault, a copy to or from it, sbrk, exec; its creation
    by fork, or its end.  Outside what k had and has, memory is as it was.
   */
  ghost predicate Step(w: World, k: nat, w': World) {
    && w'.pt - PagesOf(TreeOf(w', k)) == w.pt - PagesOf(TreeOf(w, k))
    && w'.data - OwnOf(w', k) == w.data - OwnOf(w, k)
    && w'.ps - {k} == w.ps - {k}
    && (k in w'.ps ==> Proper(w', w'.ps[k]))
  }

  // Process j has the same size and the same contents in both worlds.
  ghost predicate Unaffected(w: World, w': World, j: nat) {
    && j in w.ps && j in w'.ps && w'.ps[j] == w.ps[j]
    && SameMap(w.pt, w.ps[j].at, w'.pt, w.ps[j].at)
    && SameView(w.pt, w.ps[j].at, w.data, w'.pt, w.ps[j].at, w'.data)
  }

  lemma NoMine(pt: Tables)
    ensures Mine(pt, map[]) == {} && PagesOf(map[]) == {}
  {
    assert forall v :: 0 <= v < PAGES ==> !PteV(Lookup(pt, map[], v));
  }

  lemma Stranger(w: World, k: nat, j: nat)
    requires Isolated(w) && j in w.ps && j != k
    ensures PagesOf(w.ps[j].at) !! PagesOf(TreeOf(w, k)) && Own(w.pt, w.ps[j]) !! OwnOf(w, k)
  {
    hide PagesOf; hide Own; hide Proper; hide HasOwner; hide HasTree;
    if k in w.ps {
      assert Strangers(w.pt, w.ps[j], w.ps[k]);
    } else {
      NoMine(w.pt);
    }
  }

  /** Another process keeps its tables, its pages and its view, and shares nothing with what k now has. */
  lemma OtherKept(w: World, k: nat, w': World, j: nat)
    requires Isolated(w) && Step(w, k, w') && j in w.ps && j != k
    ensures Unaffected(w, w', j) && Proper(w', w'.ps[j])
    ensures Own(w'.pt, w.ps[j]) == Own(w.pt, w.ps[j])
    ensures PagesOf(w.ps[j].at) !! PagesOf(TreeOf(w', k)) && Own(w'.pt, w.ps[j]) !! OwnOf(w', k)
  {
    hide IsTree; hide UserSpace; hide PagesOf; hide Mine; hide Mapped; hide Lookup; hide SameMap; hide SameView; hide HasOwner; hide HasTree;
    var s, at, at' := w.ps[j], TreeOf(w, k), TreeOf(w', k);
    assert j in w'.ps - {k} && j in w.ps - {k};
    Stranger(w, k, j);
    assert Proper(w, s);
    TableInPt(w.pt, s.root, s.at);
    TreeMoves(w.pt, w'.pt, s.root, s.at, at, at');
    SameMine(w.pt, s.at, w'.pt);
    MineIsData(w.pt, s.at, w.data, s.sz);
    MineMoves(w.data, w'.data, Own(w.pt, s), OwnOf(w, k), OwnOf(w', k));
    OwnData(w.pt, s.at, w.data, w'.pt, w'.data, s.sz);
  }

  lemma TableInPt(pt: Tables, root: nat, at: Tree)
    requires IsTree(pt, root, at)
    ensures PagesOf(at) <= pt.Keys
  {
  }

  lemma TreeMoves(pt: Tables, pt': Tables, root: nat, other: Tree, at: Tree, at': Tree)
    requires IsTree(pt, root, other) && PagesOf(other) <= pt.Keys && PagesOf(other) !! PagesOf(at) && pt' - PagesOf(at') == pt - PagesOf(at)
    ensures IsTree(pt', root, other) && SameMap(pt, other, pt', other) && PagesOf(other) !! PagesOf(at')
  {
    hide IsTree; hide Lookup;
    forall p | p in PagesOf(other)
      ensures p in pt' && pt'[p] == pt[p] && p !in PagesOf(at')
    {
      assert p in pt - PagesOf(at);
      assert p in pt' - PagesOf(at');
    }
    assert forall n :: n in other ==> other[n] in PagesOf(other);
    TreeFrame(pt, pt', root, other);
  }

  lemma MineMoves(data: Frames, data': Frames, other: set<nat>, mine: set<nat>, mine': set<nat>)
    requires other <= data.Keys && other !! mine && data' - mine' == data - mine
    ensures other !! mine' && forall p :: p in other ==> p in data' && data'[p] == data[p]
  {
    forall p | p in other
      ensures p in data' && data'[p] == data[p] && p !in mine'
    {
      assert p in data - mine;
      assert p in data' - mine';
    }
  }

  // A page in use that k does not have belonged to another process, and still does.
  lemma DataOwned(w: World, k: nat, w': World, p: nat)
    requires Isolated(w) && Step(w, k, w') && p in w'.data
    ensures HasOwner(w', p)
  {
    hide Own; hide PagesOf; hide Proper; hide Strangers; hide HasTree; hide Unaffected; hide Isolated;
    if p !in OwnOf(w', k) {
      assert p in w'.data - OwnOf(w', k);
      assert p in w.data && p !in OwnOf(w, k);
      var i := OwnerOf(w, p);
      OtherKept(w, k, w', i);
      assert i in w'.ps - {k} by { assert i in w.ps - {k}; }
      assert w'.ps[i] == w.ps[i] by { assert (w'.ps - {k})[i] == (w.ps - {k})[i]; }
    }
  }

  lemma OwnerOf(w: World, p: nat) returns (i: nat)
    requires Isolated(w) && p in w.data
    ensures i in w.ps && p in Own(w.pt, w.ps[i])
  {
    hide Own;
    assert HasOwner(w, p);
    i :| i in w.ps && p in Own(w.pt, w.ps[i]);
  }

  lemma TableOwned(w: World, k: nat, w': World, p: nat)
    requires Isolated(w) && Step(w, k, w') && p in w'.pt
    ensures HasTree(w', p)
  {
    hide Own; hide PagesOf; hide Proper; hide Strangers; hide HasOwner; hide Isolated;
    if p in PagesOf(TreeOf(w', k)) {
      NoMine(w'.pt);
    } else {
      assert p in w'.pt - PagesOf(TreeOf(w', k));
      assert p in w.pt && p !in PagesOf(TreeOf(w, k));
      var i := TreeWith(w, p);
      assert i in w'.ps - {k} by { assert i in w.ps - {k}; }
      assert w'.ps[i] == w.ps[i] by { assert (w'.ps - {k})[i] == (w.ps - {k})[i]; }
    }
  }

  lemma TreeWith(w: World, p: nat) returns (i: nat)
    requires Isolated(w) && p in w.pt
    ensures i in w.ps && p in PagesOf(w.ps[i].at)
  {
    hide PagesOf;
    assert HasTree(w, p);
    i :| i in w.ps && p in PagesOf(w.ps[i].at);
  }

  lemma StrangersKept(w: World, k: nat, w': World, i: nat, j: nat)
    requires Isolated(w) && Step(w, k, w') && i in w'.ps && j in w'.ps && i != j
    ensures Strangers(w'.pt, w'.ps[i], w'.ps[j])
  {
    hide Own; hide PagesOf; hide Proper; hide HasOwner; hide HasTree; hide Unaffected;
    Before(w, k, w', i);
    Before(w, k, w', j);
    if i != k { OtherKept(w, k, w', i); }
    if j != k { OtherKept(w, k, w', j); }
    if i != k && j != k {
      assert Strangers(w.pt, w.ps[i], w.ps[j]);
    }
  }

  lemma Before(w: World, k: nat, w': World, i: nat)
    requires Step(w, k, w') && i in w'.ps
    ensures i != k ==> i in w.ps && w'.ps[i] == w.ps[i]
  {
    hide Proper;
    if i != k {
      assert i in w'.ps - {k};
      assert (w'.ps - {k})[i] == (w.ps - {k})[i];
    }
  }

  /** Every step of every process keeps all processes apart and every page accounted for. */
  lemma StepKeepsIsolated(w: World, k: nat, w': World)
    requires Isolated(w) && Step(w, k, w')
    ensures Isolated(w')
    ensures forall j :: j in w.ps && j != k ==> Unaffected(w, w', j)
  {
    hide Strangers; hide HasOwner; hide HasTree; hide Proper; hide Unaffected;
    forall i | i in w'.ps
      ensures Proper(w', w'.ps[i])
    {
      Before(w, k, w', i);
      if i != k { OtherKept(w, k, w', i); }
    }
    forall i, j | i in w'.ps && j in w'.ps && i != j
      ensures Strangers(w'.pt, w'.ps[i], w'.ps[j])
    {
      StrangersKept(w, k, w', i, j);
    }
    forall p | p in w'.data ensures HasOwner(w', p) { DataOwned(w, k, w', p); }
    forall p | p in w'.pt ensures HasTree(w', p) { TableOwned(w, k, w', p); }
    forall j | j in w.ps && j != k ensures Unaffected(w, w', j) { OtherKept(w, k, w', j); }
  }

  // ---------------------------------------------------------------- whole runs

  ghost predicate Run(ws: seq<World>, ks: seq<nat>) {
    && |ws| == |ks| + 1
    && forall i :: 0 <= i < |ks| ==> Step(ws[i], ks[i], ws[i + 1])
  }

  lemma {:induction false} RunIsolated(ws: seq<World>, ks: seq<nat>, n: nat)
    requires Run(ws, ks) && Isolated(ws[0]) && n <= |ks|
    ensures Isolated(ws[n])
  {
    hide Isolated; hide Step;
    if n > 0 {
      RunIsolated(ws, ks, n - 1);
      StepKeepsIsolated(ws[n - 1], ks[n - 1], ws[n]);
    }
  }

  /**
    In every run the processes share no page and no page is lost, and a process sees
    exactly the same memory for as long as it takes no step itself.
   */
  lemma {:induction false} NobodyInterferes(ws: seq<World>, ks: seq<nat>, j: nat, m: nat, n: nat)
    requires Run(ws, ks) && Isolated(ws[0]) && m <= n <= |ks| && j in ws[m].ps
    requires forall i :: m <= i < n ==> ks[i] != j
    ensures Isolated(ws[n]) && Unaffected(ws[m], ws[n], j)
  {
    hide Isolated; hide Step; hide Unaffected;
    RunIsolated(ws, ks, n);
    if m == n {
      UnaffectedRefl(ws[m], j);
    } else {
      NobodyInterferes(ws, ks, j, m, n - 1);
      UnaffectedMeans(ws[m], ws[n - 1], j);
      RunIsolated(ws, ks, n - 1);
      StepKeepsIsolated(ws[n - 1], ks[n - 1], ws[n]);
      UnaffectedTrans(ws[m], ws[n - 1], ws[n], j);
    }
  }

  lemma UnaffectedRefl(w: World, j: nat)
    requires j in w.ps
    ensures Unaffected(w, w, j)
  {
  }

  lemma UnaffectedMeans(w: World, w': World, j: nat)
    requires Unaffected(w, w', j)
    ensures j in w'.ps
  {
  }

  lemma UnaffectedTrans(w: World, w1: World, w2: World, j: nat)
    requires Unaffected(w, w1, j) && Unaffected(w1, w2, j)
    ensures Unaffected(w, w2, j)
  {
    hide Lookup; hide PageView;
  }

  // ---------------------------------------------------------------- the operations are steps

  /** What exec promises makes it a step. */
  lemma SwappedIsStep(w: World, k: nat, w': World)
    requires k in w.ps && k in w'.ps && w'.ps - {k} == w.ps - {k} && Proper(w', w'.ps[k]) && w'.ps[k].tf == w.ps[k].tf
    requires Swapped(w.pt, w.ps[k].at, w.data, w'.pt, w'.ps[k].at, w'.data)
    ensures Step(w, k, w')
  {
    hide Mine; hide Proper; hide PagesOf;
    var tf, mine, mine' := w.ps[k].tf, Mine(w.pt, w.ps[k].at), Mine(w'.pt, w'.ps[k].at);
    assert w'.data - (mine' + {tf}) == (w'.data - mine') - {tf};
    assert w.data - (mine + {tf}) == (w.data - mine) - {tf};
  }

  /** What vmfault, copyin, copyout, sbrk and growproc promise makes them steps. */
  lemma ConfinedIsStep(w: World, k: nat, w': World)
    requires k in w.ps && k in w'.ps && w'.ps - {k} == w.ps - {k} && Proper(w', w'.ps[k]) && w'.ps[k].tf == w.ps[k].tf
    requires Confined(w.pt, w.ps[k].at, w.data, w'.pt, w'.ps[k].at, w'.data)
    ensures Step(w, k, w')
  {
    hide Mine; hide Proper; hide Confined;
    ConfinedSwaps(w.pt, w.ps[k].at, w.data, w'.pt, w'.ps[k].at, w'.data);
    SwappedIsStep(w, k, w');
  }

  lemma ConfinedSwaps(pt: Tables, at: Tree, data: Frames, pt': Tables, at': Tree, data': Frames)
    requires Confined(pt, at, data, pt', at', data')
    ensures Swapped(pt, at, data, pt', at', data')
  {
    hide Mine;
    assert forall n :: n in at ==> at[n] in PagesOf(at');
    assert pt' - PagesOf(at') == pt - PagesOf(at);
    assert data' - Mine(pt', at') == data - Mine(pt, at);
  }

  /** allocproc and the copying of fork, for a child with trapframe tf, are one. */
  lemma ForkedIsStep(w: World, k: nat, w': World, contents: Frame)
    requires k !in w.ps && k in w'.ps && w'.ps - {k} == w.ps && Proper(w', w'.ps[k]) && w'.ps[k].tf !in w.data
    requires Confined(w.pt, map[], w.data[w'.ps[k].tf := contents], w'.pt, w'.ps[k].at, w'.data)
    ensures Step(w, k, w')
  {
    hide Mine; hide Proper; hide Confined;
    var tf, mine' := w'.ps[k].tf, Mine(w'.pt, w'.ps[k].at);
    ConfinedSwaps(w.pt, map[], w.data[tf := contents], w'.pt, w'.ps[k].at, w'.data);
    NoMine(w.pt);
    assert w.pt - {} == w.pt && w.data[tf := contents] - {} == w.data[tf := contents];
    assert w'.data - (mine' + {tf}) == (w'.data - mine') - {tf};
    assert w.data[tf := contents] - {tf} == w.data && w.data - {} == w.data;
    assert w.ps - {k} == w.ps;
  }

  /** Freeing what a process that has ended had is one. */
  lemma FreedIsStep(w: World, k: nat, w': World)
    requires k in w.ps && w'.ps == w.ps - {k}
    requires w'.pt == w.pt - PagesOf(w.ps[k].at) && w'.data == w.data - Own(w.pt, w.ps[k])
    ensures Step(w, k, w')
  {
    hide Own; hide Proper; hide PagesOf;
    NoMine(w'.pt);
    assert w'.pt - {} == w'.pt && w'.data - {} == w'.data;
    assert w'.ps - {k} == w.ps - {k};
  }

  // ---------------------------------------------------------------- allocproc and freeproc

  /**
    The memory part of allocproc: a trapframe and an empty address space that maps it.
    Without memory for both, every page is given back.
   */
  method AllocProc(km: Kmem, trampoline: nat, junk: Frame) returns (a: AddrSpace?, tf: nat)
    requires km.Valid()
    modifies km
    ensures km.Valid()
    ensures a == null ==> km.pt == old(km.pt) && km.data == old(km.data) && |old(km.free)| < 6
    ensures a != null ==> fresh(a) && a.km == km && a.Valid() && Bare(km.pt, a.at, trampoline, tf) && UserSpace(km.pt, a.at, km.data, 0)
    ensures a != null ==> tf !in old(km.data) && tf !in old(km.pt) && tf in old(km.free) && tf !in Mine(km.pt, a.at)
    ensures a != null ==> Confined(old(km.pt), map[], old(km.data)[tf := junk], km.pt, a.at, km.data)
  {
    hide Lookup; hide IsTree; hide Conserved; hide Bare; hide UserSpace; hide TablesAround; hide Confined; hide Mine;
    ghost var pt, data, free := km.pt, km.data, km.free;
    a := null;
    tf := km.KallocData(junk);
    if tf == 0 {
      return;
    }
    assert |km.free| == |free| - 1;
    a := ProcPagetable(km, trampoline, tf);
    if a == null {
      km.Kfree(tf);
      assert km.data == data;
      NotATable(pt, tf);
      return null, 0;
    }
    EmptySpace(pt, km.pt, a.at, km.data, trampoline, tf);
  }

  lemma NotATable(pt: Tables, tf: nat)
    requires tf !in pt
    ensures pt - {tf} == pt
  {
  }

  lemma EmptySpace(pt0: Tables, pt: Tables, at: Tree, data: Frames, trampoline: nat, tf: nat)
    requires TablesAround(pt0, map[], pt, at) && Bare(pt, at, trampoline, tf)
    ensures UserSpace(pt, at, data, 0) && Mine(pt, at) == {} && Confined(pt0, map[], data, pt, at, data)
  {
    hide Lookup; hide TablesAround; hide MakePte; hide IsTree;
    NothingOwned(pt, at, data);
    BareKernel(pt, at, trampoline, tf);
    NoMine(pt0);
    assert Mine(pt, at) == {};
  }

  /** The memory part of freeproc: the trapframe, then the address space. */
  method FreeProc(a: AddrSpace, tf: nat, sz: nat)
    requires a.Valid() && UserSpace(a.km.pt, a.at, a.km.data, sz) && tf in a.km.data && tf !in Mine(a.km.pt, a.at)
    modifies a, a.km
    ensures a.km.Valid() && a.km.pt == old(a.km.pt) - PagesOf(old(a.at))
    ensures a.km.data == old(a.km.data) - (Mine(old(a.km.pt), old(a.at)) + {tf})
  {
    hide Lookup; hide IsTree; hide Conserved; hide UserSpace; hide Mine; hide PagesOf;
    ghost var pt, at, data := a.km.pt, a.at, a.km.data;
    WithoutFrame(pt, at, data, sz, tf);
    DataNotTable(a.km, tf);
    a.km.Kfree(tf);
    NotATable(pt, tf);
    ProcFreePagetable(a, sz);
    assert data - {tf} - Mine(pt, at) == data - (Mine(pt, at) + {tf});
  }

  lemma DataNotTable(km: Kmem, tf: nat)
    requires km.Valid() && tf in km.data
    ensures tf !in km.pt
  {
  }

  lemma WithoutFrame(pt: Tables, at: Tree, data: Frames, sz: nat, tf: nat)
    requires UserSpace(pt, at, data, sz) && tf !in Mine(pt, at)
    ensures UserSpace(pt, at, data - {tf}, sz)
  {
    hide Lookup; hide PteV; hide PtePage; hide PteU;
    forall v | 0 <= v < TRAPFRAME && PteV(Lookup(pt, at, v)) ensures PtePage(Lookup(pt, at, v)) != tf {
      assert PtePage(Lookup(pt, at, v)) in Mine(pt, at);
    }
  }
}
