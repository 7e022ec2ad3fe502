/**
  User memory: what a process sees of its address space (vm.c, proc.c, sysproc.c).

  A process sees `sz` bytes.  A page below sz that is not mapped yet reads as zeros;
  the first access maps it.
 */
module UserMemory {
  import opened Blocks
  import opened PageTable
  import opened VirtualMemory

  const LIMIT: nat := TRAPFRAME * PGSIZE  // TRAPFRAME, as an address

  // ---------------------------------------------------------------- the view

  /** The contents of virtual page v as the process sees them. */
  ghost function PageView(pt: Tables, at: Tree, data: Frames, v: nat): Frame
    requires v < PAGES
  {
    var pte := Lookup(pt, at, v);
    if PteV(pte) && PtePage(pte) in data then data[PtePage(pte)] else ZeroFrame
  }

  ghost function ByteView(pt: Tables, at: Tree, data: Frames, va: nat): Byte
    requires va < LIMIT
  {
    PageView(pt, at, data, va / PGSIZE)[va % PGSIZE]
  }

  /** The user part of an address space of size sz: own data pages, none at or beyond sz. */
  ghost predicate UserSpace(pt: Tables, at: Tree, data: Frames, sz: nat) {
    && sz <= LIMIT
    && Owned(pt, at, data, 0, TRAPFRAME)
    && (forall v :: Pages(sz) <= v < TRAPFRAME ==> !PteV(Lookup(pt, at, v)))
    && (forall v :: TRAPFRAME <= v < PAGES ==> !PteU(Lookup(pt, at, v)))
  }

  /** What user code, and copyin for it, may read at page v: a mapped user page, or one not yet mapped. */
  ghost predicate Readable(pt: Tables, at: Tree, sz: nat, v: nat) {
    && v < PAGES
    && if PteV(Lookup(pt, at, v)) then PteU(Lookup(pt, at, v)) else v * PGSIZE < sz
  }

  ghost predicate Writable(pt: Tables, at: Tree, sz: nat, v: nat) {
    Readable(pt, at, sz, v) && (PteV(Lookup(pt, at, v)) ==> PteW(Lookup(pt, at, v)))
  }

  // Pages that are mapped stay mapped as they are.
  ghost predicate Keeps(pt: Tables, at: Tree, pt': Tables, at': Tree) {
    forall u :: 0 <= u < PAGES && PteV(Lookup(pt, at, u)) ==> Lookup(pt', at', u) == Lookup(pt, at, u)
  }

  lemma KeepsTrans(pt: Tables, at: Tree, pt1: Tables, at1: Tree, pt2: Tables, at2: Tree)
    requires Keeps(pt, at, pt1, at1) && Keeps(pt1, at1, pt2, at2)
    ensures Keeps(pt, at, pt2, at2)
  {
    hide Lookup; hide PteV;
  }

  ghost predicate SameView(pt: Tables, at: Tree, data: Frames, pt': Tables, at': Tree, data': Frames) {
    forall v :: 0 <= v < TRAPFRAME ==> PageView(pt', at', data', v) == PageView(pt, at, data, v)
  }

  /**
    Data pages that this process does not map are kept.  New ones are mapped by it, and
    what it mapped it still maps, unless it was freed.
   */
  ghost predicate DataAround(data: Frames, mine: set<nat>, data': Frames, mine': set<nat>) {
    && (forall p :: p in data && p !in mine ==> p in data' && data'[p] == data[p] && p !in mine')
    && (forall p :: p in data' && p !in data ==> p in mine')
    && (forall p :: p in mine && p in data' ==> p in mine')
  }

  ghost function Mine(pt: Tables, at: Tree): set<nat> { Mapped(pt, at, 0, TRAPFRAME) }

  /** Only this address space changed. */
  ghost predicate Confined(pt: Tables, at: Tree, data: Frames, pt': Tables, at': Tree, data': Frames) {
    TablesAround(pt, at, pt', at') && DataAround(data, Mine(pt, at), data', Mine(pt', at'))
  }

  lemma ConfinedRefl(pt: Tables, at: Tree, data: Frames)
    ensures Confined(pt, at, data, pt, at, data)
  {
  }

  lemma ConfinedTrans(pt: Tables, at: Tree, data: Frames, pt1: Tables, at1: Tree, data1: Frames, pt2: Tables, at2: Tree, data2: Frames)
    requires Confined(pt, at, data, pt1, at1, data1) && Confined(pt1, at1, data1, pt2, at2, data2)
    ensures Confined(pt, at, data, pt2, at2, data2)
  {
    hide TablesAround; hide DataAround; hide Mine;
    AroundTrans(pt, at, pt1, at1, pt2, at2);
    DataAroundTrans(data, Mine(pt, at), data1, Mine(pt1, at1), data2, Mine(pt2, at2));
  }

  lemma SizePages(sz: nat)
    requires sz <= LIMIT
    ensures Pages(sz) <= TRAPFRAME
  {
    assert (sz + PGSIZE - 1) / PGSIZE <= (LIMIT + PGSIZE - 1) / PGSIZE == TRAPFRAME;
  }

  // ---------------------------------------------------------------- how steps change it

  lemma FilledView(pt: Tables, at: Tree, data: Frames, pt1: Tables, at1: Tree, data1: Frames, plan: Plan, lo: nat, a: nat)
    requires a <= TRAPFRAME && Filled(pt, at, data, pt1, at1, data1, plan, lo, a) && Owned(pt, at, data, 0, TRAPFRAME)
    ensures forall v :: 0 <= v < TRAPFRAME ==>
      PageView(pt1, at1, data1, v) == if v in plan && v < a then plan[v].contents else PageView(pt, at, data, v)
  {
    hide Lookup; hide Mapped; hide PteV; hide PtePage; hide PteFlags;
    forall v | 0 <= v < TRAPFRAME
      ensures PageView(pt1, at1, data1, v) == if v in plan && v < a then plan[v].contents else PageView(pt, at, data, v)
    {
      if v in plan && v < a {
        assert NewEntry(Lookup(pt1, at1, v), data, data1, plan[v]);
      }
    }
  }

  lemma FilledAround(pt: Tables, at: Tree, data: Frames, pt1: Tables, at1: Tree, data1: Frames, plan: Plan, lo: nat, a: nat)
    requires lo <= a <= TRAPFRAME && Filled(pt, at, data, pt1, at1, data1, plan, lo, a) && (forall v :: v in plan ==> lo <= v)
    requires forall v :: 0 <= v < PAGES && v in plan ==> !PteV(Lookup(pt, at, v))
    ensures DataAround(data, Mine(pt, at), data1, Mine(pt1, at1))
  {
    hide Lookup; hide Mapped; hide PteV; hide PtePage; hide PteFlags;
    forall p | p in Mine(pt1, at1) && p in data ensures p in Mine(pt, at) {
      var v :| 0 <= v < TRAPFRAME && PteV(Lookup(pt1, at1, v)) && PtePage(Lookup(pt1, at1, v)) == p;
      if !(v in plan && v < a) {
        assert Lookup(pt1, at1, v) == Lookup(pt, at, v);
      }
    }
    forall p | p in Mine(pt, at) ensures p in Mine(pt1, at1) {
      var v :| 0 <= v < TRAPFRAME && PteV(Lookup(pt, at, v)) && PtePage(Lookup(pt, at, v)) == p;
      assert Lookup(pt1, at1, v) == Lookup(pt, at, v);
    }
    MappedWider(pt1, at1, lo, a);
  }

  lemma MappedWider(pt: Tables, at: Tree, lo: nat, hi: nat)
    requires hi <= TRAPFRAME
    ensures Mapped(pt, at, lo, hi) <= Mine(pt, at)
  {
    hide Lookup;
  }

  // Unmapping and freeing [lo, hi).
  lemma CutView(pt: Tables, at: Tree, data: Frames, pt1: Tables, data1: Frames, lo: nat, hi: nat)
    requires hi <= TRAPFRAME && Owned(pt, at, data, 0, TRAPFRAME) && Cut(pt, pt1, at, lo, hi)
    requires data1 == data - Mapped(pt, at, lo, hi)
    ensures Owned(pt1, at, data1, 0, TRAPFRAME)
    ensures forall v :: 0 <= v < TRAPFRAME ==>
      PageView(pt1, at, data1, v) == if lo <= v < hi then ZeroFrame else PageView(pt, at, data, v)
  {
    hide Lookup; hide Mapped; hide PteV; hide PtePage;
    ZeroIsInvalid();
    forall v | 0 <= v < TRAPFRAME && !(lo <= v < hi) && PteV(Lookup(pt, at, v))
      ensures PtePage(Lookup(pt, at, v)) in data1 && data1[PtePage(Lookup(pt, at, v))] == data[PtePage(Lookup(pt, at, v))]
    {
      CutApart(pt, at, data, lo, hi, v);
    }
  }

  lemma CutApart(pt: Tables, at: Tree, data: Frames, lo: nat, hi: nat, v: nat)
    requires hi <= TRAPFRAME && Owned(pt, at, data, 0, TRAPFRAME)
    requires v < TRAPFRAME && !(lo <= v < hi) && PteV(Lookup(pt, at, v))
    ensures PtePage(Lookup(pt, at, v)) !in Mapped(pt, at, lo, hi)
  {
    hide Lookup;
  }

  lemma CutAround(pt: Tables, at: Tree, data: Frames, pt1: Tables, data1: Frames, lo: nat, hi: nat)
    requires hi <= TRAPFRAME && Cut(pt, pt1, at, lo, hi) && data1 == data - Mapped(pt, at, lo, hi)
    ensures DataAround(data, Mine(pt, at), data1, Mine(pt1, at))
  {
    hide Lookup; hide Mapped; hide PteV; hide PtePage;
    ZeroIsInvalid();
    MappedWider(pt, at, lo, hi);
    forall p | p in Mine(pt1, at) ensures p in Mine(pt, at) {
      var v :| 0 <= v < TRAPFRAME && PteV(Lookup(pt1, at, v)) && PtePage(Lookup(pt1, at, v)) == p;
      assert Lookup(pt1, at, v) == Lookup(pt, at, v);
    }
    forall p | p in Mine(pt, at) && p !in Mapped(pt, at, lo, hi) ensures p in Mine(pt1, at) {
      var v :| 0 <= v < TRAPFRAME && PteV(Lookup(pt, at, v)) && PtePage(Lookup(pt, at, v)) == p;
      assert Lookup(pt1, at, v) == Lookup(pt, at, v);
    }
  }

  // Storing into the page mapped at v.
  lemma StoreView(pt: Tables, at: Tree, data: Frames, v: nat, f: Frame)
    requires v < TRAPFRAME && Owned(pt, at, data, 0, TRAPFRAME) && PteV(Lookup(pt, at, v))
    ensures Owned(pt, at, data[PtePage(Lookup(pt, at, v)) := f], 0, TRAPFRAME)
    ensures forall u :: 0 <= u < TRAPFRAME ==>
      PageView(pt, at, data[PtePage(Lookup(pt, at, v)) := f], u) == if u == v then f else PageView(pt, at, data, u)
    ensures DataAround(data, Mine(pt, at), data[PtePage(Lookup(pt, at, v)) := f], Mine(pt, at))
  {
    hide Lookup; hide PteV; hide PtePage;
    var p := PtePage(Lookup(pt, at, v));
    forall u | 0 <= u < TRAPFRAME && u != v && PteV(Lookup(pt, at, u)) ensures PtePage(Lookup(pt, at, u)) != p {
      if u < v {
        assert PtePage(Lookup(pt, at, u)) != PtePage(Lookup(pt, at, v));
      } else {
        assert PtePage(Lookup(pt, at, v)) != PtePage(Lookup(pt, at, u));
      }
    }
    forall u | 0 <= u < TRAPFRAME
      ensures PageView(pt, at, data[p := f], u) == if u == v then f else PageView(pt, at, data, u)
    {
      if u == v {
        assert PageView(pt, at, data[p := f], u) == f;
      } else if PteV(Lookup(pt, at, u)) {
        assert PtePage(Lookup(pt, at, u)) in data;
      }
    }
  }

  lemma DataAroundTrans(data: Frames, mine: set<nat>, data1: Frames, mine1: set<nat>, data2: Frames, mine2: set<nat>)
    requires DataAround(data, mine, data1, mine1) && DataAround(data1, mine1, data2, mine2)
    ensures DataAround(data, mine, data2, mine2)
  {
  }

  lemma AroundTrans(pt: Tables, at: Tree, pt1: Tables, at1: Tree, pt2: Tables, at2: Tree)
    requires TablesAround(pt, at, pt1, at1) && TablesAround(pt1, at1, pt2, at2)
    ensures TablesAround(pt, at, pt2, at2)
  {
    forall p | p in pt && p !in PagesOf(at) ensures pt2[p] == pt[p] {
      assert p !in PagesOf(at1);
    }
    forall p | p in pt2 && p !in pt ensures p in PagesOf(at2) {
      if p in pt1 {
        var n :| n in at1 && at1[n] == p;
        assert n in at2 && at2[n] == p;
      }
    }
  }

  // ---------------------------------------------------------------- a process

  class Proc {
    const km: Kmem
    var pagetable: AddrSpace
    var sz: nat

    constructor (pagetable: AddrSpace, sz: nat)
      ensures this.km == pagetable.km && this.pagetable == pagetable && this.sz == sz
    {
      this.km, this.pagetable, this.sz := pagetable.km, pagetable, sz;
    }

    ghost predicate Valid()
      reads this, pagetable, km
    {
      pagetable.km == km && pagetable.Valid() && UserSpace(km.pt, pagetable.at, km.data, sz)
    }

    /**
      vmfault: give the page of va a zeroed frame, if it is below sz and has none.
      The process sees no change.
     */
    method Vmfault(va: nat) returns (mem: nat)
      requires Valid()
      modifies pagetable, km
      ensures Valid() && SameView(old(km.pt), old(pagetable.at), old(km.data), km.pt, pagetable.at, km.data)
      ensures Confined(old(km.pt), old(pagetable.at), old(km.data), km.pt, pagetable.at, km.data)
      ensures |km.free| + 3 >= |old(km.free)|
      ensures forall u :: 0 <= u < PAGES && (mem == 0 || u != va / PGSIZE) ==>
        Lookup(km.pt, pagetable.at, u) == Lookup(old(km.pt), old(pagetable.at), u)
      ensures va < sz ==> va / PGSIZE < PAGES
      ensures mem == 0 <==>
        va >= sz || PteV(Lookup(old(km.pt), old(pagetable.at), va / PGSIZE)) || |old(km.free)| < 1 + Missing(old(pagetable.at), va / PGSIZE)
      ensures mem != 0 ==>
        && va < sz
        && var pte := Lookup(km.pt, pagetable.at, va / PGSIZE);
          && PteV(pte) && PtePage(pte) == mem && PteFlags(pte) == PTE_R + PTE_W + PTE_U + 1
    {
      hide Lookup; hide IsTree; hide Conserved; hide TablesAround; hide DataAround; hide Filled; hide PteV; hide PteFlags; hide PtePage; hide UserSpace; hide Mine; hide SameView;
      ghost var pt, t, data := km.pt, pagetable.at, km.data;
      ConfinedRefl(pt, t, data);
      AroundRefl(pt, t);
      SameViewRefl(pt, t, data);
      if va >= sz {
        return 0;
      }
      var v := va / PGSIZE;
      BelowLimit(pt, t, data, sz, va);
      pagetable.LeafEntry(v);
      var leaf := pagetable.Walk(v, false);
      if leaf != 0 && PteV(km.pt[leaf][v % 512]) {
        return 0;
      }
      ghost var plan := map[v := Want(PTE_R + PTE_W + PTE_U, ZeroFrame)];
      ZeroIsInvalid();
      FilledNone(pt, t, data, plan, v);
      mem := pagetable.NewPage(v, ZeroFrame, PTE_R + PTE_W + PTE_U, pt, t, data, plan, v);
      Faulted(pt, t, data, km.pt, pagetable.at, km.data, sz, v, mem != 0);
    }

    /** walkaddr, and vmfault if that finds nothing: the frame of page v for copyin and copyout. */
    method Reach(v: nat) returns (pa: nat)
      requires Valid()
      modifies pagetable, km
      ensures Valid() && SameView(old(km.pt), old(pagetable.at), old(km.data), km.pt, pagetable.at, km.data)
      ensures Confined(old(km.pt), old(pagetable.at), old(km.data), km.pt, pagetable.at, km.data)
      ensures |km.free| + 3 >= |old(km.free)|
      ensures forall u :: 0 <= u < PAGES && u != v ==> Lookup(km.pt, pagetable.at, u) == Lookup(old(km.pt), old(pagetable.at), u)
      ensures Keeps(old(km.pt), old(pagetable.at), km.pt, pagetable.at)
      ensures pa == 0 ==> !Readable(old(km.pt), old(pagetable.at), sz, v) || |old(km.free)| < 3
      ensures pa != 0 ==>
        && v < TRAPFRAME && Readable(old(km.pt), old(pagetable.at), sz, v)
        && var pte := Lookup(km.pt, pagetable.at, v);
          && PteV(pte) && PteU(pte) && PtePage(pte) == pa
          && (PteW(pte) <==> Writable(old(km.pt), old(pagetable.at), sz, v))
    {
      hide Lookup; hide IsTree; hide Conserved; hide Confined; hide PteV; hide PteFlags; hide PtePage; hide PteU; hide PteW; hide SameView; hide Owned;
      ghost var pt, t, data := km.pt, pagetable.at, km.data;
      ConfinedRefl(pt, t, data);
      SameViewRefl(pt, t, data);
      pa := pagetable.WalkAddr(v);
      if pa == 0 {
        if v < PAGES {
          PageStart(v);
          if PteV(Lookup(pt, t, v)) && PteU(Lookup(pt, t, v)) {
            UserPageIsData(v);
          }
        }
        pa := Vmfault(v * PGSIZE);
        if pa != 0 {
          FaultFlags(Lookup(km.pt, pagetable.at, v));
        }
      }
    }

    // One turn of the loop of copyout: bytes go to page v, from offset off on.
    method StoreAt(v: nat, off: nat, bytes: seq<Byte>) returns (ok: bool)
      requires Valid() && off + |bytes| <= PGSIZE
      modifies pagetable, km
      ensures Valid() && Confined(old(km.pt), old(pagetable.at), old(km.data), km.pt, pagetable.at, km.data)
      ensures |km.free| + 3 >= |old(km.free)|
      ensures forall u :: 0 <= u < PAGES && u != v ==> Lookup(km.pt, pagetable.at, u) == Lookup(old(km.pt), old(pagetable.at), u)
      ensures Keeps(old(km.pt), old(pagetable.at), km.pt, pagetable.at)
      ensures ok ==> v < TRAPFRAME && Writable(old(km.pt), old(pagetable.at), sz, v)
      ensures ok ==> Spliced(old(km.pt), old(pagetable.at), old(km.data), km.pt, pagetable.at, km.data, v, off, bytes)
      ensures !ok ==> !Writable(old(km.pt), old(pagetable.at), sz, v) || |old(km.free)| < 3
      ensures !ok ==> SameView(old(km.pt), old(pagetable.at), old(km.data), km.pt, pagetable.at, km.data)
    {
      hide Lookup; hide IsTree; hide Conserved; hide Confined; hide PteV; hide PtePage; hide PteU; hide PteW; hide UserSpace; hide Readable; hide PageView; hide SameView; hide Spliced; hide Keeps;
      ghost var pt, t, data := km.pt, pagetable.at, km.data;
      var pa := Reach(v);
      if pa == 0 {
        return false;
      }
      UserPageIsData(v);
      var pte := Entry(v);
      if !PteW(pte) {
        return false;
      }
      ghost var data1 := km.data;
      var f: Frame := Splice(km.data[pa], off, bytes);
      km.data := km.data[pa := f];
      Stored1(pt, t, data, km.pt, pagetable.at, data1, sz, v, off, bytes);
      ConservedData(km.frames, km.free, km.pt, data1, km.data);
      ok := true;
    }

    // The entry of a mapped page.
    method Entry(v: nat) returns (pte: nat)
      requires Valid() && v < PAGES && PteV(Lookup(km.pt, pagetable.at, v))
      modifies pagetable, km
      ensures pagetable.at == old(pagetable.at) && km.pt == old(km.pt) && km.free == old(km.free) && km.data == old(km.data)
      ensures pte == Lookup(km.pt, pagetable.at, v)
    {
      hide Lookup; hide IsTree; hide Conserved; hide Extended;
      pagetable.LeafEntry(v);
      var leaf := pagetable.Walk(v, false);
      pte := km.pt[leaf][v % 512];
    }

    /**
      copyout: copy src to the process at dst.  Exactly the first `done` bytes of the
      range change, all of them on success; a page is the reason for stopping early.
     */
    method Copyout(dst: nat, src: seq<Byte>) returns (r: int, ghost done: nat)
      requires Valid()
      modifies pagetable, km
      ensures Valid() && done <= |src| && (r == 0 <==> done == |src|) && (r == 0 || r == -1)
      ensures Confined(old(km.pt), old(pagetable.at), old(km.data), km.pt, pagetable.at, km.data)
      ensures Written(old(km.pt), old(pagetable.at), old(km.data), km.pt, pagetable.at, km.data, dst, src[..done])
      ensures Keeps(old(km.pt), old(pagetable.at), km.pt, pagetable.at)
      ensures done > 0 ==> dst + done <= LIMIT
      ensures done > 0 ==> forall v :: dst / PGSIZE <= v <= (dst + done - 1) / PGSIZE ==> Writable(old(km.pt), old(pagetable.at), sz, v)
      ensures r == -1 ==> var v := (dst + done) / PGSIZE;
        !Writable(old(km.pt), old(pagetable.at), sz, v) || |old(km.free)| < 3 * (v - dst / PGSIZE + 1)
    {
      hide Lookup; hide IsTree; hide Conserved; hide Confined; hide PteV; hide PtePage; hide PteU; hide PteW; hide UserSpace; hide Written; hide Readable; hide Writable; hide Spliced; hide SameView; hide Keeps;
      ghost var pt, t, data, free := km.pt, pagetable.at, km.data, km.free;
      ConfinedRefl(pt, t, data);
      KeepsRefl(pt, t);
      WrittenNone(pt, t, data, dst);
      assert src[..0] == [];
      var k := 0;
      while k < |src|
        invariant 0 <= k <= |src| && Valid() && (k > 0 ==> dst + k <= LIMIT)
        invariant Confined(pt, t, data, km.pt, pagetable.at, km.data)
        invariant Written(pt, t, data, km.pt, pagetable.at, km.data, dst, src[..k])
        invariant Keeps(pt, t, km.pt, pagetable.at)
        invariant 0 < k < |src| ==> (dst + k) % PGSIZE == 0
        invariant k < |src| ==> forall u :: (dst + k) / PGSIZE <= u < PAGES ==> Lookup(km.pt, pagetable.at, u) == Lookup(pt, t, u)
        invariant k < |src| ==> |km.free| + 3 * ((dst + k) / PGSIZE - dst / PGSIZE) >= |free|
        invariant k > 0 ==> forall v :: dst / PGSIZE <= v <= (dst + k - 1) / PGSIZE ==> Writable(pt, t, sz, v)
      {
        var v, off := (dst + k) / PGSIZE, (dst + k) % PGSIZE;
        var n := if PGSIZE - off > |src| - k then |src| - k else PGSIZE - off;
        ghost var pt1, t1, data1 := km.pt, pagetable.at, km.data;
        SameAccess(pt, t, pt1, t1, sz, v);
        var ok := StoreAt(v, off, src[k..k + n]);
        KeepsTrans(pt, t, pt1, t1, km.pt, pagetable.at);
        ConfinedTrans(pt, t, data, pt1, t1, data1, km.pt, pagetable.at, km.data);
        if !ok {
          WrittenSame(pt, t, data, pt1, t1, data1, km.pt, pagetable.at, km.data, dst, src[..k]);
          return -1, k;
        }
        WrittenMore(pt, t, data, pt1, t1, data1, km.pt, pagetable.at, km.data, dst, src, k, n);
        NextPage(dst, k, n, |src|);
        k := k + n;
      }
      assert src[..k] == src;
      return 0, k;
    }

    /** copyin: the bytes at src, as the process sees them, on success. */
    method Copyin(src: nat, len: nat) returns (r: int, dst: seq<Byte>)
      requires Valid()
      modifies pagetable, km
      ensures Valid() && (r == 0 || r == -1) && |dst| <= len && (r == 0 <==> |dst| == len)
      ensures Confined(old(km.pt), old(pagetable.at), old(km.data), km.pt, pagetable.at, km.data)
      ensures SameView(old(km.pt), old(pagetable.at), old(km.data), km.pt, pagetable.at, km.data)
      ensures dst != [] ==> src + |dst| <= LIMIT
      ensures Reads(old(km.pt), old(pagetable.at), old(km.data), src, dst)
      ensures dst != [] ==> forall v :: src / PGSIZE <= v <= (src + |dst| - 1) / PGSIZE ==> Readable(old(km.pt), old(pagetable.at), sz, v)
      ensures r == -1 ==> var v := (src + |dst|) / PGSIZE;
        !Readable(old(km.pt), old(pagetable.at), sz, v) || |old(km.free)| < 3 * (v - src / PGSIZE + 1)
    {
      hide Lookup; hide IsTree; hide Conserved; hide Confined; hide PteV; hide PtePage; hide PteU; hide PteW; hide UserSpace; hide Readable; hide Writable; hide SameView; hide PageView; hide ByteView; hide Reads;
      ghost var pt, t, data, free := km.pt, pagetable.at, km.data, km.free;
      ConfinedRefl(pt, t, data);
      SameViewRefl(pt, t, data);
      dst := [];
      assert Reads(pt, t, data, src, dst) by { ReadNone(pt, t, data, src); }
      while |dst| < len
        invariant |dst| <= len && Valid() && (dst != [] ==> src + |dst| <= LIMIT)
        invariant Confined(pt, t, data, km.pt, pagetable.at, km.data) && SameView(pt, t, data, km.pt, pagetable.at, km.data)
        invariant Reads(pt, t, data, src, dst)
        invariant 0 < |dst| < len ==> (src + |dst|) % PGSIZE == 0
        invariant |dst| < len ==> forall u :: (src + |dst|) / PGSIZE <= u < PAGES ==> Lookup(km.pt, pagetable.at, u) == Lookup(pt, t, u)
        invariant |dst| < len ==> |km.free| + 3 * ((src + |dst|) / PGSIZE - src / PGSIZE) >= |free|
        invariant |dst| > 0 ==> forall v :: src / PGSIZE <= v <= (src + |dst| - 1) / PGSIZE ==> Readable(pt, t, sz, v)
        decreases len - |dst|
      {
        var k := |dst|;
        var v, off := (src + k) / PGSIZE, (src + k) % PGSIZE;
        var n := if PGSIZE - off > len - k then len - k else PGSIZE - off;
        ghost var pt1, t1, data1 := km.pt, pagetable.at, km.data;
        SameAccess(pt, t, pt1, t1, sz, v);
        var pa := Reach(v);
        ConfinedTrans(pt, t, data, pt1, t1, data1, km.pt, pagetable.at, km.data);
        SameViewTrans(pt, t, data, pt1, t1, data1, km.pt, pagetable.at, km.data);
        if pa == 0 {
          return -1, dst;
        }
        UserPageIsData(v);
        ReadBytes(pt, t, data, km.pt, pagetable.at, km.data, src, dst, n);
        NextPage(src, k, n, len);
        dst := dst + km.data[pa][off..off + n];
      }
      r := 0;
    }

    /** growproc: grow or shrink by n bytes; below the new size the process sees what it saw before. */
    method Growproc(n: int) returns (r: int)
      requires Valid() && -0x8000_0000 <= n < 0x8000_0000
      modifies this, pagetable, km
      ensures Valid() && pagetable == old(pagetable) && (r == 0 || r == -1)
      ensures Confined(old(km.pt), old(pagetable.at), old(km.data), km.pt, pagetable.at, km.data)
      ensures r == 0 ==> sz == Resize(old(sz), n)
      ensures r == 0 ==> Resized(old(km.pt), old(pagetable.at), old(km.data), km.pt, pagetable.at, km.data, sz)
      ensures r == -1 ==>
        && sz == old(sz) && SameView(old(km.pt), old(pagetable.at), old(km.data), km.pt, pagetable.at, km.data)
        && n > 0 && (sz + n > LIMIT || |old(km.free)| < 3 * (Pages(sz + n) - Pages(sz)))
    {
      hide Lookup; hide IsTree; hide Conserved; hide TablesAround; hide DataAround; hide Filled; hide PteV; hide PtePage; hide PteU; hide Mine; hide SameView; hide PageView; hide Owned; hide Cut; hide TablesKept; hide Mapped;
      ghost var pt, t, data := km.pt, pagetable.at, km.data;
      AroundRefl(pt, t);
      ConfinedRefl(pt, t, data);
      SizePages(sz);
      NothingBeyond(pt, t, data, sz);
      if n > 0 {
        if sz + n > LIMIT {
          SameViewRefl(pt, t, data);
          return -1;
        }
        SizePages(sz + n);
        var newsz := pagetable.Uvmalloc(sz, sz + n, PTE_W);
        if newsz == 0 {
          SameMapUser(pt, t, km.pt, pagetable.at, data, sz);
          return -1;
        }
        PagesMonotone(sz, newsz);
        Enlarged(pt, t, data, km.pt, pagetable.at, km.data, sz, newsz, PTE_W);
        sz := newsz;
      } else if n < 0 {
        var newsz := pagetable.Uvmdealloc(sz, (sz + n) % UINT64);
        PagesMonotone(newsz, sz);
        Reduced(pt, t, data, km.pt, km.data, sz, newsz);
        sz := newsz;
      }
      r := 0;
    }

    /**
      sys_sbrk.  Whether the new memory is allocated now or on first use, the size and
      what the process sees are the same; only running out of memory tells them apart.
     */
    method Sbrk(n: int, eager: bool) returns (addr: int)
      requires Valid() && -0x8000_0000 <= n < 0x8000_0000
      modifies this, pagetable, km
      ensures Valid() && pagetable == old(pagetable) && (addr == old(sz) || addr == -1)
      ensures Confined(old(km.pt), old(pagetable.at), old(km.data), km.pt, pagetable.at, km.data)
      ensures addr == old(sz) ==> sz == Resize(old(sz), n)
      ensures addr == old(sz) ==> Resized(old(km.pt), old(pagetable.at), old(km.data), km.pt, pagetable.at, km.data, sz)
      ensures addr == -1 ==>
        && sz == old(sz) && SameView(old(km.pt), old(pagetable.at), old(km.data), km.pt, pagetable.at, km.data)
        && n > 0 && (sz + n > LIMIT || (eager && |old(km.free)| < 3 * (Pages(sz + n) - Pages(sz))))
    {
      hide Lookup; hide IsTree; hide Conserved; hide Confined; hide PteV; hide PtePage; hide PteU; hide Mine; hide SameView; hide PageView; hide Owned;
      ghost var pt, t, data := km.pt, pagetable.at, km.data;
      addr := sz;
      if eager || n < 0 {
        var r := Growproc(n);
        if r < 0 {
          return -1;
        }
      } else {
        ConfinedRefl(pt, t, data);
        SameViewRefl(pt, t, data);
        if (addr + n) % UINT64 < addr {
          return -1;
        }
        if addr + n > LIMIT {
          return -1;
        }
        NothingBeyond(pt, t, data, sz);
        PagesMonotone(sz, sz + n);
        sz := sz + n;
      }
    }

    lemma UserPageIsData(v: nat)
      requires Valid() && v < PAGES && PteV(Lookup(km.pt, pagetable.at, v)) && PteU(Lookup(km.pt, pagetable.at, v))
      ensures v < TRAPFRAME && PtePage(Lookup(km.pt, pagetable.at, v)) in km.data && PtePage(Lookup(km.pt, pagetable.at, v)) != 0
    {
      hide Lookup; hide IsTree;
    }
  }

  lemma PageStart(v: nat)
    ensures v * PGSIZE / PGSIZE == v
  {
  }

  lemma FaultFlags(pte: nat)
    requires PteFlags(pte) == PTE_R + PTE_W + PTE_U + 1
    ensures PteU(pte) && PteW(pte)
  {
    LowBits(pte, pte / 1024, 23);
  }

  lemma KeepsRefl(pt: Tables, at: Tree)
    ensures Keeps(pt, at, pt, at)
  {
  }

  lemma SameViewRefl(pt: Tables, at: Tree, data: Frames)
    ensures SameView(pt, at, data, pt, at, data)
  {
  }

  lemma BelowLimit(pt: Tables, at: Tree, data: Frames, sz: nat, va: nat)
    requires UserSpace(pt, at, data, sz) && va < sz
    ensures va / PGSIZE < TRAPFRAME && va / PGSIZE < Pages(sz)
  {
    assert LIMIT == TRAPFRAME * PGSIZE;
  }

  // What mapping the plan of vmfault does.
  lemma Faulted(pt: Tables, at: Tree, data: Frames, pt1: Tables, at1: Tree, data1: Frames, sz: nat, v: nat, done: bool)
    requires v < TRAPFRAME && v < Pages(sz) && UserSpace(pt, at, data, sz) && !PteV(Lookup(pt, at, v))
    requires var plan := map[v := Want(PTE_R + PTE_W + PTE_U, ZeroFrame)];
      Filled(pt, at, data, pt1, at1, data1, plan, v, if done then v + 1 else v)
    ensures UserSpace(pt1, at1, data1, sz) && SameView(pt, at, data, pt1, at1, data1)
    ensures DataAround(data, Mine(pt, at), data1, Mine(pt1, at1))
    ensures forall u :: 0 <= u < PAGES && (!done || u != v) ==> Lookup(pt1, at1, u) == Lookup(pt, at, u)
    ensures done ==> PteV(Lookup(pt1, at1, v)) && PteFlags(Lookup(pt1, at1, v)) == PTE_R + PTE_W + PTE_U + 1
  {
    hide Lookup; hide Mapped; hide PteV; hide PtePage; hide PteFlags; hide PteU; hide DataAround; hide Filled; hide Owned; hide PageView;
    var plan := map[v := Want(PTE_R + PTE_W + PTE_U, ZeroFrame)];
    var a := if done then v + 1 else v;
    FilledView(pt, at, data, pt1, at1, data1, plan, v, a);
    FilledAround(pt, at, data, pt1, at1, data1, plan, v, a);
    FilledOwnedAll(pt, at, data, pt1, at1, data1, plan, v, a, TRAPFRAME);
    FilledLookup(pt, at, data, pt1, at1, data1, plan, v, a);
    UnmappedView(pt, at, data, v);
  }

  lemma FilledLookup(pt: Tables, at: Tree, data: Frames, pt1: Tables, at1: Tree, data1: Frames, plan: Plan, lo: nat, a: nat)
    requires a <= PAGES && Filled(pt, at, data, pt1, at1, data1, plan, lo, a)
    ensures forall v :: 0 <= v < PAGES && !(v in plan && v < a) ==> Lookup(pt1, at1, v) == Lookup(pt, at, v)
    ensures forall v :: 0 <= v < PAGES && v in plan && v < a ==> NewEntry(Lookup(pt1, at1, v), data, data1, plan[v])
  {
  }

  lemma UnmappedView(pt: Tables, at: Tree, data: Frames, v: nat)
    requires v < PAGES && !PteV(Lookup(pt, at, v))
    ensures PageView(pt, at, data, v) == ZeroFrame
  {
  }

  // ---------------------------------------------------------------- bytes

  ghost predicate Spliced(pt: Tables, at: Tree, data: Frames, pt': Tables, at': Tree, data': Frames, v: nat, off: nat, bytes: seq<Byte>)
    requires v < PAGES && off + |bytes| <= PGSIZE
  {
    forall u :: 0 <= u < TRAPFRAME ==>
      PageView(pt', at', data', u) == if u == v then Splice(PageView(pt, at, data, u), off, bytes) else PageView(pt, at, data, u)
  }

  /** The process sees the bytes at dst, and everything else as before. */
  ghost predicate Written(pt: Tables, at: Tree, data: Frames, pt': Tables, at': Tree, data': Frames, dst: nat, bytes: seq<Byte>) {
    forall va :: 0 <= va < LIMIT ==>
      ByteView(pt', at', data', va) == if dst <= va < dst + |bytes| then bytes[va - dst] else ByteView(pt, at, data, va)
  }

  lemma Stored1(pt: Tables, at: Tree, data: Frames, pt1: Tables, at1: Tree, data1: Frames, sz: nat, v: nat, off: nat, bytes: seq<Byte>)
    requires v < TRAPFRAME && off + |bytes| <= PGSIZE && UserSpace(pt1, at1, data1, sz)
    requires PteV(Lookup(pt1, at1, v)) && PtePage(Lookup(pt1, at1, v)) in data1
    requires SameView(pt, at, data, pt1, at1, data1) && Confined(pt, at, data, pt1, at1, data1)
    ensures var pa := PtePage(Lookup(pt1, at1, v));
      var data2 := data1[pa := Splice(data1[pa], off, bytes)];
      && UserSpace(pt1, at1, data2, sz) && Confined(pt, at, data, pt1, at1, data2)
      && Spliced(pt, at, data, pt1, at1, data2, v, off, bytes)
  {
    hide Lookup; hide TablesAround; hide DataAround; hide PteV; hide PtePage; hide PteU; hide Owned; hide Splice; hide Mine;
    var pa := PtePage(Lookup(pt1, at1, v));
    var f := Splice(data1[pa], off, bytes);
    StoreView(pt1, at1, data1, v, f);
    assert PageView(pt1, at1, data1, v) == data1[pa];
    AroundRefl(pt1, at1);
    DataAroundTrans(data, Mine(pt, at), data1, Mine(pt1, at1), data1[pa := f], Mine(pt1, at1));
  }

  lemma ConservedData(frames: set<nat>, free: seq<nat>, pt: Tables, data: Frames, data': Frames)
    requires Conserved(frames, free, pt, data) && forall p :: p in data' <==> p in data
    ensures Conserved(frames, free, pt, data')
  {
  }

  lemma WrittenNone(pt: Tables, at: Tree, data: Frames, dst: nat)
    ensures Written(pt, at, data, pt, at, data, dst, [])
  {
  }

  lemma WrittenSame(pt: Tables, at: Tree, data: Frames, pt1: Tables, at1: Tree, data1: Frames, pt2: Tables, at2: Tree, data2: Frames,
                    dst: nat, bytes: seq<Byte>)
    requires Written(pt, at, data, pt1, at1, data1, dst, bytes) && SameView(pt1, at1, data1, pt2, at2, data2)
    ensures Written(pt, at, data, pt2, at2, data2, dst, bytes)
  {
    hide PageView;
    forall va | 0 <= va < LIMIT ensures ByteView(pt2, at2, data2, va) == ByteView(pt1, at1, data1, va) {
      assert va / PGSIZE < TRAPFRAME;
    }
  }

  lemma WrittenMore(pt: Tables, at: Tree, data: Frames, pt1: Tables, at1: Tree, data1: Frames, pt2: Tables, at2: Tree, data2: Frames,
                    dst: nat, src: seq<Byte>, k: nat, n: nat)
    requires k + n <= |src| && (dst + k) % PGSIZE + n <= PGSIZE && (dst + k) / PGSIZE < TRAPFRAME
    requires Written(pt, at, data, pt1, at1, data1, dst, src[..k])
    requires Spliced(pt1, at1, data1, pt2, at2, data2, (dst + k) / PGSIZE, (dst + k) % PGSIZE, src[k..k + n])
    ensures Written(pt, at, data, pt2, at2, data2, dst, src[..k + n])
  {
    hide PageView; hide ByteView; hide Spliced;
    forall va | 0 <= va < LIMIT
      ensures ByteView(pt2, at2, data2, va) == if dst <= va < dst + k + n then src[va - dst] else ByteView(pt, at, data, va)
    {
      SplicedByte(pt1, at1, data1, pt2, at2, data2, dst + k, src[k..k + n], va);
    }
  }

  lemma SplicedByte(pt: Tables, at: Tree, data: Frames, pt': Tables, at': Tree, data': Frames, dst: nat, bytes: seq<Byte>, va: nat)
    requires va < LIMIT && dst % PGSIZE + |bytes| <= PGSIZE && dst / PGSIZE < TRAPFRAME
    requires Spliced(pt, at, data, pt', at', data', dst / PGSIZE, dst % PGSIZE, bytes)
    ensures ByteView(pt', at', data', va) == if dst <= va < dst + |bytes| then bytes[va - dst] else ByteView(pt, at, data, va)
  {
    hide PageView;
    var u, i := va / PGSIZE, va % PGSIZE;
    var v, off := dst / PGSIZE, dst % PGSIZE;
    assert va == u * PGSIZE + i && dst == v * PGSIZE + off && u < TRAPFRAME;
    if u != v {
      assert !(dst <= va < dst + |bytes|);
    }
  }

  // The next turn starts at the beginning of the next page, unless everything is done.
  lemma NextPage(dst: nat, k: nat, n: nat, len: nat)
    requires k < len
    requires n == if PGSIZE - (dst + k) % PGSIZE > len - k then len - k else PGSIZE - (dst + k) % PGSIZE
    ensures n > 0 && k + n <= len && (dst + k + n - 1) / PGSIZE == (dst + k) / PGSIZE
    ensures k + n < len ==> (dst + k + n) % PGSIZE == 0 && (dst + k + n) / PGSIZE == (dst + k) / PGSIZE + 1
    ensures (dst + k) / PGSIZE < TRAPFRAME ==> dst + k + n <= LIMIT
    ensures 0 < k && (dst + k) % PGSIZE == 0 ==> (dst + k - 1) / PGSIZE == (dst + k) / PGSIZE - 1
  {
    var v, off := (dst + k) / PGSIZE, (dst + k) % PGSIZE;
    assert dst + k == v * PGSIZE + off;
  }

  lemma SameAccess(pt: Tables, at: Tree, pt1: Tables, at1: Tree, sz: nat, v: nat)
    requires v < PAGES ==> Lookup(pt1, at1, v) == Lookup(pt, at, v)
    ensures Readable(pt1, at1, sz, v) == Readable(pt, at, sz, v) && Writable(pt1, at1, sz, v) == Writable(pt, at, sz, v)
  {
  }

  lemma SameViewTrans(pt: Tables, at: Tree, data: Frames, pt1: Tables, at1: Tree, data1: Frames, pt2: Tables, at2: Tree, data2: Frames)
    requires SameView(pt, at, data, pt1, at1, data1) && SameView(pt1, at1, data1, pt2, at2, data2)
    ensures SameView(pt, at, data, pt2, at2, data2)
  {
    hide PageView;
  }

  lemma ReadNone(pt: Tables, at: Tree, data: Frames, src: nat)
    ensures Reads(pt, at, data, src, [])
  {
  }

  // Bytes read so far, and n more from the page they go on in.
  lemma ReadBytes(pt: Tables, at: Tree, data: Frames, pt1: Tables, at1: Tree, data1: Frames, src: nat, dst: seq<Byte>, n: nat)
    requires SameView(pt, at, data, pt1, at1, data1) && (src + |dst|) / PGSIZE < TRAPFRAME && (src + |dst|) % PGSIZE + n <= PGSIZE
    requires PteV(Lookup(pt1, at1, (src + |dst|) / PGSIZE)) && PtePage(Lookup(pt1, at1, (src + |dst|) / PGSIZE)) in data1
    requires Reads(pt, at, data, src, dst)
    ensures var v, off := (src + |dst|) / PGSIZE, (src + |dst|) % PGSIZE;
      Reads(pt, at, data, src, dst + data1[PtePage(Lookup(pt1, at1, v))][off..off + n])
  {
    hide Lookup; hide PteV; hide PtePage; hide PageView; hide ByteView;
    var a := src + |dst|;
    var v, off := a / PGSIZE, a % PGSIZE;
    var more := data1[PtePage(Lookup(pt1, at1, v))][off..off + n];
    if n > 0 {
      SamePage(a, n - 1);
    }
    forall va | src <= va < src + |dst + more|
      ensures ByteView(pt, at, data, va) == (dst + more)[va - src]
    {
      if va >= a {
        ReadByte(pt, at, data, pt1, at1, data1, a, va - a);
      }
    }
  }

  lemma ReadByte(pt: Tables, at: Tree, data: Frames, pt1: Tables, at1: Tree, data1: Frames, a: nat, j: nat)
    requires SameView(pt, at, data, pt1, at1, data1) && a / PGSIZE < TRAPFRAME && a % PGSIZE + j < PGSIZE
    requires var pte := Lookup(pt1, at1, a / PGSIZE); PteV(pte) && PtePage(pte) in data1
    ensures a + j < LIMIT && ByteView(pt, at, data, a + j) == data1[PtePage(Lookup(pt1, at1, a / PGSIZE))][a % PGSIZE + j]
  {
    hide Lookup; hide PteV; hide PtePage;
    SamePage(a, j);
    assert PageView(pt1, at1, data1, a / PGSIZE) == PageView(pt, at, data, a / PGSIZE);
  }

  lemma SamePage(a: nat, i: nat)
    requires a % PGSIZE + i < PGSIZE
    ensures (a + i) / PGSIZE == a / PGSIZE && (a + i) % PGSIZE == a % PGSIZE + i
    ensures a / PGSIZE < TRAPFRAME ==> a + i < LIMIT
  {
    assert a == a / PGSIZE * PGSIZE + a % PGSIZE;
  }

  /** The process sees the bytes dst at src. */
  ghost predicate Reads(pt: Tables, at: Tree, data: Frames, src: nat, dst: seq<Byte>) {
    && (dst == [] || src + |dst| <= LIMIT)
    && forall va :: src <= va < src + |dst| ==> ByteView(pt, at, data, va) == dst[va - src]
  }

  // ---------------------------------------------------------------- sizes

  const UINT64: nat := 0x1_0000_0000_0000_0000

  /** The size that sbrk sets: shrinking by more than there is wraps around, and changes nothing. */
  function Resize(sz: nat, n: int): nat { if sz + n < 0 then sz else sz + n }

  /** Below the new size everything is as it was; beyond it there is nothing. */
  ghost predicate Resized(pt: Tables, at: Tree, data: Frames, pt': Tables, at': Tree, data': Frames, sz': nat) {
    forall v :: 0 <= v < TRAPFRAME ==>
      PageView(pt', at', data', v) == if v < Pages(sz') then PageView(pt, at, data, v) else ZeroFrame
  }

  lemma NothingBeyond(pt: Tables, at: Tree, data: Frames, sz: nat)
    requires UserSpace(pt, at, data, sz)
    ensures forall v :: Pages(sz) <= v < TRAPFRAME ==> PageView(pt, at, data, v) == ZeroFrame
  {
    hide Lookup;
  }

  lemma SameMapUser(pt: Tables, at: Tree, pt1: Tables, at1: Tree, data: Frames, sz: nat)
    requires UserSpace(pt, at, data, sz) && SameMap(pt, at, pt1, at1)
    ensures UserSpace(pt1, at1, data, sz) && SameView(pt, at, data, pt1, at1, data)
    ensures DataAround(data, Mine(pt, at), data, Mine(pt1, at1))
  {
    hide Lookup; hide Mapped; hide PteV; hide PtePage; hide PteU;
    MappedSame(pt, at, pt1, at1, 0, TRAPFRAME);
  }

  lemma Enlarged(pt: Tables, at: Tree, data: Frames, pt1: Tables, at1: Tree, data1: Frames, sz: nat, newsz: nat, xperm: nat)
    requires UserSpace(pt, at, data, sz) && sz <= newsz <= LIMIT && Pages(sz) <= Pages(newsz) <= TRAPFRAME
    requires Filled(pt, at, data, pt1, at1, data1, ZeroPlan(Pages(sz), xperm), Pages(sz), Pages(newsz))
    ensures UserSpace(pt1, at1, data1, newsz) && Resized(pt, at, data, pt1, at1, data1, newsz)
    ensures DataAround(data, Mine(pt, at), data1, Mine(pt1, at1))
  {
    hide Lookup; hide PteV; hide PtePage; hide PteU; hide DataAround; hide Filled; hide Owned; hide PageView; hide Mine;
    var plan, lo, a := ZeroPlan(Pages(sz), xperm), Pages(sz), Pages(newsz);
    NothingBeyond(pt, at, data, sz);
    FilledView(pt, at, data, pt1, at1, data1, plan, lo, a);
    FilledAround(pt, at, data, pt1, at1, data1, plan, lo, a);
    FilledOwnedAll(pt, at, data, pt1, at1, data1, plan, lo, a, TRAPFRAME);
    FilledLookup(pt, at, data, pt1, at1, data1, plan, lo, a);
  }

  lemma Reduced(pt: Tables, at: Tree, data: Frames, pt1: Tables, data1: Frames, sz: nat, newsz: nat)
    requires UserSpace(pt, at, data, sz) && newsz <= sz && Pages(newsz) <= Pages(sz) <= TRAPFRAME
    requires Cut(pt, pt1, at, Pages(newsz), Pages(sz)) && data1 == data - Mapped(pt, at, Pages(newsz), Pages(sz))
    requires TablesKept(pt, at, pt1)
    ensures UserSpace(pt1, at, data1, newsz) && Resized(pt, at, data, pt1, at, data1, newsz)
    ensures Confined(pt, at, data, pt1, at, data1)
  {
    hide Lookup; hide PteV; hide PtePage; hide PteU; hide DataAround; hide Owned; hide PageView; hide Mine; hide Mapped; hide TablesKept; hide TablesAround;
    NothingBeyond(pt, at, data, sz);
    CutView(pt, at, data, pt1, data1, Pages(newsz), Pages(sz));
    CutAround(pt, at, data, pt1, data1, Pages(newsz), Pages(sz));
    ZeroIsInvalid();
    AroundRefl(pt, at);
    AroundKept(pt, at, pt, at, pt1);
  }
}
