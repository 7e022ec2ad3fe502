/**
  kalloc.c and vm.c: the page allocator, and address spaces built from its pages.

  Physical memory is typed: a page is free, a page table or a data page.  A page
  changes type only through kalloc and kfree.
 */
module VirtualMemory {
  import opened Blocks
  import opened Counting
  import opened PageTable

  const PGSIZE: nat := 4096

  type Frame = s: seq<Byte> | |s| == PGSIZE witness seq(PGSIZE, _ => 0)
  type Frames = map<nat, Frame>

  const ZeroFrame: Frame := EmptyFrame()

  function EmptyFrame(): (r: Frame)
    ensures forall i :: 0 <= i < PGSIZE ==> r[i] == 0
  {
    seq(PGSIZE, _ => 0)
  }

  /** Every page is free, a table or data: exactly one of the three, and free once. */
  ghost predicate Conserved(frames: set<nat>, free: seq<nat>, pt: Tables, data: Frames) {
    && 0 !in frames
    && (forall i, j :: 0 <= i < j < |free| ==> free[i] != free[j])
    && (forall p :: p in frames <==> p in free || p in pt || p in data)
    && (forall p :: p in free ==> p !in pt && p !in data)
    && (forall p :: p in pt ==> p !in data)
  }

  class Kmem {
    var free: seq<nat>   // kmem.freelist, first page first
    var pt: Tables
    var data: Frames
    ghost const frames: set<nat>

    ghost predicate Valid()
      reads this
    {
      Conserved(frames, free, pt, data)
    }

    constructor (pages: seq<nat>)
      requires forall i, j :: 0 <= i < j < |pages| ==> pages[i] != pages[j]
      requires 0 !in pages
      ensures Valid() && pt == map[] && data == map[] && free == pages && frames == set p | p in pages
    {
      free, pt, data := pages, map[], map[];
      frames := set p | p in pages;
    }

    /** kalloc, then memset to zero, for a page-table page; 0 if there is no page. */
    method KallocTable() returns (p: nat)
      requires Valid()
      modifies this`free, this`pt
      ensures Valid() && (p == 0 <==> old(free) == [])
      ensures p == 0 ==> free == old(free) && pt == old(pt)
      ensures p != 0 ==> p == old(free)[0] && free == old(free)[1..] && p !in old(pt) && p !in data && pt == old(pt)[p := ZeroTable]
    {
      if free == [] {
        return 0;
      }
      p := free[0];
      assert free == [p] + free[1..];
      free := free[1..];
      pt := pt[p := ZeroTable];
    }

    /** kalloc, then the contents, for a data page; 0 if there is no page. */
    method KallocData(contents: Frame) returns (p: nat)
      requires Valid()
      modifies this`free, this`data
      ensures Valid() && (p == 0 <==> old(free) == [])
      ensures p == 0 ==> free == old(free) && data == old(data)
      ensures p != 0 ==> p == old(free)[0] && free == old(free)[1..] && p !in pt && p !in old(data) && data == old(data)[p := contents]
    {
      if free == [] {
        return 0;
      }
      p := free[0];
      assert free == [p] + free[1..];
      free := free[1..];
      data := data[p := contents];
    }

    /** kfree of a page in use. */
    method Kfree(p: nat)
      requires Valid() && (p in pt || p in data)
      modifies this`free, this`pt, this`data
      ensures Valid() && free == [p] + old(free) && pt == old(pt) - {p} && data == old(data) - {p}
    {
      free := [p] + free;
      pt := pt - {p};
      data := data - {p};
    }
  }

  // 1 if the table that the walk for vpn visits at a level is not there.
  function Gap(at: Tree, level: nat, vpn: nat): nat
    requires level <= 2 && vpn < PAGES
  {
    if NodeFor(level, vpn) in at then 0 else 1
  }

  /** How many tables have to be added for vpn. */
  function Missing(at: Tree, vpn: nat): nat
    requires vpn < PAGES
  {
    Gap(at, 1, vpn) + Gap(at, 0, vpn)
  }

  lemma AtMostTwo(at: Tree, vpn: nat)
    requires vpn < PAGES
    ensures Missing(at, vpn) <= 2
  {
  }

  // The first `done` pages from vpn on are mapped to those from `page` on, and nothing else has changed.
  ghost predicate MappedTo(pt: Tables, at: Tree, pt': Tables, at': Tree, vpn: nat, page: nat, perm: nat, done: nat)
    requires perm < 1024
  {
    forall v :: 0 <= v < PAGES ==> Lookup(pt', at', v) == if vpn <= v < vpn + done then MakePte(page + v - vpn, perm) else Lookup(pt, at, v)
  }

  lemma MappedToMore(pt: Tables, at: Tree, pt1: Tables, at1: Tree, pt2: Tables, at2: Tree, vpn: nat, page: nat, perm: nat, done: nat)
    requires perm < 1024 && vpn + done < PAGES && MappedTo(pt, at, pt1, at1, vpn, page, perm, done)
    requires forall u :: 0 <= u < PAGES ==> Lookup(pt2, at2, u) == if u == vpn + done then MakePte(page + done, perm) else Lookup(pt1, at1, u)
    ensures MappedTo(pt, at, pt2, at2, vpn, page, perm, done + 1)
  {
    hide Lookup; hide MakePte;
  }

  class AddrSpace {
    const km: Kmem
    const root: nat
    ghost var at: Tree

    constructor (km: Kmem, root: nat)
      requires km.Valid() && root in km.pt && km.pt[root] == ZeroTable
      ensures this.km == km && this.root == root && at == map[Root := root] && Valid()
      ensures forall v :: 0 <= v < PAGES ==> Lookup(km.pt, at, v) == 0
    {
      this.km, this.root := km, root;
      at := map[Root := root];
    }

    ghost predicate Valid()
      reads this, km
    {
      km.Valid() && IsTree(km.pt, root, at)
    }

    // One level of walk: the table below the one for vpn at `level`, made if it is missing and alloc is set.
    method Descend(level: nat, vpn: nat, page: nat, alloc: bool) returns (child: nat)
      requires Valid() && vpn < PAGES && 0 < level <= 2 && NodeFor(level, vpn) in at && page == at[NodeFor(level, vpn)]
      modifies this`at, km`free, km`pt
      ensures Valid() && Extended(old(km.pt), old(at), old(km.free), km.pt, at, km.free)
      ensures child != 0 ==> NodeFor(level - 1, vpn) in at && child == at[NodeFor(level - 1, vpn)]
      ensures child == 0 ==> NodeFor(level - 1, vpn) !in at && (alloc ==> km.free == [])
      ensures !alloc || child == 0 ==> at == old(at) && km.pt == old(km.pt) && km.free == old(km.free)
      ensures child != 0 ==> at.Keys == old(at).Keys + {NodeFor(level - 1, vpn)}
      ensures |km.free| == |old(km.free)| - (if child == 0 then 0 else Gap(old(at), level - 1, vpn))
    {
      hide Extended; hide Lookup; hide IsTree; hide Conserved;
      NodeForSteps(vpn);
      ReadEntry(level, vpn);
      var i := Index(level, vpn);
      var pte := km.pt[page][i];
      ExtendedRefl(km.pt, at, km.free);
      if PteV(pte) {
        child := PtePage(pte);
      } else if !alloc {
        child := 0;
      } else {
        ghost var pt, n, free := km.pt, NodeFor(level, vpn), km.free;
        child := km.KallocTable();
        if child != 0 {
          HangTable(pt, root, at, n, i, child);
          HangExtends(pt, root, at, free, n, i, child);
          ghost var pt1 := km.pt;
          km.pt := km.pt[page := km.pt[page][i := MakePte(child, 0)]];
          ConservedKeys(km.frames, km.free, pt1, km.pt, km.data);
          at := at[Child(n, i) := child];
        }
      }
    }

    // What the entry for vpn in the table at `level` says.
    lemma ReadEntry(level: nat, vpn: nat)
      requires Valid() && vpn < PAGES && 0 < level <= 2 && NodeFor(level, vpn) in at
      ensures var page := at[NodeFor(level, vpn)];
        && page in km.pt && Index(level, vpn) < ENTRIES
        && var pte := km.pt[page][Index(level, vpn)];
          && (PteV(pte) <==> NodeFor(level - 1, vpn) in at)
          && (PteV(pte) ==> PtePage(pte) == at[NodeFor(level - 1, vpn)] != 0)
    {
      NodeForSteps(vpn);
      var n, i := NodeFor(level, vpn), Index(level, vpn);
      assert Child(n, i) == NodeFor(level - 1, vpn);
    }

    /** walk: the page of the leaf table for vpn, or 0; with alloc, missing tables are made. */
    method Walk(vpn: nat, alloc: bool) returns (page: nat)
      requires Valid() && vpn < PAGES
      modifies this`at, km`free, km`pt
      ensures Valid() && Extended(old(km.pt), old(at), old(km.free), km.pt, at, km.free)
      ensures page != 0 ==> NodeFor(0, vpn) in at && page == at[NodeFor(0, vpn)]
      ensures page == 0 ==> NodeFor(0, vpn) !in at
      ensures alloc ==> (page == 0 <==> |old(km.free)| < Missing(old(at), vpn))
      ensures !alloc ==> at == old(at) && km.pt == old(km.pt) && km.free == old(km.free)
      ensures |km.free| + Missing(old(at), vpn) >= |old(km.free)|
    {
      hide Extended; hide Lookup; hide IsTree; hide Conserved;
      NodeForSteps(vpn);
      RootIsThere();
      page := root;
      ghost var pt, t, free := km.pt, at, km.free;
      ExtendedRefl(pt, t, free);
      FreeIsDisjoint();
      var level := 2;
      while level > 0
        invariant 0 <= level <= 2 && Valid() && Extended(pt, t, free, km.pt, at, km.free)
        invariant NodeFor(level, vpn) in at && page == at[NodeFor(level, vpn)] && page != 0
        invariant !alloc ==> at == t && km.pt == pt && km.free == free
        invariant level > 0 ==> at.Keys - {NodeFor(1, vpn)} == t.Keys - {NodeFor(1, vpn)}
        invariant |km.free| == |free| - (if level == 2 then 0 else if level == 1 then Gap(t, 1, vpn) else Missing(t, vpn))
        invariant level == 2 ==> at == t
        decreases level
      {
        ghost var pt1, t1, free1 := km.pt, at, km.free;
        assert level == 1 ==> (NodeFor(0, vpn) in at.Keys - {NodeFor(1, vpn)} <==> NodeFor(0, vpn) in t.Keys - {NodeFor(1, vpn)});
        page := Descend(level, vpn, page, alloc);
        ExtendedTrans(pt, t, free, pt1, t1, free1, km.pt, at, km.free);
        level := level - 1;
        if page == 0 {
          if level == 1 { NodeZeroNeedsOne(vpn); }
          return;
        }
      }
    }

    // Store an entry into `page`, the leaf table of vpn.
    method SetEntry(vpn: nat, page: nat, pte: nat)
      requires Valid() && vpn < PAGES && NodeFor(0, vpn) in at && page == at[NodeFor(0, vpn)] && (PteV(pte) || pte == 0)
      modifies km`pt
      ensures Valid() && Grown(old(km.pt), at, km.free, km.pt, at, km.free) && km.pt.Keys == old(km.pt).Keys
      ensures forall v :: 0 <= v < PAGES ==> Lookup(km.pt, at, v) == if v == vpn then pte else Lookup(old(km.pt), at, v)
    {
      hide Lookup; hide Conserved;
      StoreEntry(km.pt, root, at, vpn, pte);
      StoreGrows(km.pt, root, at, km.free, vpn, pte);
      ConservedKeys(km.frames, km.free, km.pt, Stored(km.pt, at, vpn, pte), km.data);
      km.pt := km.pt[page := km.pt[page][vpn % 512 := pte]];
    }

    lemma LeafEntry(vpn: nat)
      requires Valid() && vpn < PAGES
      ensures NodeFor(0, vpn) in at ==> at[NodeFor(0, vpn)] in km.pt && km.pt[at[NodeFor(0, vpn)]][vpn % 512] == Lookup(km.pt, at, vpn)
      ensures NodeFor(0, vpn) !in at ==> Lookup(km.pt, at, vpn) == 0
    {
    }

    // One turn of the loop of mappages.
    method MapOne(v: nat, pte: nat) returns (ok: bool)
      requires Valid() && v < PAGES && PteV(pte) && !PteV(Lookup(km.pt, at, v))
      modifies this`at, km`free, km`pt
      ensures Valid() && Grown(old(km.pt), old(at), old(km.free), km.pt, at, km.free)
      ensures ok <==> |old(km.free)| >= Missing(old(at), v)
      ensures |km.free| + Missing(old(at), v) >= |old(km.free)|
      ensures forall u :: 0 <= u < PAGES ==> Lookup(km.pt, at, u) == if ok && u == v then pte else Lookup(old(km.pt), old(at), u)
    {
      hide Grown; hide Lookup; hide IsTree; hide Conserved; hide Missing; hide PteV;
      ghost var pt, t, free := km.pt, at, km.free;
      FreeIsDisjoint();
      var leaf := Walk(v, true);
      ok := leaf != 0;
      if ok {
        LeafEntry(v);
        assert !PteV(km.pt[leaf][v % 512]);
        ghost var pt1, t1, free1 := km.pt, at, km.free;
        SetEntry(v, leaf, pte);
        GrownTrans(pt, t, free, pt1, t1, free1, km.pt, at, km.free);
      }
    }

    /**
      mappages: map n pages from vpn on to consecutive pages from `page` on.  0 on
      success; -1 if a table could not be allocated, and then the pages before that
      one are mapped.  No other translation changes.
     */
    method MapPages(vpn: nat, n: nat, page: nat, perm: nat) returns (r: int, ghost done: nat)
      requires Valid() && 0 < n && vpn + n <= PAGES && perm < 1024
      requires forall v :: vpn <= v < vpn + n ==> !PteV(Lookup(km.pt, at, v))  // else "mappages: remap"
      modifies this`at, km`free, km`pt
      ensures Valid() && Grown(old(km.pt), old(at), old(km.free), km.pt, at, km.free)
      ensures r == 0 || r == -1
      ensures done <= n && (r == 0 <==> done == n) && (r == -1 ==> |old(km.free)| < 2 * n)
      ensures n == 1 ==> (r == -1 <==> |old(km.free)| < Missing(old(at), vpn))
      ensures |km.free| + 2 * n >= |old(km.free)|
      ensures MappedTo(old(km.pt), old(at), km.pt, at, vpn, page, perm, done)
    {
      hide Grown; hide Lookup; hide IsTree; hide Conserved; hide PteV; hide Missing; hide MakePte;
      ghost var pt, t, free := km.pt, at, km.free;
      FreeIsDisjoint();
      ExtendedRefl(pt, t, free);
      done := 0;
      var a, pa, last := vpn, page, vpn + n - 1;
      while true
        invariant done < n && a == vpn + done && pa == page + done && last == vpn + n - 1
        invariant Valid() && Grown(pt, t, free, km.pt, at, km.free) && |km.free| + 2 * done >= |free|
        invariant done == 0 ==> at == t && km.free == free
        invariant MappedTo(pt, t, km.pt, at, vpn, page, perm, done)
        decreases n - done
      {
        ghost var pt1, t1, free1 := km.pt, at, km.free;
        AtMostTwo(t1, a);
        assert Lookup(km.pt, at, a) == Lookup(pt, t, a);
        var ok := MapOne(a, MakePte(pa, perm));
        GrownTrans(pt, t, free, pt1, t1, free1, km.pt, at, km.free);
        if !ok {
          return -1, done;
        }
        MappedToMore(pt, t, pt1, t1, km.pt, at, vpn, page, perm, done);
        done := done + 1;
        if a == last {
          break;
        }
        a, pa := a + 1, pa + 1;
      }
      r := 0;
    }

    /** walkaddr: the page that user code sees at v, or 0. */
    method WalkAddr(v: nat) returns (page: nat)
      requires Valid()
      modifies this`at, km`free, km`pt
      ensures Valid() && at == old(at) && km.pt == old(km.pt) && km.free == old(km.free)
      ensures page == if v < PAGES && PteV(Lookup(km.pt, at, v)) && PteU(Lookup(km.pt, at, v)) then PtePage(Lookup(km.pt, at, v)) else 0
    {
      hide Lookup; hide IsTree; hide Conserved; hide Extended;
      if v >= PAGES {
        return 0;
      }
      LeafEntry(v);
      var leaf := Walk(v, false);
      if leaf == 0 {
        return 0;
      }
      var pte := km.pt[leaf][v % 512];
      if !PteV(pte) || !PteU(pte) {
        return 0;
      }
      page := PtePage(pte);
    }

    /** uvmclear: take user access to page v away. */
    method Uvmclear(v: nat)
      requires Valid() && v < PAGES && PteV(Lookup(km.pt, at, v))
      modifies this`at, km`free, km`pt
      ensures Valid() && at == old(at) && km.free == old(km.free) && TablesKept(old(km.pt), at, km.pt)
      ensures forall u :: 0 <= u < PAGES && u != v ==> Lookup(km.pt, at, u) == Lookup(old(km.pt), at, u)
      ensures var pte, was := Lookup(km.pt, at, v), Lookup(old(km.pt), at, v);
        && pte == (if PteU(was) then was - PTE_U else was)
        && PteV(pte) && !PteU(pte) && PtePage(pte) == PtePage(was)
    {
      hide Lookup; hide IsTree; hide Conserved; hide Extended; hide Grown; hide PteV; hide PteU; hide PtePage;
      LeafEntry(v);
      ZeroIsInvalid();
      var leaf := Walk(v, false);
      var pte := km.pt[leaf][v % 512];
      if PteU(pte) { WithoutU(pte); }
      ghost var pt := km.pt;
      SetEntry(v, leaf, if PteU(pte) then pte - PTE_U else pte);
      GrownKeeps(pt, at, km.free, km.pt, km.free);
    }

    // One turn of the loop of uvmunmap.
    method UnmapOne(a: nat, doFree: bool)
      requires Valid() && a < PAGES
      requires doFree && PteV(Lookup(km.pt, at, a)) ==> PtePage(Lookup(km.pt, at, a)) in km.data
      modifies this`at, km`free, km`pt, km`data
      ensures Valid() && at == old(at) && TablesKept(old(km.pt), at, km.pt)
      ensures Cut(old(km.pt), km.pt, at, a, a + 1)
      ensures km.data == old(km.data) - (if doFree then Mapped(old(km.pt), at, a, a + 1) else {})
      ensures !doFree ==> km.free == old(km.free)
    {
      hide Lookup; hide IsTree; hide Conserved; hide Grown;
      LeafEntry(a);
      ValidOrZero(a);
      MappedOne(km.pt, at, a);
      var leaf := Walk(a, false);
      if leaf == 0 {
        return;
      }
      var pte := km.pt[leaf][a % 512];
      if !PteV(pte) {
        return;
      }
      ghost var pt := km.pt;
      if doFree {
        DataIsNotTable(PtePage(pte));
        km.Kfree(PtePage(pte));
        assert km.pt == pt;
      }
      SetEntry(a, leaf, 0);
      GrownKeeps(pt, at, km.free, km.pt, km.free);
    }

    lemma ValidOrZero(vpn: nat)
      requires Valid() && vpn < PAGES
      ensures PteV(Lookup(km.pt, at, vpn)) || Lookup(km.pt, at, vpn) == 0
    {
    }

    lemma ZeroAbove(lo: nat)
      requires Valid() && forall v :: lo <= v < TRAPFRAME ==> !PteV(Lookup(km.pt, at, v))
      ensures forall v :: lo <= v < TRAPFRAME ==> Lookup(km.pt, at, v) == 0
    {
      hide Lookup;
      forall v | lo <= v < TRAPFRAME ensures Lookup(km.pt, at, v) == 0 {
        ValidOrZero(v);
      }
    }

    lemma DataIsNotTable(p: nat)
      requires Valid() && p in km.data
      ensures p !in km.pt && p != 0
    {
    }

    /**
      uvmunmap: remove n mappings from vpn on; holes are fine.  With doFree exactly the
      pages that were mapped there are freed, each once.
     */
    method Unmap(vpn: nat, n: nat, doFree: bool)
      requires Valid() && vpn + n <= PAGES
      requires doFree ==> Owned(km.pt, at, km.data, vpn, vpn + n)
      modifies this`at, km`free, km`pt, km`data
      ensures Valid() && at == old(at) && TablesKept(old(km.pt), at, km.pt)
      ensures Cut(old(km.pt), km.pt, at, vpn, vpn + n)
      ensures km.data == old(km.data) - (if doFree then Mapped(old(km.pt), at, vpn, vpn + n) else {})
      ensures !doFree ==> km.free == old(km.free)
    {
      hide Lookup; hide IsTree; hide Conserved; hide Mapped; hide Owned;
      ghost var pt, data := km.pt, km.data;
      MappedNone(pt, at, vpn);
      var a := vpn;
      while a < vpn + n
        invariant vpn <= a <= vpn + n && Valid() && at == old(at) && TablesKept(pt, at, km.pt) && Cut(pt, km.pt, at, vpn, a)
        invariant km.data == data - (if doFree then Mapped(pt, at, vpn, a) else {})
        invariant !doFree ==> km.free == old(km.free)
      {
        MappedMore(pt, km.pt, at, data, vpn, a, vpn + n, doFree);
        UnmapOne(a, doFree);
        a := a + 1;
      }
    }

    /** freewalk: frees exactly the tables of a subtree without leaf mappings, and meets no leaf. */
    method FreeWalk(page: nat, ghost n: Node)
      requires km.Valid() && Emptied(km.pt, at, n) && page == at[n]
      modifies km`free, km`pt, km`data
      ensures km.Valid() && km.pt == old(km.pt) - PagesUnder(at, n) && km.data == old(km.data)
      decreases n.level
    {
      hide Emptied; hide Conserved; hide PagesUnder; hide PagesBelow; hide Wiped;
      ghost var pt := km.pt;
      EmptiedTables(pt, at, n);
      PagesAll(at, n);
      WipedNone(pt, page);
      var i := 0;
      while i < 512
        invariant 0 <= i <= 512 && km.Valid() && km.data == old(km.data)
        invariant Wiped(pt, km.pt, PagesBelow(at, n, i), page, i)
      {
        ghost var pt1 := km.pt;
        WipedEntry(pt, pt1, at, n, i);
        var pte := km.pt[page][i];
        if PteV(pte) && IsBranch(pte) {
          WipedChild(pt, pt1, at, n, i);
          FreeWalk(PtePage(pte), Child(n, i));
          WipedMore(pt, pt1, at, n, i, true);
          ghost var pt2 := km.pt;
          km.pt := km.pt[page := km.pt[page][i := 0]];
          ConservedKeys(km.frames, km.free, pt2, km.pt, km.data);
        } else {
          assert !PteV(pte);  // else "freewalk: leaf"
          WipedMore(pt, pt1, at, n, i, false);
        }
        i := i + 1;
      }
      WipedDone(pt, km.pt, at, n);
      DataIsNotTableOf(page);
      km.Kfree(page);
    }

    lemma DataIsNotTableOf(p: nat)
      requires km.Valid() && p in km.pt
      ensures p !in km.data
    {
    }

    /** uvmfree: all user memory, then all tables. */
    method Uvmfree(sz: nat)
      requires Valid() && Pages(sz) <= TRAPFRAME && Owned(km.pt, at, km.data, 0, TRAPFRAME)
      requires forall v :: Pages(sz) <= v < PAGES ==> !PteV(Lookup(km.pt, at, v))
      modifies this`at, km`free, km`pt, km`data
      ensures km.Valid() && km.pt == old(km.pt) - PagesOf(old(at)) && km.data == old(km.data) - Mapped(old(km.pt), old(at), 0, TRAPFRAME)
    {
      hide Lookup; hide IsTree; hide Conserved; hide Mapped; hide TablesKept; hide PagesOf; hide Emptied;
      ghost var pt, data, t := km.pt, km.data, at;
      MappedRest(pt, t, Pages(sz));
      TablesKeptRefl(pt, t);
      if sz > 0 {
        Unmap(0, Pages(sz), true);
      } else {
        MappedNone(pt, at, 0);
      }
      RootIsThere();
      EmptiedRoot(km.pt, root, at);
      KeptMinus(pt, at, km.pt);
      FreeWalk(root, Root);
    }

    /** uvmdealloc: free the pages that are in oldsz and not in newsz. */
    method Uvmdealloc(oldsz: nat, newsz: nat) returns (r: nat)
      requires Valid() && Pages(oldsz) <= TRAPFRAME && Owned(km.pt, at, km.data, 0, TRAPFRAME)
      modifies this`at, km`free, km`pt, km`data
      ensures Valid() && at == old(at) && TablesKept(old(km.pt), at, km.pt) && r == if newsz < oldsz then newsz else oldsz
      ensures Pages(r) <= TRAPFRAME && Cut(old(km.pt), km.pt, at, Pages(r), Pages(oldsz))
      ensures km.data == old(km.data) - Mapped(old(km.pt), at, Pages(r), Pages(oldsz))
    {
      hide Lookup; hide IsTree; hide Conserved; hide Mapped; hide TablesKept;
      TablesKeptRefl(km.pt, at);
      MappedNone(km.pt, at, Pages(oldsz));
      if newsz >= oldsz {
        return oldsz;
      }
      PagesMonotone(newsz, oldsz);
      if Pages(newsz) < Pages(oldsz) {
        var npages := Pages(oldsz) - Pages(newsz);
        Unmap(Pages(newsz), npages, true);
      }
      r := newsz;
    }

    /**
      uvmalloc: grow from oldsz to newsz with zeroed pages.  On failure every data page
      it took is free again and no translation has changed.
     */
    method Uvmalloc(oldsz: nat, newsz: nat, xperm: nat) returns (r: nat)
      requires Valid() && Pages(oldsz) <= TRAPFRAME && xperm in {0, PTE_W, PTE_X, PTE_W + PTE_X}
      requires forall v :: Pages(oldsz) <= v < TRAPFRAME ==> !PteV(Lookup(km.pt, at, v))
      requires Pages(newsz) <= TRAPFRAME || (Backed(km.pt, at, km.data, Pages(oldsz)) && |km.frames| < TRAPFRAME)
      modifies this`at, km`free, km`pt, km`data
      ensures Valid() && TablesAround(old(km.pt), old(at), km.pt, at)
      ensures r == if newsz < oldsz then oldsz else if r == newsz then newsz else 0
      ensures newsz < oldsz ==> at == old(at) && km.pt == old(km.pt) && km.data == old(km.data) && km.free == old(km.free)
      ensures newsz >= oldsz && r == newsz ==>
        && Pages(newsz) <= TRAPFRAME
        && Filled(old(km.pt), old(at), old(km.data), km.pt, at, km.data, ZeroPlan(Pages(oldsz), xperm), Pages(oldsz), Pages(newsz))
      ensures newsz >= oldsz && r != newsz ==>
        && km.data == old(km.data) && SameMap(old(km.pt), old(at), km.pt, at)
        && |old(km.free)| < 3 * (Pages(newsz) - Pages(oldsz))
    {
      hide Lookup; hide IsTree; hide Conserved; hide Filled; hide TablesAround; hide MakePte; hide Backed; hide SameMap; hide Cut; hide Owned; hide TablesKept; hide Grown;
      ghost var pt, t, data, free := km.pt, at, km.data, km.free;
      AroundRefl(pt, t);
      if newsz < oldsz {
        return oldsz;
      }
      PagesMonotone(oldsz, newsz);
      ZeroAbove(Pages(oldsz));
      var lo := Pages(oldsz);
      ghost var plan := ZeroPlan(lo, xperm);
      FilledNone(pt, t, data, plan, lo);
      var a := lo;
      while a * PGSIZE < newsz
        invariant lo <= a <= Pages(newsz) && a <= TRAPFRAME && Valid()
        invariant Filled(pt, t, data, km.pt, at, km.data, plan, lo, a) && TablesAround(pt, t, km.pt, at)
        invariant |km.free| + 3 * (a - lo) >= |free|
        decreases Pages(newsz) - a
      {
        if a == TRAPFRAME {
          FilledBacked(pt, t, data, km.pt, at, km.data, plan, lo, a);
          BackedFits(a);
        }
        var mem := NewPage(a, ZeroFrame, PTE_R + PTE_U + xperm, pt, t, data, plan, lo);
        if mem == 0 {
          Retreat(pt, t, data, plan, lo, a);
          return 0;
        }
        a := a + 1;
      }
      r := newsz;
    }

    // A new data page, mapped at a, as in one turn of uvmalloc or uvmcopy; 0 if there is no memory.
    method NewPage(a: nat, contents: Frame, perm: nat, ghost pt: Tables, ghost t: Tree, ghost data: Frames, ghost plan: Plan, ghost lo: nat)
      returns (mem: nat)
      requires Valid() && lo <= a < TRAPFRAME && perm < 1024 && a in plan && plan[a] == Want(perm, contents) && !PteV(Lookup(pt, t, a))
      requires Filled(pt, t, data, km.pt, at, km.data, plan, lo, a) && TablesAround(pt, t, km.pt, at)
      modifies this`at, km`free, km`pt, km`data
      ensures Valid() && TablesAround(pt, t, km.pt, at) && TablesAround(old(km.pt), old(at), km.pt, at)
      ensures Filled(pt, t, data, km.pt, at, km.data, plan, lo, if mem == 0 then a else a + 1)
      ensures mem != 0 ==> PtePage(Lookup(km.pt, at, a)) == mem
      ensures mem == 0 <==> |old(km.free)| < 1 + Missing(old(at), a)
      ensures |km.free| + 3 >= |old(km.free)|
    {
      hide Lookup; hide IsTree; hide Conserved; hide Filled; hide TablesAround; hide MakePte; hide Grown;
      ghost var pt1, t1, data1 := km.pt, at, km.data;
      AroundRefl(pt1, t1);
      mem := km.KallocData(contents);
      if mem == 0 {
        return;
      }
      FreeIsDisjoint();
      FilledEntry(pt, t, data, pt1, t1, data1, plan, lo, a);
      ghost var free2, data2 := km.free, km.data;
      var r, done := MapPages(a, 1, mem, perm);
      AroundGrown(pt, t, pt1, t1, free2, km.pt, at, km.free);
      AroundGrown(pt1, t1, pt1, t1, free2, km.pt, at, km.free);
      if r != 0 {
        assert SameMap(pt1, t1, km.pt, at);
        DataIsNotTable(mem);
        ghost var pt3 := km.pt;
        km.Kfree(mem);
        assert km.pt == pt3 && km.data == data1;
        FilledSame(pt, t, data, pt1, t1, km.pt, at, data1, plan, lo, a);
        mem := 0;
        return;
      }
      FilledMore(pt, t, data, pt1, t1, data1, km.pt, at, data2, plan, lo, a, mem);
    }

    // Unmapping and freeing what was filled so far, on the failure paths of uvmalloc and uvmcopy.
    method Retreat(ghost pt: Tables, ghost t: Tree, ghost data: Frames, ghost plan: Plan, lo: nat, a: nat)
      requires Valid() && lo <= a <= TRAPFRAME && forall v :: v in plan ==> lo <= v
      requires Filled(pt, t, data, km.pt, at, km.data, plan, lo, a) && TablesAround(pt, t, km.pt, at)
      requires forall v :: lo <= v < a ==> Lookup(pt, t, v) == 0
      modifies this`at, km`free, km`pt, km`data
      ensures Valid() && at == old(at) && TablesAround(pt, t, km.pt, at) && TablesKept(old(km.pt), at, km.pt)
      ensures km.data == data && SameMap(pt, t, km.pt, at)
    {
      hide Lookup; hide IsTree; hide Conserved; hide Filled; hide TablesAround; hide Cut; hide Owned; hide TablesKept; hide Mapped; hide SameMap;
      ghost var pt1, data1 := km.pt, km.data;
      FilledOwned(pt, t, data, pt1, at, data1, plan, lo, a);
      if lo < a {
        Unmap(lo, a - lo, true);
      } else {
        MappedNone(pt1, at, lo);
        TablesKeptRefl(pt1, at);
        CutNone(pt1, at, lo);
      }
      AroundKept(pt, t, pt1, at, km.pt);
      FilledUndone(pt, t, data, pt1, km.pt, at, data1, plan, lo, a);
    }

    // Backed pages are distinct pages of memory.
    lemma BackedFits(hi: nat)
      requires Valid() && hi <= PAGES && Backed(km.pt, at, km.data, hi)
      ensures hi <= |km.frames|
    {
      hide Lookup; hide IsTree; hide Backed; hide Mapped;
      BackedSize(km.pt, at, km.data, hi);
      var m := Mapped(km.pt, at, 0, hi);
      assert m <= km.frames;
      SubsetSize(m, km.frames);
    }

    lemma FreeIsDisjoint()
      requires Valid()
      ensures Disjoint(km.free, km.pt)
    {
    }

    lemma RootIsThere()
      requires Valid()
      ensures Root in at && at[Root] == root != 0
    {
    }

    lemma NodeZeroNeedsOne(vpn: nat)
      requires Valid() && vpn < PAGES && NodeFor(1, vpn) !in at
      ensures NodeFor(0, vpn) !in at
    {
      NodeForSteps(vpn);
      NoOrphans(km.pt, root, at, NodeFor(1, vpn), Index(1, vpn));
    }
  }

  /** Tables may have been added, from the head of the free list; no table outside this tree changed. */
  ghost predicate Grown(pt: Tables, at: Tree, free: seq<nat>, pt': Tables, at': Tree, free': seq<nat>) {
    && (forall n :: n in at ==> n in at' && at'[n] == at[n])
    && (forall p :: p in pt ==> p in pt')
    && (forall p :: p in pt && p !in PagesOf(at) ==> pt'[p] == pt[p])
    && (forall n :: n in at' && n !in at ==> at'[n] in free)
    && (forall p :: p in pt' && p !in pt ==> p in free && exists n :: n in at' && at'[n] == p)
    && |free'| <= |free| && free' == free[|free| - |free'|..]
  }

  ghost predicate SameMap(pt: Tables, at: Tree, pt': Tables, at': Tree) {
    forall v :: 0 <= v < PAGES ==> Lookup(pt', at', v) == Lookup(pt, at, v)
  }

  /** Grown, and no translation of this tree changed. */
  ghost predicate Extended(pt: Tables, at: Tree, free: seq<nat>, pt': Tables, at': Tree, free': seq<nat>) {
    Grown(pt, at, free, pt', at', free') && SameMap(pt, at, pt', at')
  }

  lemma ExtendedRefl(pt: Tables, at: Tree, free: seq<nat>)
    ensures Extended(pt, at, free, pt, at, free)
  {
  }

  lemma HangExtends(pt: Tables, root: nat, at: Tree, free: seq<nat>, n: Node, i: nat, child: nat)
    requires IsTree(pt, root, at) && n in at && n.level > 0 && i < ENTRIES && Child(n, i) !in at && child !in pt
    requires free != [] && child == free[0] && (n == Root ==> i < 256)
    ensures Extended(pt, at, free, Hung(pt, at[n], i, child), at[Child(n, i) := child], free[1..])
  {
    HangTable(pt, root, at, n, i, child);
    var at' := at[Child(n, i) := child];
    assert at'[Child(n, i)] == child;
  }

  lemma GrownTrans(pt: Tables, at: Tree, free: seq<nat>, pt1: Tables, at1: Tree, free1: seq<nat>,
                   pt2: Tables, at2: Tree, free2: seq<nat>)
    requires Grown(pt, at, free, pt1, at1, free1) && Grown(pt1, at1, free1, pt2, at2, free2)
    requires Disjoint(free, pt)
    ensures Grown(pt, at, free, pt2, at2, free2)
  {
  }

  lemma ExtendedTrans(pt: Tables, at: Tree, free: seq<nat>, pt1: Tables, at1: Tree, free1: seq<nat>,
                      pt2: Tables, at2: Tree, free2: seq<nat>)
    requires Extended(pt, at, free, pt1, at1, free1) && Extended(pt1, at1, free1, pt2, at2, free2)
    requires Disjoint(free, pt)
    ensures Extended(pt, at, free, pt2, at2, free2)
  {
    hide Lookup; hide Grown;
    GrownTrans(pt, at, free, pt1, at1, free1, pt2, at2, free2);
  }

  lemma StoreGrows(pt: Tables, root: nat, at: Tree, free: seq<nat>, vpn: nat, pte: nat)
    requires IsTree(pt, root, at) && vpn < PAGES && NodeFor(0, vpn) in at
    ensures Grown(pt, at, free, Stored(pt, at, vpn, pte), at, free)
  {
  }

  ghost predicate Disjoint(free: seq<nat>, pt: Tables) {
    forall p :: p in free ==> p !in pt
  }

  lemma ConservedKeys(frames: set<nat>, free: seq<nat>, pt: Tables, pt': Tables, data: Frames)
    requires Conserved(frames, free, pt, data) && forall p :: p in pt' <==> p in pt
    ensures Conserved(frames, free, pt', data)
  {
  }

  // ---------------------------------------------------------------- sizes

  const TRAMPOLINE: nat := PAGES - 1  // virtual page numbers
  const TRAPFRAME: nat := PAGES - 2

  const PTE_R: nat := 2
  const PTE_W: nat := 4
  const PTE_X: nat := 8
  const PTE_U: nat := 16

  // PGROUNDUP(sz) / PGSIZE
  function Pages(sz: nat): nat { (sz + PGSIZE - 1) / PGSIZE }

  lemma PagesMonotone(a: nat, b: nat)
    requires a <= b
    ensures Pages(a) <= Pages(b)
  {
  }

  // ---------------------------------------------------------------- mapped pages

  /** The physical pages mapped in [lo, hi). */
  ghost function Mapped(pt: Tables, at: Tree, lo: nat, hi: nat): (r: set<nat>)
    requires hi <= PAGES
    ensures forall p :: p in r <==> exists v :: lo <= v < hi && PteV(Lookup(pt, at, v)) && PtePage(Lookup(pt, at, v)) == p
  {
    set v: nat | lo <= v < hi && PteV(Lookup(pt, at, v)) :: PtePage(Lookup(pt, at, v))
  }

  /** The pages mapped in [lo, hi) are data pages, and no two of them are the same. */
  ghost predicate Owned(pt: Tables, at: Tree, data: Frames, lo: nat, hi: nat)
    requires hi <= PAGES
  {
    && (forall v :: lo <= v < hi && PteV(Lookup(pt, at, v)) ==> PtePage(Lookup(pt, at, v)) in data)
    && (forall u, v :: lo <= u < v < hi && PteV(Lookup(pt, at, u)) && PteV(Lookup(pt, at, v)) ==>
          PtePage(Lookup(pt, at, u)) != PtePage(Lookup(pt, at, v)))
  }

  // pt' is pt with the entries of [lo, hi) cleared.
  ghost predicate Cut(pt: Tables, pt': Tables, at: Tree, lo: nat, hi: nat) {
    forall v :: 0 <= v < PAGES ==> Lookup(pt', at, v) == if lo <= v < hi then 0 else Lookup(pt, at, v)
  }

  ghost predicate TablesKept(pt: Tables, at: Tree, pt': Tables) {
    && (forall p :: p in pt <==> p in pt')
    && (forall p :: p in pt && p !in PagesOf(at) ==> pt'[p] == pt[p])
  }

  lemma GrownKeeps(pt: Tables, at: Tree, free: seq<nat>, pt': Tables, free': seq<nat>)
    requires Grown(pt, at, free, pt', at, free') && forall p :: p in pt <==> p in pt'
    ensures TablesKept(pt, at, pt')
  {
  }

  lemma MappedNone(pt: Tables, at: Tree, lo: nat)
    requires lo <= PAGES
    ensures Mapped(pt, at, lo, lo) == {}
  {
  }

  lemma MappedOne(pt: Tables, at: Tree, a: nat)
    requires a < PAGES
    ensures Mapped(pt, at, a, a + 1) == if PteV(Lookup(pt, at, a)) then {PtePage(Lookup(pt, at, a))} else {}
  {
    hide Lookup;
  }

  lemma MappedStep(pt: Tables, at: Tree, lo: nat, a: nat)
    requires lo <= a < PAGES
    ensures Mapped(pt, at, lo, a + 1) == Mapped(pt, at, lo, a) + (if PteV(Lookup(pt, at, a)) then {PtePage(Lookup(pt, at, a))} else {})
  {
    hide Lookup;
  }

  lemma MappedApart(pt: Tables, at: Tree, data: Frames, a: nat)
    requires a < PAGES && Owned(pt, at, data, 0, a + 1) && PteV(Lookup(pt, at, a))
    ensures PtePage(Lookup(pt, at, a)) in data && PtePage(Lookup(pt, at, a)) !in Mapped(pt, at, 0, a)
  {
    hide Lookup;
  }

  // Extending the range by page a, whose entry is still as it was.
  lemma MappedMore(pt: Tables, pt': Tables, at: Tree, data: Frames, lo: nat, a: nat, hi: nat, doFree: bool)
    requires lo <= a < hi <= PAGES && Cut(pt, pt', at, lo, a) && (doFree ==> Owned(pt, at, data, lo, hi))
    ensures Mapped(pt, at, lo, a + 1) == Mapped(pt, at, lo, a) + Mapped(pt', at, a, a + 1)
    ensures doFree && PteV(Lookup(pt', at, a)) ==> PtePage(Lookup(pt', at, a)) in data - Mapped(pt, at, lo, a)
  {
    hide Lookup;
    MappedOne(pt', at, a);
  }

  /** Every page below hi is mapped, to its own data page. */
  ghost predicate Backed(pt: Tables, at: Tree, data: Frames, hi: nat)
    requires hi <= PAGES
  {
    Owned(pt, at, data, 0, hi) && forall v :: 0 <= v < hi ==> PteV(Lookup(pt, at, v))
  }

  lemma BackedLess(pt: Tables, at: Tree, data: Frames, hi: nat)
    requires hi < PAGES && Backed(pt, at, data, hi + 1)
    ensures Backed(pt, at, data, hi) && Owned(pt, at, data, 0, hi + 1) && PteV(Lookup(pt, at, hi))
  {
    hide Lookup;
  }

  lemma {:induction false} BackedSize(pt: Tables, at: Tree, data: Frames, hi: nat)
    requires hi <= PAGES && Backed(pt, at, data, hi)
    ensures |Mapped(pt, at, 0, hi)| == hi && Mapped(pt, at, 0, hi) <= data.Keys
  {
    hide Lookup; hide Mapped; hide Backed; hide Owned; hide PteV; hide PtePage;
    if hi == 0 {
      MappedNone(pt, at, 0);
    } else {
      BackedLess(pt, at, data, hi - 1);
      BackedSize(pt, at, data, hi - 1);
      MappedStep(pt, at, 0, hi - 1);
      MappedApart(pt, at, data, hi - 1);
    }
  }

  // ---------------------------------------------------------------- tables around a tree

  /** Going from (pt, at) to (pt', at') added tables only, to this tree only. */
  ghost predicate TablesAround(pt: Tables, at: Tree, pt': Tables, at': Tree) {
    && (forall n :: n in at ==> n in at' && at'[n] == at[n])
    && (forall n :: n in at' && n !in at ==> at'[n] !in pt)
    && (forall p :: p in pt ==> p in pt')
    && (forall p :: p in pt && p !in PagesOf(at) ==> pt'[p] == pt[p])
    && (forall p :: p in pt' && p !in pt ==> p in PagesOf(at'))
  }

  lemma AroundRefl(pt: Tables, at: Tree)
    ensures TablesAround(pt, at, pt, at)
  {
  }

  lemma AroundGrown(pt: Tables, at: Tree, pt1: Tables, at1: Tree, free1: seq<nat>, pt2: Tables, at2: Tree, free2: seq<nat>)
    requires TablesAround(pt, at, pt1, at1) && Grown(pt1, at1, free1, pt2, at2, free2) && Disjoint(free1, pt1)
    ensures TablesAround(pt, at, pt2, at2)
  {
    forall p | p in pt && p !in PagesOf(at) ensures pt2[p] == pt[p] {
      assert p !in PagesOf(at1);
    }
    forall p | p in pt2 && p !in pt ensures p in PagesOf(at2) {
      if p in pt1 {
        var n :| n in at1 && at1[n] == p;
        assert n in at2 && at2[n] == p;
      }
    }
  }

  lemma AroundKept(pt: Tables, at: Tree, pt1: Tables, at1: Tree, pt2: Tables)
    requires TablesAround(pt, at, pt1, at1) && TablesKept(pt1, at1, pt2)
    ensures TablesAround(pt, at, pt2, at1)
  {
    forall p | p in pt && p !in PagesOf(at) ensures pt2[p] == pt[p] {
      assert p !in PagesOf(at1);
    }
  }

  lemma TablesKeptRefl(pt: Tables, at: Tree)
    ensures TablesKept(pt, at, pt)
  {
  }

  lemma CutNone(pt: Tables, at: Tree, lo: nat)
    ensures Cut(pt, pt, at, lo, lo)
  {
  }

  // ---------------------------------------------------------------- growing

  /** What a new page is to hold, and the flags to map it with. */
  datatype Want = Want(perm: nat, contents: Frame)
  type Plan = map<nat, Want>

  /** The pages of the plan below hi are mapped as planned, to new data pages; nothing else changed. */
  ghost predicate Filled(pt: Tables, at: Tree, data: Frames, pt': Tables, at': Tree, data': Frames, plan: Plan, lo: nat, hi: nat)
    requires hi <= PAGES
  {
    && FilledMap(pt, at, data, pt', at', data', plan, hi)
    && (forall p :: p in data ==> p in data' && data'[p] == data[p])
    && (forall p :: p in data' && p !in data ==> p in Mapped(pt', at', lo, hi))
  }

  ghost predicate FilledMap(pt: Tables, at: Tree, data: Frames, pt': Tables, at': Tree, data': Frames, plan: Plan, hi: nat) {
    && (forall v :: 0 <= v < PAGES && !(v in plan && v < hi) ==> Lookup(pt', at', v) == Lookup(pt, at, v))
    && (forall v :: 0 <= v < PAGES && v in plan && v < hi ==> NewEntry(Lookup(pt', at', v), data, data', plan[v]))
    && (forall u, v :: 0 <= u < PAGES && 0 <= v < PAGES && u in plan && v in plan && u < v < hi ==>
          PtePage(Lookup(pt', at', u)) != PtePage(Lookup(pt', at', v)))
  }

  ghost predicate NewEntry(pte: nat, data: Frames, data': Frames, w: Want) {
    && PteV(pte) && PteFlags(pte) == (if w.perm % 2 == 1 then w.perm else w.perm + 1)
    && PtePage(pte) !in data && PtePage(pte) in data' && data'[PtePage(pte)] == w.contents
  }

  /** The plan of uvmalloc. */
  ghost function ZeroPlan(lo: nat, xperm: nat): (r: Plan)
    ensures forall v :: v in r <==> lo <= v < TRAPFRAME
    ensures forall v :: v in r ==> r[v] == Want(PTE_R + PTE_U + xperm, ZeroFrame)
  {
    map v | v in Below(TRAPFRAME) && lo <= v :: Want(PTE_R + PTE_U + xperm, ZeroFrame)
  }

  lemma FilledNone(pt: Tables, at: Tree, data: Frames, plan: Plan, lo: nat)
    requires lo <= PAGES && forall v :: v in plan ==> lo <= v
    ensures Filled(pt, at, data, pt, at, data, plan, lo, lo)
  {
  }

  lemma FilledEntry(pt: Tables, at: Tree, data: Frames, pt1: Tables, at1: Tree, data1: Frames, plan: Plan, lo: nat, a: nat)
    requires a < PAGES && Filled(pt, at, data, pt1, at1, data1, plan, lo, a)
    ensures Lookup(pt1, at1, a) == Lookup(pt, at, a)
  {
  }

  lemma FilledSame(pt: Tables, at: Tree, data: Frames, pt1: Tables, at1: Tree, pt2: Tables, at2: Tree, data1: Frames,
                   plan: Plan, lo: nat, a: nat)
    requires a <= PAGES && Filled(pt, at, data, pt1, at1, data1, plan, lo, a) && SameMap(pt1, at1, pt2, at2)
    ensures Filled(pt, at, data, pt2, at2, data1, plan, lo, a)
  {
    hide Lookup; hide Mapped; hide NewEntry; hide PtePage;
    MappedSame(pt1, at1, pt2, at2, lo, a);
  }

  // A page that the plan leaves out.
  lemma FilledSkip(pt: Tables, at: Tree, data: Frames, pt1: Tables, at1: Tree, data1: Frames, plan: Plan, lo: nat, a: nat)
    requires lo <= a < PAGES && Filled(pt, at, data, pt1, at1, data1, plan, lo, a) && a !in plan
    ensures Filled(pt, at, data, pt1, at1, data1, plan, lo, a + 1)
  {
    hide Lookup; hide Mapped; hide NewEntry; hide PtePage;
    MappedStep(pt1, at1, lo, a);
  }

  lemma FilledMore(pt: Tables, at: Tree, data: Frames, pt1: Tables, at1: Tree, data1: Frames, pt2: Tables, at2: Tree, data2: Frames,
                   plan: Plan, lo: nat, a: nat, mem: nat)
    requires lo <= a < PAGES && Filled(pt, at, data, pt1, at1, data1, plan, lo, a) && a in plan && plan[a].perm < 1024
    requires mem !in data1 && data2 == data1[mem := plan[a].contents]
    requires forall v :: 0 <= v < PAGES ==>
      Lookup(pt2, at2, v) == if v == a then MakePte(mem, plan[a].perm) else Lookup(pt1, at1, v)
    ensures Filled(pt, at, data, pt2, at2, data2, plan, lo, a + 1)
  {
    hide Lookup; hide MakePte; hide PteV; hide PtePage; hide PteFlags; hide FilledMap; hide Mapped;
    FilledMapMore(pt, at, data, pt1, at1, data1, pt2, at2, data2, plan, a, mem);
    MappedSame(pt1, at1, pt2, at2, lo, a);
    MappedStep(pt2, at2, lo, a);
  }

  lemma FilledMapMore(pt: Tables, at: Tree, data: Frames, pt1: Tables, at1: Tree, data1: Frames, pt2: Tables, at2: Tree, data2: Frames,
                      plan: Plan, a: nat, mem: nat)
    requires FilledMap(pt, at, data, pt1, at1, data1, plan, a) && a < PAGES && a in plan && plan[a].perm < 1024
    requires mem !in data1 && data2 == data1[mem := plan[a].contents] && mem !in data
    requires forall v :: 0 <= v < PAGES ==>
      Lookup(pt2, at2, v) == if v == a then MakePte(mem, plan[a].perm) else Lookup(pt1, at1, v)
    ensures FilledMap(pt, at, data, pt2, at2, data2, plan, a + 1)
  {
    hide Lookup; hide MakePte; hide PteV; hide PtePage; hide PteFlags;
    assert NewEntry(Lookup(pt2, at2, a), data, data2, plan[a]);
    forall v | 0 <= v < PAGES && v in plan && v < a
      ensures NewEntry(Lookup(pt2, at2, v), data, data2, plan[v]) && PtePage(Lookup(pt2, at2, v)) != mem
    {
      assert NewEntry(Lookup(pt1, at1, v), data, data1, plan[v]);
    }
  }

  lemma MappedSame(pt1: Tables, at1: Tree, pt2: Tables, at2: Tree, lo: nat, hi: nat)
    requires hi <= PAGES && forall v :: lo <= v < hi ==> Lookup(pt2, at2, v) == Lookup(pt1, at1, v)
    ensures Mapped(pt1, at1, lo, hi) == Mapped(pt2, at2, lo, hi)
  {
    hide Lookup;
  }

  lemma FilledOwned(pt: Tables, at: Tree, data: Frames, pt1: Tables, at1: Tree, data1: Frames, plan: Plan, lo: nat, a: nat)
    requires a <= PAGES && Filled(pt, at, data, pt1, at1, data1, plan, lo, a)
    requires forall v :: lo <= v < a ==> Lookup(pt, at, v) == 0
    ensures Owned(pt1, at1, data1, lo, a)
  {
    hide Lookup;
  }

  lemma WithoutU(pte: nat)
    requires PteV(pte) && PteU(pte)
    ensures pte >= PTE_U && PteV(pte - PTE_U) && !PteU(pte - PTE_U) && PtePage(pte - PTE_U) == PtePage(pte)
  {
    var q, f := pte / 32, pte % 32;
    assert pte == 32 * q + f && 16 <= f < 32;
    assert (pte - 16) % 32 == f - 16;
    var a := q / 32;
    assert q == 32 * a + q % 32;
    assert pte == 1024 * a + (32 * (q % 32) + f) && 16 <= 32 * (q % 32) + f < 1024;
    assert (pte - 16) / 1024 == a && pte / 1024 == a;
  }

  lemma ZeroIsInvalid()
    ensures !PteV(0)
  {
  }

  // Taking the new pages away again restores the map and the data pages.
  lemma FilledUndone(pt: Tables, at: Tree, data: Frames, pt1: Tables, pt2: Tables, at1: Tree, data1: Frames,
                     plan: Plan, lo: nat, a: nat)
    requires a <= PAGES && Filled(pt, at, data, pt1, at1, data1, plan, lo, a) && (forall v :: v in plan ==> lo <= v)
    requires Cut(pt1, pt2, at1, lo, a)
    requires forall v :: lo <= v < a ==> Lookup(pt, at, v) == 0
    ensures SameMap(pt, at, pt2, at1)
    ensures data1 - Mapped(pt1, at1, lo, a) == data
  {
    hide Lookup; hide Mapped; hide PteV; hide PteFlags; hide PtePage;
    forall p | p in Mapped(pt1, at1, lo, a) ensures p !in data {
      var v :| lo <= v < a && PteV(Lookup(pt1, at1, v)) && PtePage(Lookup(pt1, at1, v)) == p;
      ZeroIsInvalid();
      assert v in plan && NewEntry(Lookup(pt1, at1, v), data, data1, plan[v]);
    }
  }

  lemma FilledOwnedAll(pt: Tables, at: Tree, data: Frames, pt1: Tables, at1: Tree, data1: Frames, plan: Plan, lo: nat, a: nat, hi: nat)
    requires a <= PAGES && hi <= PAGES && Filled(pt, at, data, pt1, at1, data1, plan, lo, a) && Owned(pt, at, data, 0, hi)
    ensures Owned(pt1, at1, data1, 0, hi)
  {
    hide Lookup; hide Mapped; hide PteV; hide PtePage; hide PteFlags;
    forall v | 0 <= v < hi && PteV(Lookup(pt1, at1, v))
      ensures PtePage(Lookup(pt1, at1, v)) in data1
      ensures PtePage(Lookup(pt1, at1, v)) !in data <==> v in plan && v < a
      ensures !(v in plan && v < a) ==> Lookup(pt1, at1, v) == Lookup(pt, at, v)
    {
      if v in plan && v < a {
        assert NewEntry(Lookup(pt1, at1, v), data, data1, plan[v]);
      }
    }
  }

  lemma FilledBacked(pt: Tables, at: Tree, data: Frames, pt1: Tables, at1: Tree, data1: Frames, plan: Plan, lo: nat, a: nat)
    requires lo <= a <= TRAPFRAME && Filled(pt, at, data, pt1, at1, data1, plan, lo, a) && Backed(pt, at, data, lo)
    requires forall v :: v in plan <==> lo <= v < TRAPFRAME
    requires forall v :: lo <= v < a ==> Lookup(pt, at, v) == 0
    ensures Backed(pt1, at1, data1, a)
  {
    hide Lookup; hide Mapped; hide PtePage; hide PteFlags;
    assert Owned(pt, at, data, 0, a);
    FilledOwnedAll(pt, at, data, pt1, at1, data1, plan, lo, a, a);
    forall v | 0 <= v < a ensures PteV(Lookup(pt1, at1, v)) {
      if lo <= v {
        assert NewEntry(Lookup(pt1, at1, v), data, data1, plan[v]);
      }
    }
  }

  // ---------------------------------------------------------------- freeing tables

  // pt1 is pt without the pages gone, and with entries before i of `page` changed at most.
  ghost predicate Wiped(pt: Tables, pt1: Tables, gone: set<nat>, page: nat, i: nat) {
    && page in pt && page in pt1
    && (forall p :: p in pt1 <==> p in pt && p !in gone)
    && (forall p :: p in pt1 && p != page ==> pt1[p] == pt[p])
    && (forall j :: i <= j < ENTRIES ==> pt1[page][j] == pt[page][j])
  }

  lemma WipedNone(pt: Tables, page: nat)
    requires page in pt
    ensures Wiped(pt, pt, {}, page, 0)
  {
  }

  lemma WipedDone(pt: Tables, pt1: Tables, at: Tree, n: Node)
    requires n in at && Wiped(pt, pt1, PagesBelow(at, n, ENTRIES), at[n], ENTRIES)
    ensures at[n] in pt1 && pt1 - {at[n]} == pt - PagesUnder(at, n)
  {
    hide PagesBelow; hide PagesUnder;
    PagesAll(at, n);
  }

  lemma EmptiedTables(pt: Tables, at: Tree, n: Node)
    requires Emptied(pt, at, n)
    ensures n in at && at[n] in pt && PagesUnder(at, n) <= pt.Keys && n.level <= 2 && Rooted(at)
  {
    AboveStep(n, n.level);
    assert Under(n, n);
  }

  lemma WipedEntry(pt: Tables, pt1: Tables, at: Tree, n: Node, i: nat)
    requires Emptied(pt, at, n) && i < ENTRIES && Wiped(pt, pt1, PagesBelow(at, n, i), at[n], i)
    ensures at[n] in pt1
    ensures var pte := pt1[at[n]][i];
      && (PteV(pte) <==> n.level > 0 && Child(n, i) in at)
      && (PteV(pte) ==> IsBranch(pte) && PtePage(pte) == at[Child(n, i)])
  {
    hide Emptied; hide PagesBelow; hide IsBranch; hide MakePte; hide PteV; hide PtePage;
    EmptiedEntry(pt, at, n, i);
    if n.level > 0 && Child(n, i) in at {
      BranchPte(at[Child(n, i)]);
    }
  }

  lemma EmptiedEntry(pt: Tables, at: Tree, n: Node, i: nat)
    requires Emptied(pt, at, n) && i < ENTRIES
    ensures at[n] in pt && (PteV(pt[at[n]][i]) <==> n.level > 0 && Child(n, i) in at)
    ensures n.level > 0 && Child(n, i) in at ==> pt[at[n]][i] == MakePte(at[Child(n, i)], 0)
  {
    AboveStep(n, n.level);
    assert Under(n, n);
  }

  lemma BranchPte(page: nat)
    ensures IsBranch(MakePte(page, 0)) && PtePage(MakePte(page, 0)) == page
  {
    assert MakePte(page, 0) == (page * 64) * 16 + 1;
  }

  lemma WipedChild(pt: Tables, pt1: Tables, at: Tree, n: Node, i: nat)
    requires Emptied(pt, at, n) && n.level > 0 && i < ENTRIES && Child(n, i) in at
    requires Wiped(pt, pt1, PagesBelow(at, n, i), at[n], i)
    ensures Emptied(pt1, at, Child(n, i))
  {
    hide Above; hide InFirst; hide Under;
    forall p | p in PagesUnder(at, Child(n, i)) ensures p in pt1 && p in pt && pt1[p] == pt[p] {
      var m :| m in at && Under(m, Child(n, i)) && at[m] == p;
      UnderParent(m, n, i);
      ChildApart(at, n, i, m);
    }
    EmptiedChild(pt, pt1, at, n, i);
  }

  lemma UnderParent(m: Node, n: Node, i: nat)
    requires n.level > 0 && i < ENTRIES && Under(m, Child(n, i))
    ensures Under(m, n)
  {
    AboveStep(m, n.level - 1);
  }

  lemma ChildApart(at: Tree, n: Node, i: nat, m: Node)
    requires Rooted(at) && n in at && n.level > 0 && i < ENTRIES && m in at && Under(m, Child(n, i))
    ensures at[m] !in PagesBelow(at, n, i) && at[m] != at[n]
  {
    hide Above; hide InFirst; hide Under;
    InNext(m, n, i);
  }

  lemma WipedMore(pt: Tables, pt1: Tables, at: Tree, n: Node, i: nat, there: bool)
    requires Emptied(pt, at, n) && i < ENTRIES && Wiped(pt, pt1, PagesBelow(at, n, i), at[n], i)
    requires there <==> n.level > 0 && Child(n, i) in at
    ensures there ==> at[n] in pt1 - PagesUnder(at, Child(n, i))
    ensures there ==> Wiped(pt, Zapped(pt1 - PagesUnder(at, Child(n, i)), at[n], i), PagesBelow(at, n, i + 1), at[n], i + 1)
    ensures !there ==> Wiped(pt, pt1, PagesBelow(at, n, i + 1), at[n], i + 1)
  {
    hide Above; hide InFirst; hide Under; hide Emptied; hide PagesBelow; hide PagesUnder;
    EmptiedTables(pt, at, n);
    if n.level == 0 {
      NothingBelow(at, n, i);
      NothingBelow(at, n, i + 1);
      assert PagesBelow(at, n, i + 1) == PagesBelow(at, n, i);
    } else {
      PagesNext(at, n, i);
      if there {
        forall m | m in at && Under(m, Child(n, i)) ensures at[m] != at[n] { ChildApart(at, n, i, m); }
      } else {
        NothingUnder(at, n, i);
      }
    }
  }

  function Zapped(pt: Tables, page: nat, i: nat): Tables
    requires i < ENTRIES
  {
    if page in pt then pt[page := pt[page][i := 0]] else pt
  }

  lemma NothingBelow(at: Tree, n: Node, i: nat)
    requires n.level == 0
    ensures PagesBelow(at, n, i) == {}
  {
  }

  lemma NothingUnder(at: Tree, n: Node, i: nat)
    requires Rooted(at) && 0 < n.level <= 2 && Child(n, i) !in at
    ensures PagesUnder(at, Child(n, i)) == {}
  {
    if p :| p in PagesUnder(at, Child(n, i)) {
      var m :| m in at && Under(m, Child(n, i)) && at[m] == p;
      AboveIsThere(at, m, n.level - 1);
    }
  }

  lemma MappedRest(pt: Tables, at: Tree, hi: nat)
    requires hi <= TRAPFRAME && forall v :: hi <= v < PAGES ==> !PteV(Lookup(pt, at, v))
    ensures Mapped(pt, at, 0, TRAPFRAME) == Mapped(pt, at, 0, hi)
  {
    hide Lookup;
  }

  lemma KeptMinus(pt: Tables, at: Tree, pt': Tables)
    requires TablesKept(pt, at, pt')
    ensures pt' - PagesOf(at) == pt - PagesOf(at)
  {
  }
}
