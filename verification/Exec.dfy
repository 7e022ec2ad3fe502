/**
  exec.c: replacing a process image.

  The new image is built beside the old one.  It takes the old one's place only when it
  is complete; on every other path all its pages go back.
 */
module Exec {
  import opened Blocks
  import opened PageTable
  import opened VirtualMemory
  import opened UserMemory
  import opened ProcessImage

  const USERSTACK: nat := 1
  const MAXARG: nat := 32

  /** A program header; load is type == ELF_PROG_LOAD. */
  datatype Header = Header(load: bool, flags: nat, off: nat, vaddr: nat, filesz: nat, memsz: nat)

  datatype Read<T> = Short | Got(value: T)

  ghost predicate Wide(h: Header) {
    h.off < UINT64 && h.vaddr < UINT64 && h.filesz < UINT64 && h.memsz < UINT64
  }

  // flags2perm
  function Perm(flags: nat): (r: nat)
    ensures r in {0, PTE_W, PTE_X, PTE_W + PTE_X}
  {
    (if flags % 2 == 1 then PTE_X else 0) + (if flags / 2 % 2 == 1 then PTE_W else 0)
  }

  // readi to a kernel buffer: at most n bytes of the file from off on
  function ReadAt(file: seq<Byte>, off: nat, n: nat): (r: seq<Byte>)
    ensures |r| <= n && (|r| == n && n > 0 ==> off + n <= |file| && r == file[off..off + n])
  {
    if off > |file| || off + n >= UINT then []
    else if off + n > |file| then file[off..]
    else file[off..off + n]
  }

  /**
    An image under construction, built out of pages that were free when memory was
    (pt0, data0): every page below sz is there, for user code.
   */
  ghost predicate Image(pt0: Tables, data0: Frames, pt: Tables, at: Tree, data: Frames, sz: nat) {
    && UserSpace(pt, at, data, sz)
    && (forall v :: 0 <= v < Pages(sz) && v < PAGES ==> PteV(Lookup(pt, at, v)) && PteU(Lookup(pt, at, v)))
    && Confined(pt0, map[], data0, pt, at, data)
  }

  lemma ImageBacked(pt0: Tables, data0: Frames, pt: Tables, at: Tree, data: Frames, sz: nat)
    requires Image(pt0, data0, pt, at, data, sz)
    ensures Pages(sz) <= TRAPFRAME && Backed(pt, at, data, Pages(sz))
  {
    hide Lookup; hide Confined; hide PteU;
    SizePages(sz);
  }

  // uvmalloc on the new image: from sz to newsz, however large that is.
  method Extend(a: AddrSpace, sz: nat, newsz: nat, xperm: nat, ghost pt0: Tables, ghost data0: Frames) returns (r: nat)
    requires a.Valid() && Image(pt0, data0, a.km.pt, a.at, a.km.data, sz) && xperm in {0, PTE_W, PTE_X, PTE_W + PTE_X}
    requires |a.km.frames| < TRAPFRAME
    modifies a, a.km
    ensures a.Valid() && Image(pt0, data0, a.km.pt, a.at, a.km.data, if r == 0 then sz else r)
    ensures r != 0 ==> r == if newsz < sz then sz else newsz
    ensures SameView(old(a.km.pt), old(a.at), old(a.km.data), a.km.pt, a.at, a.km.data)
  {
    hide Lookup; hide IsTree; hide Conserved; hide TablesAround; hide DataAround; hide Filled; hide PteV; hide PtePage; hide PteU; hide Mine; hide SameView; hide PageView; hide Owned; hide Backed; hide SameMap;
    var km := a.km;
    ghost var pt, t, data := km.pt, a.at, km.data;
    ImageBacked(pt0, data0, pt, t, data, sz);
    SameViewRefl(pt, t, data);
    r := a.Uvmalloc(sz, newsz, xperm);
    if newsz >= sz {
      PagesMonotone(sz, newsz);
      if r == newsz {
        Grew(pt0, data0, pt, t, data, km.pt, a.at, km.data, sz, newsz, xperm);
      } else {
        SameMapUser(pt, t, km.pt, a.at, data, sz);
        Stayed(pt0, data0, pt, t, km.pt, a.at, data, sz);
      }
    }
  }

  lemma Stayed(pt0: Tables, data0: Frames, pt: Tables, t: Tree, pt1: Tables, t1: Tree, data: Frames, sz: nat)
    requires Image(pt0, data0, pt, t, data, sz) && UserSpace(pt1, t1, data, sz) && SameMap(pt, t, pt1, t1)
    requires TablesAround(pt, t, pt1, t1) && DataAround(data, Mine(pt, t), data, Mine(pt1, t1))
    ensures Image(pt0, data0, pt1, t1, data, sz)
  {
    hide Lookup; hide TablesAround; hide DataAround; hide Mine; hide PteV; hide PteU; hide UserSpace;
    assert Confined(pt, t, data, pt1, t1, data);
    ConfinedTrans(pt0, map[], data0, pt, t, data, pt1, t1, data);
  }

  lemma Grew(pt0: Tables, data0: Frames, pt: Tables, t: Tree, data: Frames, pt1: Tables, t1: Tree, data1: Frames, sz: nat, newsz: nat, xperm: nat)
    requires Image(pt0, data0, pt, t, data, sz) && sz <= newsz && Pages(sz) <= Pages(newsz) <= TRAPFRAME
    requires TablesAround(pt, t, pt1, t1) && xperm in {0, PTE_W, PTE_X, PTE_W + PTE_X}
    requires Filled(pt, t, data, pt1, t1, data1, ZeroPlan(Pages(sz), xperm), Pages(sz), Pages(newsz))
    ensures Image(pt0, data0, pt1, t1, data1, newsz) && SameView(pt, t, data, pt1, t1, data1)
  {
    hide Lookup; hide TablesAround; hide DataAround; hide Mine; hide PteV; hide PteU; hide UserSpace; hide Filled; hide PageView; hide PteFlags; hide PtePage; hide Confined;
    PagesFit(newsz);
    NothingBeyond(pt, t, data, sz);
    Enlarged(pt, t, data, pt1, t1, data1, sz, newsz, xperm);
    assert Confined(pt, t, data, pt1, t1, data1) by { AreConfined(pt, t, data, pt1, t1, data1); }
    ConfinedTrans(pt0, map[], data0, pt, t, data, pt1, t1, data1);
    FilledLookup(pt, t, data, pt1, t1, data1, ZeroPlan(Pages(sz), xperm), Pages(sz), Pages(newsz));
    forall v | 0 <= v < Pages(newsz) && v < PAGES ensures PteV(Lookup(pt1, t1, v)) && PteU(Lookup(pt1, t1, v)) {
      if v >= Pages(sz) {
        assert NewEntry(Lookup(pt1, t1, v), data, data1, Want(PTE_R + PTE_U + xperm, ZeroFrame));
        UserFlags(Lookup(pt1, t1, v), xperm);
      }
    }
  }

  lemma AreConfined(pt: Tables, at: Tree, data: Frames, pt1: Tables, at1: Tree, data1: Frames)
    requires TablesAround(pt, at, pt1, at1) && DataAround(data, Mine(pt, at), data1, Mine(pt1, at1))
    ensures Confined(pt, at, data, pt1, at1, data1)
  {
  }

  lemma PagesFit(sz: nat)
    requires Pages(sz) <= TRAPFRAME
    ensures sz <= LIMIT
  {
  }

  lemma UserFlags(pte: nat, xperm: nat)
    requires PteFlags(pte) == PTE_R + PTE_U + xperm + 1 && xperm in {0, PTE_W, PTE_X, PTE_W + PTE_X}
    ensures PteU(pte)
  {
    LowBits(pte, pte / 1024, PTE_R + PTE_U + xperm + 1);
  }

  // ---------------------------------------------------------------- segments

  const MAXFILEBYTES: nat := 268 * 1024  // MAXFILE * BSIZE
  const PHYSPAGES: nat := 0x8000         // (PHYSTOP - KERNBASE) / PGSIZE

  /** The byte at va that the segments hs of a file ask for: the last one to cover it, else 0. */
  function ImageByte(hs: seq<Read<Header>>, file: seq<Byte>, va: nat): Byte {
    if hs == [] then 0
    else
      var h := hs[|hs| - 1];
      if h.Got? && h.value.load && h.value.vaddr <= va < h.value.vaddr + h.value.filesz
         && h.value.off % UINT + (va - h.value.vaddr) < |file|
      then file[h.value.off % UINT + (va - h.value.vaddr)]
      else ImageByte(hs[..|hs| - 1], file, va)
  }

  ghost predicate Shows(pt: Tables, at: Tree, data: Frames, hs: seq<Read<Header>>, file: seq<Byte>) {
    forall va :: 0 <= va < LIMIT ==> ByteView(pt, at, data, va) == ImageByte(hs, file, va)
  }

  /** loadseg: the segment's bytes of the file, at va.  Every page it needs is there. */
  method LoadSeg(a: AddrSpace, va: nat, file: seq<Byte>, off: nat, filesz: nat, ghost pt0: Tables, ghost data0: Frames, ghost sz: nat)
    returns (r: int)
    requires a.Valid() && Image(pt0, data0, a.km.pt, a.at, a.km.data, sz) && |a.km.frames| <= PHYSPAGES && |file| <= MAXFILEBYTES
    requires va % PGSIZE == 0 && va + filesz <= sz
    modifies a, a.km
    ensures a.Valid() && Image(pt0, data0, a.km.pt, a.at, a.km.data, sz) && (r == 0 || r == -1)
    ensures r == 0 && filesz > 0 ==> off % UINT + filesz <= |file|
    ensures r == 0 ==> Written(old(a.km.pt), old(a.at), old(a.km.data), a.km.pt, a.at, a.km.data, va,
                               if filesz == 0 then [] else file[off % UINT..off % UINT + filesz])
  {
    hide Lookup; hide IsTree; hide Conserved; hide PteV; hide PtePage; hide PteU; hide Written; hide Image; hide Spliced;
    var km := a.km;
    ghost var pt, t, data := km.pt, a.at, km.data;
    FitsMemory(a, pt0, data0, sz);
    var o, len := off % UINT, filesz % UINT;  // uint parameters
    WrittenNone(pt, t, data, va);
    ghost var k := 0;
    var i := 0;
    while i < len
      invariant i % PGSIZE == 0 && k == (if i < filesz then i else filesz) && len == filesz
      invariant a.Valid() && Image(pt0, data0, km.pt, a.at, km.data, sz)
      invariant k > 0 ==> o + k <= |file|
      invariant Written(pt, t, data, km.pt, a.at, km.data, va, if k == 0 then [] else file[o..o + k])
    {
      var n := if len - i < PGSIZE then len - i else PGSIZE;
      var bytes := ReadAt(file, (o + i) % UINT, n);
      ghost var pt1, t1, data1 := km.pt, a.at, km.data;
      LoadPage(a, va + i, bytes, pt0, data0, sz);
      if |bytes| != n {
        return -1;
      }
      assert (o + i) % UINT == o + i;
      Segment(pt, t, data, pt1, t1, data1, km.data, va, file, o, i, n);
      k := i + n;
      i := i + PGSIZE;
    }
    r := 0;
  }

  // What readi puts into the frame of the page at va.
  method LoadPage(a: AddrSpace, va: nat, bytes: seq<Byte>, ghost pt0: Tables, ghost data0: Frames, ghost sz: nat)
    requires a.Valid() && Image(pt0, data0, a.km.pt, a.at, a.km.data, sz) && va < sz && |bytes| <= PGSIZE
    modifies a, a.km
    ensures a.Valid() && Image(pt0, data0, a.km.pt, a.at, a.km.data, sz)
    ensures a.at == old(a.at) && a.km.pt == old(a.km.pt) && va / PGSIZE < TRAPFRAME
    ensures Spliced(a.km.pt, a.at, old(a.km.data), a.km.pt, a.at, a.km.data, va / PGSIZE, 0, bytes)
  {
    hide Lookup; hide IsTree; hide Conserved; hide PteV; hide PtePage; hide PteU; hide Image; hide Spliced;
    var km := a.km;
    var v := va / PGSIZE;
    InImage(pt0, data0, km.pt, a.at, km.data, sz, va);
    a.DataIsNotTable(PtePage(Lookup(km.pt, a.at, v)));
    var pa := a.WalkAddr(v);
    assert pa != 0;  // else "loadseg: address should exist"
    ghost var pt1, t1, data1 := km.pt, a.at, km.data;
    var f: Frame := Splice(km.data[pa], 0, bytes);
    km.data := km.data[pa := f];
    StoredIn(pt0, data0, pt1, t1, data1, sz, v, bytes);
    ConservedData(km.frames, km.free, km.pt, data1, km.data);
  }

  lemma FitsMemory(a: AddrSpace, pt0: Tables, data0: Frames, sz: nat)
    requires a.Valid() && Image(pt0, data0, a.km.pt, a.at, a.km.data, sz) && |a.km.frames| <= PHYSPAGES
    ensures sz <= PHYSPAGES * PGSIZE
  {
    hide Lookup; hide IsTree; hide Conserved; hide Image; hide Backed;
    ImageBacked(pt0, data0, a.km.pt, a.at, a.km.data, sz);
    a.BackedFits(Pages(sz));
  }

  lemma InImage(pt0: Tables, data0: Frames, pt: Tables, at: Tree, data: Frames, sz: nat, va: nat)
    requires Image(pt0, data0, pt, at, data, sz) && va < sz
    ensures var v := va / PGSIZE;
      && v < TRAPFRAME && PteV(Lookup(pt, at, v)) && PteU(Lookup(pt, at, v))
      && PtePage(Lookup(pt, at, v)) in data
  {
    hide Lookup; hide Confined;
    BelowLimit(pt, at, data, sz, va);
  }

  lemma StoredIn(pt0: Tables, data0: Frames, pt: Tables, at: Tree, data: Frames, sz: nat, v: nat, bytes: seq<Byte>)
    requires Image(pt0, data0, pt, at, data, sz) && v < TRAPFRAME && |bytes| <= PGSIZE
    requires PteV(Lookup(pt, at, v)) && PtePage(Lookup(pt, at, v)) in data
    ensures var pa := PtePage(Lookup(pt, at, v));
      var data1 := data[pa := Splice(data[pa], 0, bytes)];
      Image(pt0, data0, pt, at, data1, sz) && Spliced(pt, at, data, pt, at, data1, v, 0, bytes)
  {
    hide Lookup; hide Confined; hide PteV; hide PtePage; hide PteU; hide UserSpace; hide Spliced; hide SameView;
    var pa := PtePage(Lookup(pt, at, v));
    SameViewRefl(pt, at, data);
    ConfinedRefl(pt, at, data);
    Stored1(pt, at, data, pt, at, data, sz, v, 0, bytes);
    ConfinedTrans(pt0, map[], data0, pt, at, data, pt, at, data[pa := Splice(data[pa], 0, bytes)]);
  }

  // One page of a segment.
  lemma Segment(pt: Tables, at: Tree, data: Frames, pt1: Tables, at1: Tree, data1: Frames, data2: Frames,
                va: nat, file: seq<Byte>, o: nat, i: nat, n: nat)
    requires (va + i) % PGSIZE == 0 && n <= PGSIZE && (va + i) / PGSIZE < TRAPFRAME && o + i + n <= |file|
    requires Written(pt, at, data, pt1, at1, data1, va, if i == 0 then [] else file[o..o + i])
    requires Spliced(pt1, at1, data1, pt1, at1, data2, (va + i) / PGSIZE, 0, file[o + i..o + i + n])
    ensures Written(pt, at, data, pt1, at1, data2, va, file[o..o + i + n])
  {
    hide Written; hide Spliced;
    var src := file[o..o + i + n];
    assert src[..i] == (if i == 0 then [] else file[o..o + i]) && src[i..i + n] == file[o + i..o + i + n] && src[..i + n] == src;
    WrittenMore(pt, at, data, pt1, at1, data1, pt1, at1, data2, va, src, i, n);
  }

  /** The loop over program headers. */
  method LoadImage(a: AddrSpace, hs: seq<Read<Header>>, file: seq<Byte>, ghost pt0: Tables, ghost data0: Frames) returns (ok: bool, sz: nat)
    requires a.Valid() && Image(pt0, data0, a.km.pt, a.at, a.km.data, 0) && |a.km.frames| <= PHYSPAGES && |file| <= MAXFILEBYTES
    requires forall i :: 0 <= i < |hs| && hs[i].Got? ==> Wide(hs[i].value)
    requires forall v :: 0 <= v < TRAPFRAME ==> PageView(a.km.pt, a.at, a.km.data, v) == ZeroFrame
    modifies a, a.km
    ensures a.Valid() && Image(pt0, data0, a.km.pt, a.at, a.km.data, sz)
    ensures ok ==> Shows(a.km.pt, a.at, a.km.data, hs, file)
    ensures ok ==> forall i :: 0 <= i < |hs| ==> hs[i].Got?
  {
    hide Lookup; hide IsTree; hide Conserved; hide PteV; hide PteU; hide Written; hide Image; hide Shows; hide SameView; hide PageView;
    var km := a.km;
    sz := 0;
    ShowsNothing(km.pt, a.at, km.data, file);
    var i := 0;
    assert hs[..0] == [];
    while i < |hs|
      invariant 0 <= i <= |hs| && a.Valid() && Image(pt0, data0, km.pt, a.at, km.data, sz)
      invariant Shows(km.pt, a.at, km.data, hs[..i], file)
      invariant forall j :: 0 <= j < i ==> hs[j].Got?
    {
      assert hs[..i + 1][..i] == hs[..i];
      if hs[i].Short? {
        return false, sz;
      }
      var ph := hs[i].value;
      ghost var pt, t, data := km.pt, a.at, km.data;
      if ph.load {
        if ph.memsz < ph.filesz {
          return false, sz;
        }
        if (ph.vaddr + ph.memsz) % UINT64 < ph.vaddr {
          return false, sz;
        }
        if ph.vaddr % PGSIZE != 0 {
          return false, sz;
        }
        assert ph.vaddr + ph.memsz < UINT64;
        var sz1 := Extend(a, sz, ph.vaddr + ph.memsz, Perm(ph.flags), pt0, data0);
        if sz1 == 0 {
          return false, sz;
        }
        sz := sz1;
        ghost var pt1, t1, data1 := km.pt, a.at, km.data;
        var r := LoadSeg(a, ph.vaddr, file, ph.off, ph.filesz, pt0, data0, sz);
        if r < 0 {
          return false, sz;
        }
        assert hs[..i + 1][|hs[..i + 1]| - 1] == hs[i];
        ShowsMore(pt, t, data, pt1, t1, data1, km.pt, a.at, km.data, hs[..i + 1], file);
      } else {
        ShowsSame(pt, t, data, hs[..i + 1], file);
      }
      i := i + 1;
    }
    assert hs[..i] == hs;
    ok := true;
  }

  lemma ShowsNothing(pt: Tables, at: Tree, data: Frames, file: seq<Byte>)
    requires forall v :: 0 <= v < TRAPFRAME ==> PageView(pt, at, data, v) == ZeroFrame
    ensures Shows(pt, at, data, [], file)
  {
    hide PageView;
    forall va | 0 <= va < LIMIT ensures ByteView(pt, at, data, va) == ImageByte([], file, va) {
      assert va / PGSIZE < TRAPFRAME;
    }
  }

  lemma ShowsSame(pt: Tables, at: Tree, data: Frames, hs: seq<Read<Header>>, file: seq<Byte>)
    requires hs != [] && Shows(pt, at, data, hs[..|hs| - 1], file)
    requires hs[|hs| - 1].Got? && !hs[|hs| - 1].value.load
    ensures Shows(pt, at, data, hs, file)
  {
    hide ByteView;
    forall va | 0 <= va < LIMIT ensures ImageByte(hs, file, va) == ImageByte(hs[..|hs| - 1], file, va) {
    }
  }

  lemma ShowsMore(pt: Tables, at: Tree, data: Frames, pt1: Tables, at1: Tree, data1: Frames, pt2: Tables, at2: Tree, data2: Frames,
                  hs: seq<Read<Header>>, file: seq<Byte>)
    requires hs != [] && Shows(pt, at, data, hs[..|hs| - 1], file) && SameView(pt, at, data, pt1, at1, data1)
    requires hs[|hs| - 1].Got? && hs[|hs| - 1].value.load
    requires var h := hs[|hs| - 1].value;
      && (h.filesz > 0 ==> h.off % UINT + h.filesz <= |file|)
      && Written(pt1, at1, data1, pt2, at2, data2, h.vaddr, if h.filesz == 0 then [] else file[h.off % UINT..h.off % UINT + h.filesz])
    ensures Shows(pt2, at2, data2, hs, file)
  {
    hide ByteView; hide SameView;
    forall va | 0 <= va < LIMIT ensures ByteView(pt2, at2, data2, va) == ImageByte(hs, file, va) {
      SameByte(pt, at, data, pt1, at1, data1, va);
    }
  }

  lemma SameByte(pt: Tables, at: Tree, data: Frames, pt1: Tables, at1: Tree, data1: Frames, va: nat)
    requires SameView(pt, at, data, pt1, at1, data1) && va < LIMIT
    ensures ByteView(pt1, at1, data1, va) == ByteView(pt, at, data, va)
  {
    hide PageView;
    assert va / PGSIZE < TRAPFRAME;
  }

  // ---------------------------------------------------------------- arguments

  // The eight bytes of a pointer, low byte first.
  function Le64(x: nat): (r: seq<Byte>)
    ensures |r| == 8
  {
    [x % 0x100, x / 0x100 % 0x100, x / 0x1_0000 % 0x100, x / 0x100_0000 % 0x100,
     x / 0x1_0000_0000 % 0x100, x / 0x100_0000_0000 % 0x100, x / 0x1_0000_0000_0000 % 0x100, x / 0x100_0000_0000_0000 % 0x100]
  }

  function Pointers(ps: seq<nat>): (r: seq<Byte>)
    ensures |r| == 8 * |ps|
  {
    if ps == [] then [] else Pointers(ps[..|ps| - 1]) + Le64(ps[|ps| - 1])
  }

  /** The strings argv are at the addresses ptrs, each with a NUL, all at or above sp. */
  ghost predicate Strings(pt: Tables, at: Tree, data: Frames, argv: seq<seq<Byte>>, ptrs: seq<nat>, sp: nat) {
    && |ptrs| == |argv|
    && forall i :: 0 <= i < |argv| ==> sp <= ptrs[i] && ptrs[i] % 16 == 0 && Reads(pt, at, data, ptrs[i], argv[i] + [0])
  }

  // Push bytes onto the stack, 16-byte aligned; false if they do not fit above stackbase.
  method Push(np: Proc, bytes: seq<Byte>, sp0: nat, stackbase: nat) returns (ok: bool, sp: nat)
    requires np.Valid() && stackbase <= sp0 <= np.sz
    modifies np.pagetable, np.km
    ensures np.Valid() && Confined(old(np.km.pt), old(np.pagetable.at), old(np.km.data), np.km.pt, np.pagetable.at, np.km.data)
    ensures Keeps(old(np.km.pt), old(np.pagetable.at), np.km.pt, np.pagetable.at)
    ensures ok ==> stackbase <= sp && sp % 16 == 0 && sp + |bytes| <= sp0
    ensures ok ==> Written(old(np.km.pt), old(np.pagetable.at), old(np.km.data), np.km.pt, np.pagetable.at, np.km.data, sp, bytes)
  {
    hide Lookup; hide IsTree; hide Conserved; hide UserSpace; hide Written; hide Confined; hide Writable; hide Keeps;
    ConfinedRefl(np.km.pt, np.pagetable.at, np.km.data);
    KeepsRefl(np.km.pt, np.pagetable.at);
    if |bytes| > sp0 {
      return false, sp0;
    }
    sp := sp0 - |bytes|;
    sp := sp - sp % 16;
    if sp < stackbase {
      return false, sp;
    }
    var r, done := np.Copyout(sp, bytes);
    assert r == 0 ==> bytes[..done] == bytes;
    ok := r == 0;
  }

  /** The arguments go to the stack, below sz; ok if they fit between stackbase and sz. */
  method PushArgs(np: Proc, argv: seq<seq<Byte>>, stackbase: nat) returns (ok: bool, sp: nat, ptrs: seq<nat>)
    requires np.Valid() && |argv| < MAXARG && stackbase <= np.sz
    modifies np.pagetable, np.km
    ensures np.Valid() && Confined(old(np.km.pt), old(np.pagetable.at), old(np.km.data), np.km.pt, np.pagetable.at, np.km.data)
    ensures ok ==> stackbase <= sp && sp % 16 == 0 && Strings(np.km.pt, np.pagetable.at, np.km.data, argv, ptrs, sp)
    ensures ok ==> Reads(np.km.pt, np.pagetable.at, np.km.data, sp, Pointers(ptrs + [0]))
    ensures ok ==> SameBelow(old(np.km.pt), old(np.pagetable.at), old(np.km.data), np.km.pt, np.pagetable.at, np.km.data, stackbase)
    ensures Keeps(old(np.km.pt), old(np.pagetable.at), np.km.pt, np.pagetable.at)
  {
    hide Lookup; hide IsTree; hide Conserved; hide UserSpace; hide Written; hide Confined; hide Reads; hide SameBelow; hide Strings; hide Pointers; hide Keeps;
    var km := np.km;
    ghost var pt, t, data := km.pt, np.pagetable.at, km.data;
    SizeLimit(pt, t, data, np.sz);
    ok, sp, ptrs := PushStrings(np, argv, stackbase);
    if !ok {
      return;
    }
    ghost var pt1, t1, data1, sp1 := km.pt, np.pagetable.at, km.data, sp;
    var bytes := Pointers(ptrs + [0]);
    ok, sp := Push(np, bytes, sp, stackbase);
    ConfinedTrans(pt, t, data, pt1, t1, data1, km.pt, np.pagetable.at, km.data);
    KeepsTrans(pt, t, pt1, t1, km.pt, np.pagetable.at);
    if ok {
      SameBelowWritten(pt, t, data, pt1, t1, data1, km.pt, np.pagetable.at, km.data, stackbase, sp, bytes);
      KeepStrings(pt1, t1, data1, km.pt, np.pagetable.at, km.data, argv, ptrs, sp1, sp, bytes);
      ReadBack(pt1, t1, data1, km.pt, np.pagetable.at, km.data, sp, bytes);
    }
  }

  // The loop over the argument strings.
  method PushStrings(np: Proc, argv: seq<seq<Byte>>, stackbase: nat) returns (ok: bool, sp: nat, ptrs: seq<nat>)
    requires np.Valid() && stackbase <= np.sz
    modifies np.pagetable, np.km
    ensures np.Valid() && Confined(old(np.km.pt), old(np.pagetable.at), old(np.km.data), np.km.pt, np.pagetable.at, np.km.data)
    ensures ok ==> stackbase <= sp <= np.sz && Strings(np.km.pt, np.pagetable.at, np.km.data, argv, ptrs, sp)
    ensures ok ==> SameBelow(old(np.km.pt), old(np.pagetable.at), old(np.km.data), np.km.pt, np.pagetable.at, np.km.data, stackbase)
    ensures Keeps(old(np.km.pt), old(np.pagetable.at), np.km.pt, np.pagetable.at)
  {
    hide Lookup; hide IsTree; hide Conserved; hide UserSpace; hide Written; hide Confined; hide SameBelow; hide Strings; hide Keeps;
    var km := np.km;
    ghost var pt, t, data := km.pt, np.pagetable.at, km.data;
    ConfinedRefl(pt, t, data);
    SameBelowRefl(pt, t, data, stackbase);
    KeepsRefl(pt, t);
    sp, ptrs := np.sz, [];
    SizeLimit(pt, t, data, sp);
    NoStrings(pt, t, data, sp);
    assert argv[..0] == [];
    var argc := 0;
    while argc < |argv|
      invariant 0 <= argc <= |argv| && |ptrs| == argc && np.Valid() && stackbase <= sp <= np.sz
      invariant Confined(pt, t, data, km.pt, np.pagetable.at, km.data)
      invariant SameBelow(pt, t, data, km.pt, np.pagetable.at, km.data, stackbase) && Keeps(pt, t, km.pt, np.pagetable.at)
      invariant Strings(km.pt, np.pagetable.at, km.data, argv[..argc], ptrs, sp)
    {
      var bytes := argv[argc] + [0];
      ghost var pt1, t1, data1, sp1 := km.pt, np.pagetable.at, km.data, sp;
      ok, sp := Push(np, bytes, sp, stackbase);
      ConfinedTrans(pt, t, data, pt1, t1, data1, km.pt, np.pagetable.at, km.data);
      KeepsTrans(pt, t, pt1, t1, km.pt, np.pagetable.at);
      if !ok {
        return;
      }
      assert argv[..argc + 1][..argc] == argv[..argc];
      SameBelowWritten(pt, t, data, pt1, t1, data1, km.pt, np.pagetable.at, km.data, stackbase, sp, bytes);
      PushString(pt1, t1, data1, km.pt, np.pagetable.at, km.data, argv[..argc + 1], ptrs, sp1, sp, bytes);
      ptrs := ptrs + [sp];
      argc := argc + 1;
    }
    assert argv[..argc] == argv;
    ok := true;
  }

  lemma SizeLimit(pt: Tables, at: Tree, data: Frames, sz: nat)
    requires UserSpace(pt, at, data, sz)
    ensures sz <= LIMIT
  {
  }

  /** Nothing below hi changed, as the process sees it. */
  ghost predicate SameBelow(pt: Tables, at: Tree, data: Frames, pt': Tables, at': Tree, data': Frames, hi: nat) {
    forall va :: 0 <= va < LIMIT && va < hi ==> ByteView(pt', at', data', va) == ByteView(pt, at, data, va)
  }

  lemma SameBelowRefl(pt: Tables, at: Tree, data: Frames, hi: nat)
    ensures SameBelow(pt, at, data, pt, at, data, hi)
  {
  }

  lemma SameBelowWritten(pt: Tables, at: Tree, data: Frames, pt1: Tables, at1: Tree, data1: Frames, pt2: Tables, at2: Tree, data2: Frames,
                         hi: nat, dst: nat, bytes: seq<Byte>)
    requires SameBelow(pt, at, data, pt1, at1, data1, hi) && Written(pt1, at1, data1, pt2, at2, data2, dst, bytes) && hi <= dst
    ensures SameBelow(pt, at, data, pt2, at2, data2, hi)
  {
    hide ByteView;
  }

  lemma NoStrings(pt: Tables, at: Tree, data: Frames, sp: nat)
    ensures Strings(pt, at, data, [], [], sp)
  {
  }

  // What was written can be read back.
  lemma ReadBack(pt: Tables, at: Tree, data: Frames, pt1: Tables, at1: Tree, data1: Frames, dst: nat, bytes: seq<Byte>)
    requires Written(pt, at, data, pt1, at1, data1, dst, bytes) && dst + |bytes| <= LIMIT
    ensures Reads(pt1, at1, data1, dst, bytes)
  {
    hide ByteView;
  }

  // Writing below a string leaves the string alone.
  lemma ReadKept(pt: Tables, at: Tree, data: Frames, pt1: Tables, at1: Tree, data1: Frames, dst: nat, bytes: seq<Byte>, src: nat, s: seq<Byte>)
    requires Written(pt, at, data, pt1, at1, data1, dst, bytes) && dst + |bytes| <= src && Reads(pt, at, data, src, s)
    ensures Reads(pt1, at1, data1, src, s)
  {
    hide ByteView; hide Reads;
    ReadSame(pt, at, data, pt1, at1, data1, src, s);
  }

  lemma ReadSame(pt: Tables, at: Tree, data: Frames, pt1: Tables, at1: Tree, data1: Frames, src: nat, s: seq<Byte>)
    requires Reads(pt, at, data, src, s)
    requires forall va :: src <= va < src + |s| && va < LIMIT ==> ByteView(pt1, at1, data1, va) == ByteView(pt, at, data, va)
    ensures Reads(pt1, at1, data1, src, s)
  {
    hide ByteView;
  }

  lemma KeepStrings(pt: Tables, at: Tree, data: Frames, pt1: Tables, at1: Tree, data1: Frames, argv: seq<seq<Byte>>, ptrs: seq<nat>,
                    sp: nat, sp1: nat, bytes: seq<Byte>)
    requires Strings(pt, at, data, argv, ptrs, sp) && Written(pt, at, data, pt1, at1, data1, sp1, bytes) && sp1 + |bytes| <= sp
    ensures Strings(pt1, at1, data1, argv, ptrs, sp1)
  {
    hide Reads; hide Written;
    forall i | 0 <= i < |argv| ensures Reads(pt1, at1, data1, ptrs[i], argv[i] + [0]) {
      ReadKept(pt, at, data, pt1, at1, data1, sp1, bytes, ptrs[i], argv[i] + [0]);
    }
  }

  lemma PushString(pt: Tables, at: Tree, data: Frames, pt1: Tables, at1: Tree, data1: Frames, argv: seq<seq<Byte>>, ptrs: seq<nat>,
                   sp: nat, sp1: nat, bytes: seq<Byte>)
    requires argv != [] && Strings(pt, at, data, argv[..|argv| - 1], ptrs, sp) && bytes == argv[|argv| - 1] + [0]
    requires Written(pt, at, data, pt1, at1, data1, sp1, bytes) && sp1 + |bytes| <= sp <= LIMIT && sp1 % 16 == 0
    ensures Strings(pt1, at1, data1, argv, ptrs + [sp1], sp1)
  {
    hide Reads; hide Written;
    KeepStrings(pt, at, data, pt1, at1, data1, argv[..|argv| - 1], ptrs, sp, sp1, bytes);
    ReadBack(pt, at, data, pt1, at1, data1, sp1, bytes);
  }

  // ---------------------------------------------------------------- kexec

  // bad: the unfinished image goes, and memory is as before.
  method Discard(a: AddrSpace, sz: nat, ghost pt0: Tables, ghost data0: Frames)
    requires a.Valid() && UserSpace(a.km.pt, a.at, a.km.data, sz) && Confined(pt0, map[], data0, a.km.pt, a.at, a.km.data)
    modifies a, a.km
    ensures a.km.Valid() && a.km.pt == pt0 && a.km.data == data0
  {
    hide Lookup; hide IsTree; hide Conserved; hide UserSpace; hide TablesAround; hide PagesOf; hide Mine;
    FreshTables(pt0, a.km.pt, a.at);
    NoTree(pt0);
    ghost var data, mine := a.km.data, Mine(a.km.pt, a.at);
    assert data - mine == data0;
    ProcFreePagetable(a, sz);
  }

  // A page that is mapped, but out of reach of user code.
  ghost predicate Guard(pt: Tables, at: Tree, v: nat) {
    v < PAGES && PteV(Lookup(pt, at, v)) && !PteU(Lookup(pt, at, v))
  }

  lemma GuardKept(pt: Tables, at: Tree, pt1: Tables, at1: Tree, v: nat)
    requires Guard(pt, at, v) && (Keeps(pt, at, pt1, at1) || SameMap(pt, at, pt1, at1))
    ensures Guard(pt1, at1, v)
  {
    hide Lookup; hide PteV; hide PteU;
  }

  // The stack: two pages above the image, the lower one out of reach of user code.
  method AddStack(a: AddrSpace, sz: nat, ghost pt0: Tables, ghost data0: Frames, ghost hs: seq<Read<Header>>, ghost file: seq<Byte>)
    returns (ok: bool, top: nat)
    requires a.Valid() && Image(pt0, data0, a.km.pt, a.at, a.km.data, sz) && |a.km.frames| < TRAPFRAME
    requires Shows(a.km.pt, a.at, a.km.data, hs, file)
    modifies a, a.km
    ensures a.Valid() && UserSpace(a.km.pt, a.at, a.km.data, top) && Confined(pt0, map[], data0, a.km.pt, a.at, a.km.data)
    ensures ok ==> top == (Pages(sz) + USERSTACK + 1) * PGSIZE
    ensures ok ==> Shows(a.km.pt, a.at, a.km.data, hs, file)
    ensures ok ==> Guard(a.km.pt, a.at, Pages(sz))
  {
    hide Lookup; hide IsTree; hide Conserved; hide PteV; hide PtePage; hide PteU; hide Shows; hide SameView; hide UserSpace; hide Confined; hide TablesKept;
    var km := a.km;
    ghost var pt, t, data := km.pt, a.at, km.data;
    var base := Pages(sz) * PGSIZE;
    RoundUp(pt0, data0, pt, t, data, sz);
    var sz1 := Extend(a, base, base + (USERSTACK + 1) * PGSIZE, PTE_W, pt0, data0);
    ShowsSameView(pt, t, data, km.pt, a.at, km.data, hs, file);
    if sz1 == 0 {
      return false, base;
    }
    InImage(pt0, data0, km.pt, a.at, km.data, sz1, base);
    ghost var pt1 := km.pt;
    a.Uvmclear(Pages(sz));
    Cleared(pt1, a.at, km.data, km.pt, sz1, Pages(sz), hs, file);
    AroundRefl(pt1, a.at);
    AroundKept(pt1, a.at, pt1, a.at, km.pt);
    AreConfined(pt1, a.at, km.data, km.pt, a.at, km.data);
    ConfinedTrans(pt0, map[], data0, pt1, a.at, km.data, km.pt, a.at, km.data);
    return true, sz1;
  }

  lemma RoundUp(pt0: Tables, data0: Frames, pt: Tables, at: Tree, data: Frames, sz: nat)
    requires Image(pt0, data0, pt, at, data, sz)
    ensures Image(pt0, data0, pt, at, data, Pages(sz) * PGSIZE) && Pages(Pages(sz) * PGSIZE) == Pages(sz)
    ensures Pages(sz) * PGSIZE / PGSIZE == Pages(sz)
  {
    hide Lookup; hide Confined; hide PteV; hide PteU; hide Owned;
    SizePages(sz);
    assert Pages(Pages(sz) * PGSIZE) == Pages(sz);
  }

  lemma ShowsSameView(pt: Tables, at: Tree, data: Frames, pt1: Tables, at1: Tree, data1: Frames, hs: seq<Read<Header>>, file: seq<Byte>)
    requires Shows(pt, at, data, hs, file) && SameView(pt, at, data, pt1, at1, data1)
    ensures Shows(pt1, at1, data1, hs, file)
  {
    hide ByteView; hide SameView; hide ImageByte;
    forall va | 0 <= va < LIMIT ensures ByteView(pt1, at1, data1, va) == ByteView(pt, at, data, va) {
      SameByte(pt, at, data, pt1, at1, data1, va);
    }
  }

  // Taking user access to a page away changes no contents and no ownership.
  lemma Cleared(pt: Tables, at: Tree, data: Frames, pt1: Tables, sz: nat, g: nat, hs: seq<Read<Header>>, file: seq<Byte>)
    requires UserSpace(pt, at, data, sz) && g < TRAPFRAME && Shows(pt, at, data, hs, file)
    requires forall u :: 0 <= u < PAGES && u != g ==> Lookup(pt1, at, u) == Lookup(pt, at, u)
    requires PteV(Lookup(pt, at, g)) && PteV(Lookup(pt1, at, g)) && PtePage(Lookup(pt1, at, g)) == PtePage(Lookup(pt, at, g))
    ensures UserSpace(pt1, at, data, sz) && Shows(pt1, at, data, hs, file)
    ensures DataAround(data, Mine(pt, at), data, Mine(pt1, at))
  {
    hide Lookup; hide PteV; hide PtePage; hide PteU; hide Shows;
    assert SameView(pt, at, data, pt1, at, data);
    ShowsSameView(pt, at, data, pt1, at, data, hs, file);
    assert Mine(pt1, at) == Mine(pt, at);
  }

  /** Outside the process, memory is as it was: of the new pages none is left over, of the old ones none is lost. */
  ghost predicate Swapped(pt0: Tables, t0: Tree, data0: Frames, pt: Tables, at: Tree, data: Frames) {
    pt - PagesOf(at) == pt0 - PagesOf(t0) && data - Mine(pt, at) == data0 - Mine(pt0, t0)
  }

  /** The image: the segments below hi, the argument strings, and their addresses at sp. */
  ghost predicate Ready(pt: Tables, at: Tree, data: Frames, argv: seq<seq<Byte>>, ptrs: seq<nat>, sp: nat,
                        hs: seq<Read<Header>>, file: seq<Byte>, hi: nat) {
    && Strings(pt, at, data, argv, ptrs, sp)
    && Reads(pt, at, data, sp, Pointers(ptrs + [0]))
    && ShowsBelow(pt, at, data, hs, file, hi)
  }

  /**
    kexec, after the path has been looked up: elf says whether the file starts with an
    ELF header, hs are its program headers as read.  -1 leaves process and memory as they
    were.  Otherwise the process has the new image, with the arguments on its stack, the
    page below the stack guarded, and every page of the old one free.
   */
  method Kexec(p: Proc, elf: bool, hs: seq<Read<Header>>, file: seq<Byte>, argv: seq<seq<Byte>>, trampoline: nat, trapframe: nat)
    returns (r: int, sp: nat, ghost ptrs: seq<nat>)
    requires p.Valid() && |p.km.frames| <= PHYSPAGES && |file| <= MAXFILEBYTES && |argv| < MAXARG
    requires forall i :: 0 <= i < |hs| && hs[i].Got? ==> Wide(hs[i].value)
    modifies p, p.pagetable, p.km
    ensures p.Valid() && (r == -1 || r == |argv|)
    ensures r == -1 ==>
      && p.pagetable == old(p.pagetable) && p.sz == old(p.sz) && p.pagetable.at == old(p.pagetable.at)
      && p.km.pt == old(p.km.pt) && p.km.data == old(p.km.data)
    ensures r != -1 ==> Swapped(old(p.km.pt), old(p.pagetable.at), old(p.km.data), p.km.pt, p.pagetable.at, p.km.data)
    ensures r != -1 ==> p.sz >= PGSIZE && sp >= p.sz - PGSIZE && sp % 16 == 0
    ensures r != -1 ==> p.sz % PGSIZE == 0 && p.sz >= 2 * PGSIZE && Guard(p.km.pt, p.pagetable.at, p.sz / PGSIZE - 2)
    ensures r != -1 ==> Ready(p.km.pt, p.pagetable.at, p.km.data, argv, ptrs, sp, hs, file, p.sz - PGSIZE)
  {
    hide Lookup; hide IsTree; hide Conserved; hide UserSpace; hide Confined; hide Image; hide Shows; hide Swapped; hide Strings; hide Reads; hide PageView; hide PteU; hide PteV; hide Bare; hide TablesAround; hide Guard; hide Keeps; hide SameMap; hide Ready;
    sp, ptrs := 0, [];
    if !elf {
      return -1, 0, [];
    }
    var km := p.km;
    var oldspace, oldsz := p.pagetable, p.sz;
    ghost var pt0, data0, t0 := km.pt, km.data, oldspace.at;
    var a := ProcPagetable(km, trampoline, trapframe);
    if a == null {
      return -1, 0, [];
    }
    NewImage(pt0, data0, km.pt, a.at, trampoline, trapframe);
    var ok, sz := LoadImage(a, hs, file, pt0, data0);
    if !ok {
      ImageIsUser(pt0, data0, km.pt, a.at, km.data, sz);
      Discard(a, sz, pt0, data0);
      return -1, 0, [];
    }
    var top;
    ok, top := AddStack(a, sz, pt0, data0, hs, file);
    if !ok {
      Discard(a, top, pt0, data0);
      return -1, 0, [];
    }
    var np := new Proc(a, top);
    ghost var pt1, t1, data1 := km.pt, a.at, km.data;
    var stackbase := top - USERSTACK * PGSIZE;
    var args;
    ok, sp, args := PushArgs(np, argv, stackbase);
    ConfinedTrans(pt0, map[], data0, pt1, t1, data1, km.pt, a.at, km.data);
    if !ok {
      Discard(a, top, pt0, data0);
      return -1, 0, [];
    }
    ptrs := args;
    GuardKept(pt1, t1, km.pt, a.at, Pages(sz));
    StillShows(pt1, t1, data1, km.pt, a.at, km.data, hs, file, stackbase);
    IsReady(km.pt, a.at, km.data, argv, ptrs, sp, hs, file, stackbase);
    ghost var pt2 := km.pt;
    Replace(p, a, top, pt0, data0, argv, ptrs, sp, hs, file, stackbase);
    GuardKept(pt2, a.at, km.pt, a.at, Pages(sz));
    StackPages(Pages(sz), top);
    r := |argv|;
  }

  lemma StackPages(n: nat, top: nat)
    requires top == (n + USERSTACK + 1) * PGSIZE
    ensures top % PGSIZE == 0 && top >= 2 * PGSIZE && top / PGSIZE - 2 == n
  {
  }

  lemma IsReady(pt: Tables, at: Tree, data: Frames, argv: seq<seq<Byte>>, ptrs: seq<nat>, sp: nat, hs: seq<Read<Header>>, file: seq<Byte>, hi: nat)
    requires Strings(pt, at, data, argv, ptrs, sp) && Reads(pt, at, data, sp, Pointers(ptrs + [0])) && ShowsBelow(pt, at, data, hs, file, hi)
    ensures Ready(pt, at, data, argv, ptrs, sp, hs, file, hi)
  {
  }

  ghost predicate ShowsBelow(pt: Tables, at: Tree, data: Frames, hs: seq<Read<Header>>, file: seq<Byte>, hi: nat) {
    forall va :: 0 <= va < LIMIT && va < hi ==> ByteView(pt, at, data, va) == ImageByte(hs, file, va)
  }

  lemma StillShows(pt: Tables, at: Tree, data: Frames, pt1: Tables, at1: Tree, data1: Frames, hs: seq<Read<Header>>, file: seq<Byte>, hi: nat)
    requires Shows(pt, at, data, hs, file) && SameBelow(pt, at, data, pt1, at1, data1, hi)
    ensures ShowsBelow(pt1, at1, data1, hs, file, hi)
  {
    hide ByteView; hide ImageByte;
  }

  lemma ImageIsUser(pt0: Tables, data0: Frames, pt: Tables, at: Tree, data: Frames, sz: nat)
    requires Image(pt0, data0, pt, at, data, sz)
    ensures UserSpace(pt, at, data, sz) && Confined(pt0, map[], data0, pt, at, data)
  {
  }

  lemma NewImage(pt0: Tables, data0: Frames, pt: Tables, at: Tree, trampoline: nat, trapframe: nat)
    requires TablesAround(pt0, map[], pt, at) && Bare(pt, at, trampoline, trapframe)
    ensures Image(pt0, data0, pt, at, data0, 0)
    ensures forall v :: 0 <= v < TRAPFRAME ==> PageView(pt, at, data0, v) == ZeroFrame
  {
    hide Lookup; hide TablesAround; hide MakePte; hide Mapped;
    NothingOwned(pt, at, data0);
    NoTree(pt0);
    BareKernel(pt, at, trampoline, trapframe);
  }

  // Commit to the new image, and free the old one.
  method Replace(p: Proc, a: AddrSpace, sz: nat, ghost pt0: Tables, ghost data0: Frames, ghost argv: seq<seq<Byte>>, ghost ptrs: seq<nat>, ghost sp: nat,
                 ghost hs: seq<Read<Header>>, ghost file: seq<Byte>, ghost hi: nat)
    requires p.pagetable.km == p.km == a.km && a != p.pagetable && a.Valid() && UserSpace(a.km.pt, a.at, a.km.data, sz)
    requires IsTree(pt0, p.pagetable.root, p.pagetable.at) && UserSpace(pt0, p.pagetable.at, data0, p.sz)
    requires Confined(pt0, map[], data0, a.km.pt, a.at, a.km.data)
    requires Ready(a.km.pt, a.at, a.km.data, argv, ptrs, sp, hs, file, hi)
    modifies p, p.pagetable, p.km
    ensures p.Valid() && p.pagetable == a && p.sz == sz
    ensures Swapped(pt0, old(p.pagetable.at), data0, p.km.pt, a.at, p.km.data)
    ensures Ready(p.km.pt, a.at, p.km.data, argv, ptrs, sp, hs, file, hi) && a.at == old(a.at)
    ensures SameMap(old(a.km.pt), a.at, p.km.pt, a.at)
  {
    hide Lookup; hide IsTree; hide Conserved; hide UserSpace; hide Confined; hide PagesOf; hide Mine; hide Ready; hide Swapped; hide SameMap; hide Apart; hide SameView;
    var km := p.km;
    var oldspace, oldsz := p.pagetable, p.sz;
    ghost var pt1, data1, t0 := km.pt, km.data, oldspace.at;
    Beside(pt0, data0, pt1, a.at, data1, oldspace.root, t0, oldsz);
    p.pagetable, p.sz := a, sz;
    ProcFreePagetable(oldspace, oldsz);
    Remains(pt0, data0, pt1, a.at, data1, km.pt, km.data, a.root, t0, sz);
    KeepReads(pt1, a.at, data1, km.pt, km.data, argv, ptrs, sp, hs, file, hi);
  }

  // The old image is untouched by the building of the new one.
  lemma Beside(pt0: Tables, data0: Frames, pt1: Tables, at: Tree, data1: Frames, root: nat, t0: Tree, sz: nat)
    requires Confined(pt0, map[], data0, pt1, at, data1) && IsTree(pt0, root, t0) && UserSpace(pt0, t0, data0, sz)
    ensures IsTree(pt1, root, t0) && UserSpace(pt1, t0, data1, sz) && Apart(t0, at) && Mine(pt1, t0) == Mine(pt0, t0)
    ensures Mine(pt1, t0) !! Mine(pt1, at)
  {
    hide Lookup; hide IsTree; hide UserSpace; hide TablesAround; hide PagesOf; hide Mapped; hide SameMap; hide Apart;
    NewTreeApart(pt0, root, t0, pt1, at);
    OtherTree(pt0, map[], pt1, at, root, t0);
    NoTree(pt0);
    MoreData(pt0, t0, data0, pt1, data1, sz);
    SameMine(pt0, t0, pt1);
    MineIsData(pt0, t0, data0, sz);
  }

  lemma SameMine(pt: Tables, at: Tree, pt1: Tables)
    requires SameMap(pt, at, pt1, at)
    ensures Mine(pt1, at) == Mine(pt, at)
  {
    hide Lookup; hide Mapped;
    MappedSame(pt, at, pt1, at, 0, TRAPFRAME);
  }

  lemma MineIsData(pt: Tables, at: Tree, data: Frames, sz: nat)
    requires UserSpace(pt, at, data, sz)
    ensures Mine(pt, at) <= data.Keys
  {
    hide Lookup; hide PteU;
  }

  // The new image is untouched by the freeing of the old one.
  lemma Remains(pt0: Tables, data0: Frames, pt1: Tables, at: Tree, data1: Frames, pt2: Tables, data2: Frames, root: nat, t0: Tree, sz: nat)
    requires Confined(pt0, map[], data0, pt1, at, data1) && Apart(t0, at) && Mine(pt1, t0) == Mine(pt0, t0) && Mine(pt1, t0) !! Mine(pt1, at)
    requires IsTree(pt1, root, at) && UserSpace(pt1, at, data1, sz)
    requires pt2 == pt1 - PagesOf(t0) && data2 == data1 - Mine(pt1, t0)
    ensures IsTree(pt2, root, at) && UserSpace(pt2, at, data2, sz) && SameView(pt1, at, data1, pt2, at, data2)
    ensures Swapped(pt0, t0, data0, pt2, at, data2) && SameMap(pt1, at, pt2, at)
  {
    hide Lookup; hide TablesAround; hide UserSpace; hide SameView; hide Mapped; hide IsTree; hide Mine; hide SameMap; hide PagesOf;
    TreeWithout(pt1, pt2, root, at, t0);
    SameMine(pt1, at, pt2);
    MineIsData(pt1, at, data1, sz);
    OwnData(pt1, at, data1, pt2, data2, sz);
    FreshTables(pt0, pt1, at);
    NoTree(pt0);
    assert pt2 - PagesOf(at) == (pt1 - PagesOf(at)) - PagesOf(t0);
    assert data1 - Mine(pt1, at) == data0;
    assert data2 - Mine(pt2, at) == (data1 - Mine(pt1, at)) - Mine(pt1, t0);
  }

  lemma TreeWithout(pt1: Tables, pt2: Tables, root: nat, at: Tree, t0: Tree)
    requires IsTree(pt1, root, at) && Apart(t0, at) && pt2 == pt1 - PagesOf(t0)
    ensures IsTree(pt2, root, at) && SameMap(pt1, at, pt2, at)
  {
    forall n | n in at ensures at[n] in pt2 && pt2[at[n]] == pt1[at[n]] {
      assert at[n] in PagesOf(at);
    }
    TreeFrame(pt1, pt2, root, at);
  }

  // An address space depends on its own data pages only.
  lemma OwnData(pt: Tables, at: Tree, data: Frames, pt1: Tables, data1: Frames, sz: nat)
    requires UserSpace(pt, at, data, sz) && SameMap(pt, at, pt1, at)
    requires forall p :: p in Mine(pt, at) && p in data ==> p in data1 && data1[p] == data[p]
    ensures UserSpace(pt1, at, data1, sz) && SameView(pt, at, data, pt1, at, data1)
  {
    hide Lookup; hide Mapped; hide PteV; hide PtePage; hide PteU;
    forall v | 0 <= v < TRAPFRAME && PteV(Lookup(pt, at, v))
      ensures PtePage(Lookup(pt, at, v)) in data1 && data1[PtePage(Lookup(pt, at, v))] == data[PtePage(Lookup(pt, at, v))]
    {
      assert PtePage(Lookup(pt, at, v)) in Mine(pt, at);
    }
  }

  lemma KeepReads(pt: Tables, at: Tree, data: Frames, pt1: Tables, data1: Frames, argv: seq<seq<Byte>>, ptrs: seq<nat>, sp: nat,
                  hs: seq<Read<Header>>, file: seq<Byte>, hi: nat)
    requires SameView(pt, at, data, pt1, at, data1)
    requires Ready(pt, at, data, argv, ptrs, sp, hs, file, hi)
    ensures Ready(pt1, at, data1, argv, ptrs, sp, hs, file, hi)
  {
    hide ByteView; hide SameView; hide ImageByte; hide Reads;
    forall va | 0 <= va < LIMIT ensures ByteView(pt1, at, data1, va) == ByteView(pt, at, data, va) {
      SameByte(pt, at, data, pt1, at, data1, va);
    }
    forall i | 0 <= i < |argv| ensures Reads(pt1, at, data1, ptrs[i], argv[i] + [0]) {
      ReadSame(pt, at, data, pt1, at, data1, ptrs[i], argv[i] + [0]);
    }
    ReadSame(pt, at, data, pt1, at, data1, sp, Pointers(ptrs + [0]));
  }
}
