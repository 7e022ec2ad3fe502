/**
  mkfs: the image the file system starts from.  Blocks and inodes are handed out in
  order; the bitmap is written once, at the end.
 */
module Mkfs {
  import opened Blocks
  import opened Layout
  import opened Ownership

  function EmptyInode(kind: nat, nlink: nat): Dinode {
    Dinode(kind, 0, 0, nlink, 0, seq(NDIRECT + 1, _ => 0))
  }

  // FSSIZE 2000, NINODES 200, LOGBLOCKS 30: 47 metadata blocks.
  const SB: Superblock := Superblock(2000, 1953, 200, 2, 33, 46)

  /**
    An image under construction: owned blocks are exactly those handed out so far,
    the rest are still zero, and the inode table is on disk but for the dirty inodes.
   */
  ghost predicate Building(image: Image, table: Table, owner: Owner, free: nat, dirty: set<nat>) {
    && Owns(SB, image, table, owner) && Synced(SB, image, table, dirty) && FreeInodesEmpty(table)
    && SB.DataStart() <= free <= SB.size
    && (forall b :: b in owner <==> SB.DataStart() <= b < free)
    && (forall b :: free <= b < SB.size ==> image[b] == Zeroes)
  }

  /** The bitmap written at the end marks the metadata and every owned block, and nothing else. */
  lemma BuiltIsConsistent(image: Image, table: Table, owner: Owner, free: nat)
    requires Building(image, table, owner, free, {})
    requires forall b :: 0 <= b < SB.size ==> (InUse(SB, image, b) <==> b < free)
    ensures Consistent(SB, image, table, owner, {}, {})
  {
    hide InUse; hide Synced; hide Addr;
  }

  lemma StartBuilding(image: Image, table: Table)
    requires |image| == SB.size && forall b :: 0 <= b < SB.size ==> image[b] == Zeroes
    requires |table| == SB.ninodes && forall i :: 0 <= i < |table| ==> table[i] == EmptyInode(0, 0)
    ensures Building(image, table, map[], SB.DataStart(), {})
  {
    ZeroWords();
    forall i | 0 <= i < SB.ninodes
      ensures DinodeAt(SB, image, i) == table[i]
    {
      assert WordsAt(Zeroes, 16 * (i % IPB) + 3, NDIRECT + 1) == table[i].addrs;
    }
  }

  // ---------------------------------------------------------------- steps of construction

  lemma BuildingStore(image: Image, table: Table, owner: Owner, free: nat, dirty: set<nat>, i: nat)
    requires Building(image, table, owner, free, dirty) && i < |table|
    ensures |image| == SB.size && SB.Valid() && |table| == SB.ninodes && table[i].Valid()
    ensures var image' := StoreDinode(SB, image, i, table[i]);
      Building(image', table, owner, free, dirty - {i}) && FilesKept(image, image', table)
  {
    hide DinodeAt; hide Addr; hide SameFile;
    var image' := StoreDinode(SB, image, i, table[i]);
    var ib := SB.IBlock(i);
    assert ib < SB.bmapstart by { assert i / IPB <= 12; }
    WriteUnowned(SB, image, table, owner, ib, image'[ib]);
  }

  lemma BuildingDirect(image: Image, table: Table, owner: Owner, free: nat, dirty: set<nat>, i: nat, k: nat)
    requires Building(image, table, owner, free, dirty) && i < |table| && table[i].kind != 0
    requires k <= NDIRECT && |table[i].addrs| == NDIRECT + 1 && table[i].addrs[k] == 0 && free < SB.size
    ensures var d' := table[i].(addrs := table[i].addrs[k := free]);
      && OneSlotMore(image, table[i], image, d', k, free)
      && Building(image, table[i := d'], owner[free := Slot(i, k)], free + 1, dirty + {i})
  {
    hide DinodeAt; hide Addr;
    AttachDirect(SB, image, table, owner, i, k, free);
  }

  lemma BuildingEntry(image: Image, table: Table, owner: Owner, free: nat, dirty: set<nat>, i: nat, j: nat)
    requires Building(image, table, owner, free, dirty) && i < |table| && j < NINDIRECT && free < SB.size
    requires |table[i].addrs| == NDIRECT + 1 && table[i].addrs[NDIRECT] != 0 && Addr(image, table[i], NDIRECT + 1 + j) == 0
    ensures table[i].addrs[NDIRECT] < |image|
    ensures var ind := table[i].addrs[NDIRECT]; var image' := image[ind := SetWord(image[ind], j, free)];
      && OneSlotMore(image, table[i], image', table[i], NDIRECT + 1 + j, free)
      && Building(image', table, owner[free := Slot(i, NDIRECT + 1 + j)], free + 1, dirty)
      && OthersKept(image, image', table, table, i)
      && ind in owner && owner[ind] == Slot(i, NDIRECT)
  {
    hide DinodeAt; hide SameFile; hide Word; hide SetWord;
    AttachEntry(SB, image, table, owner, i, j, free);
    var ind := table[i].addrs[NDIRECT];
    assert Addr(image, table[i], NDIRECT) == ind;
    SyncedKept(SB, image, table, dirty, ind, SetWord(image[ind], j, free));
  }

  lemma BuildingData(image: Image, table: Table, owner: Owner, free: nat, dirty: set<nat>, b: nat, data: Block)
    requires Building(image, table, owner, free, dirty) && b in owner && owner[b].k != NDIRECT
    ensures b < |image| && Building(image[b := data], table, owner, free, dirty)
    ensures OthersKept(image, image[b := data], table, table, owner[b].inum)
  {
    hide DinodeAt; hide SameFile; hide Word; hide Addr;
    WriteData(SB, image, table, owner, b, data);
    SyncedKept(SB, image, table, dirty, b, data);
  }

  // The contents c of d fill its blocks exactly.
  ghost predicate Filled(view: Image, d: Dinode, c: seq<Byte>) {
    Content(view, d, c) && forall bn :: BlockCount(|c|) <= bn < MAXFILE ==> Addr(view, d, BlockSlot(bn)) == 0
  }

  // Filled, but for the one block that the next byte goes to, which is there.
  ghost predicate Ready(view: Image, d: Dinode, c: seq<Byte>) {
    && Content(view, d, c) && |c| < MAXFILE * BSIZE && 0 < Addr(view, d, BlockSlot(|c| / BSIZE)) < |view|
    && forall bn :: |c| / BSIZE < bn < MAXFILE ==> Addr(view, d, BlockSlot(bn)) == 0
  }

  lemma FilledReady(view: Image, d: Dinode, c: seq<Byte>)
    requires Filled(view, d, c) && |c| < MAXFILE * BSIZE
    ensures |c| % BSIZE != 0 ==> Ready(view, d, c) && Addr(view, d, BlockSlot(|c| / BSIZE)) != 0
    ensures |c| % BSIZE == 0 ==> Addr(view, d, BlockSlot(|c| / BSIZE)) == 0
  {
    hide Addr; hide ByteAt;
    assert |c| % BSIZE != 0 ==> BlockCount(|c|) == |c| / BSIZE + 1;
    assert |c| % BSIZE == 0 ==> BlockCount(|c|) == |c| / BSIZE;
  }

  lemma AttachedReady(view: Image, d: Dinode, view': Image, d': Dinode, c: seq<Byte>, b: nat)
    requires Filled(view, d, c) && |c| < MAXFILE * BSIZE && |c| % BSIZE == 0 && |view'| == |view| && 0 < b < |view|
    requires OneSlotMore(view, d, view', d', BlockSlot(|c| / BSIZE), b) && Grown(view, d, view', d')
    ensures Ready(view', d', c)
  {
    hide Addr; hide ByteAt;
    GrownContent(view, d, view', d', c);
    assert BlockCount(|c|) == |c| / BSIZE;
  }

  // Naming the indirect block adds no data block.
  lemma IndirectFilled(view: Image, d: Dinode, view': Image, d': Dinode, c: seq<Byte>, b: nat)
    requires Filled(view, d, c) && OneSlotMore(view, d, view', d', NDIRECT, b) && Grown(view, d, view', d')
    ensures Filled(view', d', c)
  {
    hide Addr; hide ByteAt;
    GrownContent(view, d, view', d', c);
  }

  /** Appending a chunk that ends within the block. */
  lemma AppendFilled(image: Image, table: Table, owner: Owner, i: nat, c: seq<Byte>, s: seq<Byte>)
    requires Owns(SB, image, table, owner) && i < |table| && Ready(image, table[i], c) && s != []
    requires |c| % BSIZE + |s| <= BSIZE && |c| + |s| <= MAXFILE * BSIZE
    ensures var a := Addr(image, table[i], BlockSlot(|c| / BSIZE));
      && a in owner && owner[a] == Slot(i, BlockSlot(|c| / BSIZE))
      && Filled(image[a := Splice(image[a], |c| % BSIZE, s)], table[i], c + s)
  {
    hide Addr; hide ByteAt; hide Splice;
    var a := Addr(image, table[i], BlockSlot(|c| / BSIZE));
    ContentWrite(SB, image, table, owner, i, c, |c|, s);
    assert Overwrite(c, |c|, s) == c + s;
    WriteData(SB, image, table, owner, a, Splice(image[a], |c| % BSIZE, s));
    assert BlockCount(|c| + |s|) == |c| / BSIZE + 1;
  }

  // ---------------------------------------------------------------- the program

  ghost predicate FileIs(view: Image, d: Dinode, c: seq<Byte>) {
    |c| == d.size && Filled(view, d, c)
  }

  // Every inode but i holds its file.
  ghost predicate FilesBut(view: Image, table: Table, files: seq<seq<Byte>>, i: int) {
    |files| == |table| && forall j :: 0 <= j < |table| && j != i ==> FileIs(view, table[j], files[j])
  }

  lemma OtherFilesBut(view: Image, view': Image, table: Table, table': Table, files: seq<seq<Byte>>, i: nat)
    requires FilesBut(view, table, files, i) && OthersKept(view, view', table, table', i)
    ensures FilesBut(view', table', files, i)
  {
    hide Addr; hide ByteAt;
    forall j | 0 <= j < |table| && j != i
      ensures FileIs(view', table'[j], files[j])
    {
      SameFileFilled(view, view', table[j], files[j]);
    }
  }

  lemma FilesKeptFilled(view: Image, view': Image, table: Table, files: seq<seq<Byte>>)
    requires FilesBut(view, table, files, -1) && FilesKept(view, view', table)
    ensures FilesBut(view', table, files, -1)
  {
    hide Addr; hide ByteAt;
    forall j | 0 <= j < |table|
      ensures FileIs(view', table[j], files[j])
    {
      SameFileFilled(view, view', table[j], files[j]);
    }
  }

  lemma SameFileFilled(view: Image, view': Image, d: Dinode, c: seq<Byte>)
    requires SameFile(view, view', d) && Filled(view, d, c)
    ensures Filled(view', d, c)
  {
    hide Addr; hide ByteAt;
    assert Grown(view, d, view', d);
    GrownContent(view, d, view', d, c);
  }

  const T_DIR: nat := 1
  const T_FILE: nat := 2
  const ROOTINO: nat := 1

  type Dirent = s: seq<Byte> | |s| == 16 witness seq(16, _ => 0)

  // What mkfs is given of a file: the directory entry made for it, and what each read returns.
  datatype HostFile = HostFile(dirent: Dirent, chunks: seq<seq<Byte>>)

  function Concat(ss: seq<seq<Byte>>): seq<Byte> {
    if ss == [] then [] else Concat(ss[..|ss| - 1]) + ss[|ss| - 1]
  }

  class Maker {
    var image: Image
    var freeinode: nat
    var freeblock: nat

    ghost var table: Table
    ghost var owner: Owner
    ghost var files: seq<seq<Byte>>

    // Between calls; `dirty` holds the inode whose copy is being changed, if any.
    ghost predicate Valid(dirty: set<nat>)
      reads this
    {
      && Building(image, table, owner, freeblock, dirty)
      && 0 < freeinode <= SB.ninodes == |table|
      && (forall i :: freeinode <= i < |table| ==> table[i] == EmptyInode(0, 0))
    }

    lemma Shape(dirty: set<nat>)
      requires Valid(dirty)
      ensures |image| == SB.size && GoodTable(SB, table) && SB.Valid() && SB.DataStart() <= freeblock <= SB.size
    {
    }

    constructor ()
      ensures Valid({}) && FilesBut(image, table, files, -1) && freeinode == 1 && freeblock == SB.DataStart()
      ensures |table| == SB.ninodes && forall i :: 0 <= i < |table| ==> table[i] == EmptyInode(0, 0) && files[i] == []
    {
      image := seq(SB.size, _ => Zeroes);
      freeinode, freeblock := 1, SB.DataStart();
      table := seq(SB.ninodes, _ => EmptyInode(0, 0));
      owner, files := map[], seq(SB.ninodes, _ => []);
      new;
      StartBuilding(image, table);
    }

    /** Hand out the next inode, with one link; false if the inode table is full. */
    method Ialloc(kind: nat) returns (ok: bool, inum: nat)
      requires Valid({}) && FilesBut(image, table, files, -1) && 0 < kind < USHORT
      modifies this
      ensures ok <==> old(freeinode) < SB.ninodes
      ensures !ok ==> image == old(image) && table == old(table)
      ensures ok ==> Valid({}) && FilesBut(image, table, files, -1) && files == old(files)
      ensures ok ==> inum == old(freeinode) && freeinode == inum + 1 && freeblock == old(freeblock) && owner == old(owner)
      ensures ok ==> table == old(table)[inum := EmptyInode(kind, 1)]
    {
      hide Owns; hide Synced; hide Addr; hide SameFile; hide Filled;
      inum := freeinode;
      ok := inum < SB.ninodes;
      if ok {
        Shape({});
        var din := EmptyInode(kind, 1);
        NewInode(image, table, owner, freeblock, files, inum, kind);
        table := table[inum := din];
        BuildingStore(image, table, owner, freeblock, {inum}, inum);
        assert {inum} - {inum} == {};
        ghost var was := image;
        image := StoreDinode(SB, image, inum, din);
        freeinode := inum + 1;
        FilesKeptFilled(was, image, table, files);
      }
    }

    lemma NewInode(v: Image, t: Table, o: Owner, free: nat, fs: seq<seq<Byte>>, i: nat, kind: nat)
      requires Building(v, t, o, free, {}) && FilesBut(v, t, fs, -1) && i < |t| && t[i] == EmptyInode(0, 0)
      requires 0 < kind < USHORT
      ensures Building(v, t[i := EmptyInode(kind, 1)], o, free, {i}) && FilesBut(v, t[i := EmptyInode(kind, 1)], fs, -1)
    {
      hide DinodeAt; hide Word;
      var t' := t[i := EmptyInode(kind, 1)];
      SameAddrsOwn(SB, v, t, t', o);
      assert FileIs(v, t[i], fs[i]);
      assert Content(v, t'[i], fs[i]);
    }

    // Slot k of the inode gets the next free block.
    method NameDirect(inum: nat, din: Dinode, k: nat) returns (din': Dinode)
      requires inum < freeinode && Valid({inum}) && table[inum] == din && din.kind != 0
      requires k <= NDIRECT && |din.addrs| == NDIRECT + 1 && din.addrs[k] == 0 && freeblock < SB.size
      modifies this`freeblock, this`table, this`owner
      ensures Valid({inum}) && table == old(table)[inum := din'] && freeblock == old(freeblock) + 1
      ensures din' == din.(addrs := din.addrs[k := old(freeblock)])
      ensures OneSlotMore(image, din, image, din', k, old(freeblock)) && Grown(image, din, image, din')
    {
      hide Owns; hide Synced; hide Word;
      Shape({inum});
      BuildingDirect(image, table, owner, freeblock, {inum}, inum, k);
      din' := din.(addrs := din.addrs[k := freeblock]);
      OneSlotMoreGrows(image, din, image, din', k, freeblock);
      table := table[inum := din'];
      owner := owner[freeblock := Slot(inum, k)];
      assert {inum} + {inum} == {inum};
      freeblock := freeblock + 1;
    }

    // Entry j of the indirect block gets the next free block.
    method NameEntry(inum: nat, din: Dinode, j: nat)
      requires inum < freeinode && Valid({inum}) && table[inum] == din && j < NINDIRECT && freeblock < SB.size
      requires |din.addrs| == NDIRECT + 1 && din.addrs[NDIRECT] != 0 && Addr(image, din, NDIRECT + 1 + j) == 0
      modifies this`freeblock, this`image, this`owner
      ensures Valid({inum}) && freeblock == old(freeblock) + 1 && |image| == |old(image)|
      ensures OneSlotMore(old(image), din, image, din, NDIRECT + 1 + j, old(freeblock)) && Grown(old(image), din, image, din)
      ensures OthersKept(old(image), image, table, table, inum)
    {
      hide Synced; hide Word; hide SetWord; hide SameFile;
      Shape({inum});
      BuildingEntry(image, table, owner, freeblock, {inum}, inum, j);
      var ind := din.addrs[NDIRECT];
      ghost var was := image;
      image := image[ind := SetWord(image[ind], j, freeblock)];
      OneSlotMoreGrows(was, din, image, din, NDIRECT + 1 + j, freeblock);
      owner := owner[freeblock := Slot(inum, NDIRECT + 1 + j)];
      freeblock := freeblock + 1;
    }

    // The block that byte |c| goes to, handed out if it is not there; false if the image is full.
    method MakeReady(inum: nat, din: Dinode, off: nat, ghost c: seq<Byte>) returns (ok: bool, din': Dinode)
      requires inum < freeinode && Valid({inum}) && table[inum] == din && din.kind != 0 && FilesBut(image, table, files, inum)
      requires Filled(image, din, c) && off == |c| < MAXFILE * BSIZE
      modifies this`freeblock, this`image, this`table, this`owner
      ensures Valid({inum}) && table == old(table)[inum := din'] && FilesBut(image, table, files, inum)
      ensures SameHeader(din, din') && din'.Valid() && (ok ==> Ready(image, din', c))
    {
      hide Building; hide SameFile; hide Word; hide Filled; hide Ready;
      Shape({inum});
      FilledReady(image, din, c);
      ok, din' := true, din;
      var bn := off / BSIZE;
      if bn < NDIRECT {
        if din.addrs[bn] == 0 {
          if freeblock == SB.size { return false, din; }
          ghost var t, b := table, freeblock;
          din' := NameDirect(inum, din, bn);
          AttachedReady(image, din, image, din', c, b);
          KeptRefl(image, t, table, inum);
          OtherFilesBut(image, image, t, table, files, inum);
        }
      } else {
        ok, din' := MakeReadyIndirect(inum, din, off, c);
      }
    }

    method MakeReadyIndirect(inum: nat, din: Dinode, off: nat, ghost c: seq<Byte>) returns (ok: bool, din': Dinode)
      requires inum < freeinode && Valid({inum}) && table[inum] == din && din.kind != 0 && FilesBut(image, table, files, inum)
      requires Filled(image, din, c) && off == |c| < MAXFILE * BSIZE && off / BSIZE >= NDIRECT
      modifies this`freeblock, this`image, this`table, this`owner
      ensures Valid({inum}) && table == old(table)[inum := din'] && FilesBut(image, table, files, inum)
      ensures SameHeader(din, din') && din'.Valid() && (ok ==> Ready(image, din', c))
    {
      hide Building; hide SameFile; hide Word; hide Filled; hide Ready;
      Shape({inum});
      ok, din' := true, din;
      if din.addrs[NDIRECT] == 0 {
        if freeblock == SB.size { return false, din; }
        ghost var t, b := table, freeblock;
        din' := NameDirect(inum, din, NDIRECT);
        IndirectFilled(image, din, image, din', c, b);
        KeptRefl(image, t, table, inum);
        OtherFilesBut(image, image, t, table, files, inum);
      }
      IndirectInRange(inum);
      FilledReady(image, din', c);
      var j := off / BSIZE - NDIRECT;
      if Word(image[din'.addrs[NDIRECT]], j) == 0 {
        if freeblock == SB.size { ok := false; return; }
        ghost var was, b := image, freeblock;
        NameEntry(inum, din', j);
        AttachedReady(was, din', image, din', c, b);
        OtherFilesBut(was, image, table, table, files, inum);
      }
    }

    lemma IndirectInRange(inum: nat)
      requires Valid({inum}) && inum < |table| && |table[inum].addrs| == NDIRECT + 1 && table[inum].addrs[NDIRECT] != 0
      ensures table[inum].addrs[NDIRECT] < |image|
    {
      assert Addr(image, table[inum], NDIRECT) == table[inum].addrs[NDIRECT];
    }

    // Copy a chunk into one block, between reading and writing it.
    method PutChunk(inum: nat, din: Dinode, off: nat, chunk: seq<Byte>, ghost c: seq<Byte>)
      requires inum < freeinode && Valid({inum}) && table[inum] == din && FilesBut(image, table, files, inum)
      requires Ready(image, din, c) && off == |c| && chunk != [] && |c| % BSIZE + |chunk| <= BSIZE
      modifies this`image
      ensures Valid({inum}) && FilesBut(image, table, files, inum) && Filled(image, din, c + chunk)
    {
      hide Synced; hide SameFile; hide Word; hide Addr; hide Filled; hide Splice; hide Content;
      AppendFilled(image, table, owner, inum, c, chunk);
      var x := Addr(image, din, BlockSlot(off / BSIZE));
      BuildingData(image, table, owner, freeblock, {inum}, x, Splice(image[x], off % BSIZE, chunk));
      ghost var was := image;
      image := image[x := Splice(image[x], off % BSIZE, chunk)];
      OtherFilesBut(was, image, table, table, files, inum);
    }

    // The new size goes to the inode, and the inode to the image.
    method StoreSize(inum: nat, din: Dinode, off: nat, ghost c: seq<Byte>)
      requires inum < freeinode && Valid({inum}) && table[inum] == din && FilesBut(image, table, files, inum)
      requires Filled(image, din, c) && off == |c| && din.kind != 0
      modifies this`image, this`table, this`files
      ensures Valid({}) && FilesBut(image, table, files, -1)
      ensures table == old(table)[inum := din.(size := off)] && files == old(files)[inum := c]
    {
      hide Synced; hide SameFile; hide Word; hide Owns; hide Filled;
      Shape({inum});
      FilledSmall(image, din, c);
      SizeBuilding(image, table, owner, freeblock, inum, off);
      var din' := din.(size := off);
      ResizedFilled(image, din, din', c);
      table := table[inum := din'];
      files := files[inum := c];
      BuildingStore(image, table, owner, freeblock, {inum}, inum);
      assert {inum} - {inum} == {};
      ghost var was := image;
      image := StoreDinode(SB, image, inum, din');
      FilesKeptFilled(was, image, table, files);
    }

    /**
      Append data to a file; false if the image or the file is full.  The contents of
      the file grow by exactly the data and no other file changes.
     */
    method Iappend(inum: nat, data: seq<Byte>) returns (ok: bool)
      requires inum < freeinode && Valid({}) && FilesBut(image, table, files, -1) && table[inum].kind != 0
      modifies this`image, this`table, this`owner, this`files, this`freeblock
      ensures ok ==> Valid({}) && FilesBut(image, table, files, -1) && |table| == |old(table)|
      ensures ok ==> files == old(files)[inum := old(files)[inum] + data]
      ensures ok ==> table[inum].kind == old(table)[inum].kind && table[inum].nlink == old(table)[inum].nlink
      ensures ok ==> forall i :: 0 <= i < |table| && i != inum ==> table[i] == old(table)[i]
    {
      hide Building; hide SameFile; hide Filled; hide Ready;
      Shape({});
      ReadsTable(inum);
      var din := DinodeAt(SB, image, inum);
      ghost var c0 := files[inum];
      assert FileIs(image, table[inum], c0);
      DirtyBuilding(image, table, owner, freeblock, inum);
      FilledSmall(image, din, c0);
      var off, p := din.size, 0;
      assert c0 + data[..0] == c0;
      while p < |data|
        invariant 0 <= p <= |data| && off == |c0| + p && |table| == |old(table)| == SB.ninodes && files == old(files)
        invariant Valid({inum}) && table[inum] == din && FilesBut(image, table, files, inum) && Filled(image, din, c0 + data[..p])
        invariant SameHeader(old(table)[inum], din) && off <= MAXFILE * BSIZE
        invariant forall i :: 0 <= i < |table| && i != inum ==> table[i] == old(table)[i]
      {
        if off / BSIZE >= MAXFILE {
          return false;
        }
        ok, din := MakeReady(inum, din, off, c0 + data[..p]);
        if !ok {
          return;
        }
        var n1 := if |data| - p < BSIZE - off % BSIZE then |data| - p else BSIZE - off % BSIZE;
        PutChunk(inum, din, off, data[p..p + n1], c0 + data[..p]);
        assert c0 + data[..p] + data[p..p + n1] == c0 + data[..p + n1];
        p, off := p + n1, off + n1;
      }
      assert data[..|data|] == data;
      StoreSize(inum, din, off, c0 + data);
      ok := true;
    }

    /** Write the bitmap: the first freeblock blocks are in use.  The image is then consistent. */
    method Balloc()
      requires Valid({})
      modifies this`image
      ensures Valid({}) && FilesKept(old(image), image, table)
      ensures Consistent(SB, image, table, owner, {}, {})
    {
      hide Owns; hide Synced; hide Addr; hide SameFile; hide BitIn; hide FreeInodesEmpty;
      Shape({});
      assert freeblock < BPB;
      var buf := Zeroes;
      ZeroBits();
      var i := 0;
      while i < freeblock
        invariant 0 <= i <= freeblock
        invariant forall b :: 0 <= b < BPB ==> (BitIn(buf, b) <==> b < i)
      {
        buf := SetBitIn(buf, i, true);
        i := i + 1;
      }
      BuildingBitmap(image, table, owner, freeblock, buf);
      image := image[SB.bmapstart := buf];
      BuiltIsConsistent(image, table, owner, freeblock);
    }

    lemma BuildingBitmap(v: Image, t: Table, o: Owner, free: nat, buf: Block)
      requires Building(v, t, o, free, {}) && forall b :: 0 <= b < BPB ==> (BitIn(buf, b) <==> b < free)
      ensures var v' := v[SB.bmapstart := buf];
        && Building(v', t, o, free, {}) && FilesKept(v, v', t)
        && forall b :: 0 <= b < SB.size ==> (InUse(SB, v', b) <==> b < free)
    {
      hide DinodeAt; hide Addr; hide SameFile; hide BitIn;
      WriteUnowned(SB, v, t, o, SB.bmapstart, buf);
      SyncedKept(SB, v, t, {}, SB.bmapstart, buf);
    }

    lemma ZeroBits()
      ensures forall b :: 0 <= b < BPB ==> !BitIn(Zeroes, b)
    {
      forall b | 0 <= b < BPB
        ensures !BitIn(Zeroes, b)
      {
        ZeroBit(b % 8);
      }
    }

    lemma {:induction false} ZeroBit(i: nat)
      ensures !BitOf(0, i)
    {
      if i > 0 { ZeroBit(i - 1); }
    }

    /**
      The size of the root directory goes up to the next multiple of BSIZE above it.  When
      it already was a multiple of BSIZE, the last block is then one that is not there: the
      root is hole-free exactly when it was not.
     */
    method FixRoot(root: nat)
      requires root < freeinode && Valid({}) && FilesBut(image, table, files, -1) && table[root].kind != 0
      requires |files[root]| < MAXFILE * BSIZE
      modifies this`image, this`table
      ensures Valid({}) && FilesBut(image, table, files, root)
      ensures |table| == |old(table)| && table[root].size == (|files[root]| / BSIZE + 1) * BSIZE
      ensures HoleFree(image, table[root]) <==> |files[root]| % BSIZE != 0
      ensures |files[root]| % BSIZE == 0 ==> Hole(image, table[root], |files[root]| / BSIZE)
      ensures forall p :: 0 <= p < |files[root]| ==> p < MAXFILE * BSIZE && table[root].Valid() && ByteAt(image, table[root], p) == files[root][p]
    {
      hide Building; hide SameFile; hide Word;
      Shape({});
      ReadsTable(root);
      var din := DinodeAt(SB, image, root);
      ghost var c := files[root];
      assert FileIs(image, din, c);
      DirtyBuilding(image, table, owner, freeblock, root);
      var off := (din.size / BSIZE + 1) * BSIZE;
      var din' := din.(size := off);
      RootHoles(image, din, din', c);
      SizeBuilding(image, table, owner, freeblock, root, off);
      table := table[root := din'];
      BuildingStore(image, table, owner, freeblock, {root}, root);
      assert {root} - {root} == {};
      ghost var was := image;
      image := StoreDinode(SB, image, root, din');
      FilesKeptOthers(was, image, table, root);
      OtherFilesBut(was, image, table, table, files, root);
      SameFileRoot(was, image, din', c);
    }

    // One file of the command line: its inode, its directory entry, its contents.
    method AddFile(root: nat, f: HostFile) returns (ok: bool)
      requires root < freeinode && Valid({}) && FilesBut(image, table, files, -1) && table[root].kind != 0
      modifies this
      ensures ok ==> Valid({}) && FilesBut(image, table, files, -1) && |table| == |old(table)|
      ensures ok ==> freeinode == old(freeinode) + 1 && table[root].kind != 0
      ensures ok ==> old(freeinode) < |files| == |old(files)| && files[old(freeinode)] == old(files)[old(freeinode)] + Concat(f.chunks)
      ensures ok ==> files[root] == old(files)[root] + f.dirent
      ensures ok ==> forall i :: 0 <= i < |files| && i != root && i != old(freeinode) ==> files[i] == old(files)[i]
    {
      hide Building; hide FileIs;
      Shape({});
      var inum;
      ok, inum := Ialloc(T_FILE);
      if !ok { return; }
      ok := Iappend(root, f.dirent);
      if !ok { return; }
      ghost var was := files;
      assert was[inum] + Concat([]) == was[inum];
      assert f.chunks[..0] == [];
      var k := 0;
      while k < |f.chunks|
        invariant 0 <= k <= |f.chunks| && Valid({}) && FilesBut(image, table, files, -1) && |table| == |old(table)|
        invariant freeinode == inum + 1 && table[root].kind != 0 && table[inum].kind != 0
        invariant files == was[inum := was[inum] + Concat(f.chunks[..k])]
      {
        ok := Iappend(inum, f.chunks[k]);
        if !ok { return; }
        assert f.chunks[..k + 1][..k] == f.chunks[..k];
        assert was[inum] + Concat(f.chunks[..k]) + f.chunks[k] == was[inum] + Concat(f.chunks[..k + 1]);
        k := k + 1;
      }
      assert f.chunks[..k] == f.chunks;
      ok := true;
    }

    lemma ReadsTable(inum: nat)
      requires Valid({}) && inum < |table|
      ensures |image| == SB.size && DinodeAt(SB, image, inum) == table[inum]
    {
    }

    lemma DirtyBuilding(v: Image, t: Table, o: Owner, free: nat, i: nat)
      requires Building(v, t, o, free, {})
      ensures Building(v, t, o, free, {i})
    {
      hide Addr;
    }

    lemma SizeBuilding(v: Image, t: Table, o: Owner, free: nat, i: nat, size: nat)
      requires Building(v, t, o, free, {i}) && i < |t| && size < UINT && t[i].kind != 0
      ensures Building(v, t[i := t[i].(size := size)], o, free, {i})
    {
      hide Word; hide DinodeAt;
      var t' := t[i := t[i].(size := size)];
      assert forall j :: 0 <= j < |t| ==> t'[j].Valid() && t'[j].addrs == t[j].addrs;
      SameAddrsOwn(SB, v, t, t', o);
    }
  }

  /**
    mkfs as a whole: unless it runs out of inodes or blocks, the image satisfies the
    file system invariant, file number i holds exactly its data and is hole-free, and
    the root is hole-free exactly when its entries (64 to a block) do not end on a
    block boundary.
   */
  method MakeImage(dot: Dirent, dotdot: Dirent, host: seq<HostFile>) returns (ok: bool, m: Maker)
    ensures ok ==> Consistent(SB, m.image, m.table, m.owner, {}, {})
    ensures ok ==> |host| + 2 <= |m.table| == SB.ninodes
    ensures ok ==> forall i :: 0 <= i < |host| ==>
      var d := m.table[2 + i]; HoleFree(m.image, d) && Bytes(m.image, d) == Concat(host[i].chunks)
    ensures ok ==> (HoleFree(m.image, m.table[ROOTINO]) <==> (|host| + 2) % 64 != 0)
    ensures ok ==> m.table[ROOTINO].size == ((|host| + 2) / 64 + 1) * BSIZE
    ensures ok && (|host| + 2) % 64 == 0 ==> Hole(m.image, m.table[ROOTINO], (|host| + 2) / 64)
  {
    hide Building; hide FileIs; hide Consistent; hide HoleFree; hide Bytes; hide SameFile; hide Hole;
    m := new Maker();
    var root;
    ok, root := m.Ialloc(T_DIR);
    if !ok { return; }
    ok := m.Iappend(root, dot);
    if !ok { return; }
    ok := m.Iappend(root, dotdot);
    if !ok { return; }
    var i := 0;
    while i < |host|
      invariant 0 <= i <= |host| && m.Valid({}) && FilesBut(m.image, m.table, m.files, -1) && fresh(m)
      invariant root == 1 && m.freeinode == 2 + i && m.table[root].kind != 0
      invariant |m.files[root]| == 16 * (2 + i)
      invariant forall j :: 0 <= j < i ==> m.files[2 + j] == Concat(host[j].chunks)
      invariant forall j :: 2 + i <= j < |m.files| ==> m.files[j] == []
    {
      ok := m.AddFile(root, host[i]);
      if !ok { return; }
      i := i + 1;
    }
    EntriesPerBlock(|host| + 2);
    m.FixRoot(root);
    ghost var was := m.image;
    m.Balloc();
    m.Shape({});
    FinalFiles(was, m.image, m.table, m.files, root);
    ok := true;
  }

  lemma EntriesPerBlock(n: nat)
    ensures 16 * n / BSIZE == n / 64 && (16 * n % BSIZE == 0 <==> n % 64 == 0)
  {
    assert 16 * n == BSIZE * (n / 64) + 16 * (n % 64);
  }

  lemma FinalFiles(view: Image, view': Image, table: Table, files: seq<seq<Byte>>, root: nat)
    requires FilesBut(view, table, files, root) && FilesKept(view, view', table) && root < |table| && table[root].Valid()
    ensures forall i :: 0 <= i < |table| && i != root ==> HoleFree(view', table[i]) && Bytes(view', table[i]) == files[i]
    ensures HoleFree(view', table[root]) <==> HoleFree(view, table[root])
    ensures forall bn: nat :: Hole(view, table[root], bn) ==> Hole(view', table[root], bn)
  {
    hide Addr; hide ByteAt;
    forall i | 0 <= i < |table| && i != root
      ensures HoleFree(view', table[i]) && Bytes(view', table[i]) == files[i]
    {
      ContentIsBytes(view, table[i], files[i]);
      SameFileBytes(view, view', table[i]);
    }
    assert SameFile(view, view', table[root]);
  }

  lemma RootHoles(view: Image, d: Dinode, d': Dinode, c: seq<Byte>)
    requires FileIs(view, d, c) && |c| < MAXFILE * BSIZE && d' == d.(size := (|c| / BSIZE + 1) * BSIZE) && d'.Valid()
    ensures HoleFree(view, d') <==> |c| % BSIZE != 0
    ensures |c| % BSIZE == 0 ==> Hole(view, d', |c| / BSIZE)
    ensures Content(view, d', c)
  {
    hide Word; hide ByteAt;
    assert d.Valid();
    ResizedContent(view, d, d', c);
    assert forall k :: 0 <= k < SLOTS ==> Addr(view, d', k) == Addr(view, d, k);
    assert BlockCount(d'.size) == |c| / BSIZE + 1;
    assert |c| % BSIZE != 0 ==> BlockCount(|c|) == |c| / BSIZE + 1;
    assert |c| % BSIZE == 0 ==> BlockCount(|c|) == |c| / BSIZE;
    if |c| % BSIZE == 0 {
      assert Addr(view, d, BlockSlot(|c| / BSIZE)) == 0;
    }
  }

  lemma SameFileRoot(view: Image, view': Image, d: Dinode, c: seq<Byte>)
    requires SameFile(view, view', d) && Content(view, d, c)
    ensures HoleFree(view', d) <==> HoleFree(view, d)
    ensures forall bn: nat :: Hole(view, d, bn) ==> Hole(view', d, bn)
    ensures Content(view', d, c)
  {
    hide Addr; hide ByteAt;
    assert Grown(view, d, view', d);
    GrownContent(view, d, view', d, c);
  }

  lemma FilledSmall(view: Image, d: Dinode, c: seq<Byte>)
    requires Filled(view, d, c)
    ensures |c| <= MAXFILE * BSIZE && d.Valid()
  {
  }

  lemma ResizedFilled(view: Image, d: Dinode, d': Dinode, c: seq<Byte>)
    requires Filled(view, d, c) && d'.Valid() && d'.addrs == d.addrs
    ensures Filled(view, d', c)
  {
    hide Word; hide Content;
    FilledSmall(view, d, c);
    ResizedContent(view, d, d', c);
    assert forall k :: 0 <= k < SLOTS ==> Addr(view, d', k) == Addr(view, d, k);
  }

  lemma KeptRefl(view: Image, table: Table, table': Table, i: nat)
    requires |table'| == |table| && forall j :: 0 <= j < |table| && j != i ==> table'[j] == table[j] && table[j].Valid()
    ensures OthersKept(view, view, table, table', i)
  {
  }
}
