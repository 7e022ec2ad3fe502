/**
  Which block belongs to which inode, and what bytes a file holds.

  Every inode has SLOTS address slots: twelve direct ones, the indirect block,
  and the entries of the indirect block.  `owner` records, for each block some
  slot names, the one slot that does; `loose` holds blocks marked in use that no
  slot names yet.
 */
module Ownership {
  import opened Blocks
  import opened Layout

  const SLOTS: nat := NDIRECT + 1 + NINDIRECT

  type Table = seq<Dinode>

  datatype Slot = Slot(inum: nat, k: nat)

  type Owner = map<nat, Slot>

  /** The block that slot k of inode d names, or 0. */
  function Addr(view: Image, d: Dinode, k: nat): nat
    requires |d.addrs| == NDIRECT + 1 && k < SLOTS
  {
    if k <= NDIRECT then d.addrs[k]
    else if d.addrs[NDIRECT] == 0 || d.addrs[NDIRECT] >= |view| then 0
    else Word(view[d.addrs[NDIRECT]], k - NDIRECT - 1)
  }

  ghost predicate GoodTable(sb: Superblock, table: Table) {
    |table| == sb.ninodes && forall i :: 0 <= i < |table| ==> table[i].Valid()
  }

  /** Every block a slot names is a data block that no other slot names. */
  ghost predicate Owns(sb: Superblock, view: Image, table: Table, owner: Owner) {
    && sb.Valid() && |view| == sb.size && GoodTable(sb, table)
    && (forall i, k :: 0 <= i < |table| && 0 <= k < SLOTS && Addr(view, table[i], k) != 0 ==>
          Addr(view, table[i], k) in owner && owner[Addr(view, table[i], k)] == Slot(i, k))
    && (forall b :: b in owner ==>
          && sb.DataStart() <= b < sb.size && owner[b].inum < |table| && owner[b].k < SLOTS
          && Addr(view, table[owner[b].inum], owner[b].k) == b)
  }

  /** The bitmap marks exactly the metadata, the owned and the loose blocks. */
  ghost predicate Marks(sb: Superblock, view: Image, owner: Owner, loose: set<nat>)
    requires sb.Valid() && |view| == sb.size
  {
    && (forall b :: b in loose ==> sb.DataStart() <= b < sb.size && b !in owner)
    && (forall b :: 0 <= b < sb.size ==> (InUse(sb, view, b) <==> b < sb.DataStart() || b in owner || b in loose))
  }

  // ---------------------------------------------------------------- contents

  // The slot of block number bn of a file.
  function BlockSlot(bn: nat): nat {
    if bn < NDIRECT then bn else bn + 1
  }

  function BlockCount(size: nat): nat {
    (size + BSIZE - 1) / BSIZE
  }

  /** Every block below the file size is there. */
  ghost predicate HoleFree(view: Image, d: Dinode) {
    && d.Valid() && d.size <= MAXFILE * BSIZE
    && forall bn :: 0 <= bn < BlockCount(d.size) ==> 0 < Addr(view, d, BlockSlot(bn)) < |view|
  }

  function ByteAt(view: Image, d: Dinode, p: nat): Byte
    requires d.Valid() && p < MAXFILE * BSIZE
  {
    var a := Addr(view, d, BlockSlot(p / BSIZE));
    if 0 < a < |view| then view[a][p % BSIZE] else 0
  }

  /** The contents of a file: one plain sequence of bytes. */
  ghost function Bytes(view: Image, d: Dinode): (r: seq<Byte>)
    requires d.Valid() && d.size <= MAXFILE * BSIZE
    ensures |r| == d.size
  {
    seq(d.size, p requires 0 <= p < d.size => ByteAt(view, d, p))
  }

  // Two images give inode d the same slots and the same contents.
  ghost predicate SameFile(view: Image, view': Image, d: Dinode) {
    && d.Valid() && |view| == |view'|
    && (forall k :: 0 <= k < SLOTS ==> Addr(view', d, k) == Addr(view, d, k))
    && (forall k :: 0 <= k < SLOTS && k != NDIRECT && 0 < Addr(view, d, k) < |view| ==>
          view'[Addr(view, d, k)] == view[Addr(view, d, k)])
  }

  lemma SameFileBytes(view: Image, view': Image, d: Dinode)
    requires SameFile(view, view', d) && HoleFree(view, d)
    ensures HoleFree(view', d) && Bytes(view', d) == Bytes(view, d)
  {
    hide Word;
    assert forall bn :: 0 <= bn < BlockCount(d.size) ==> BlockSlot(bn) < SLOTS && BlockSlot(bn) != NDIRECT;
    forall p | 0 <= p < d.size
      ensures ByteAt(view', d, p) == ByteAt(view, d, p)
    {
      assert p / BSIZE < BlockCount(d.size);
    }
  }

  /** Writing blocks that are not inode i's leaves its file as it was. */
  lemma OtherFileKept(sb: Superblock, view: Image, view': Image, table: Table, owner: Owner, i: nat)
    requires Owns(sb, view, table, owner) && i < |table| && |view'| == |view|
    requires forall b :: 0 <= b < |view| && b in owner && owner[b].inum == i ==> view'[b] == view[b]
    ensures SameFile(view, view', table[i])
  {
    hide Word;
    var d := table[i];
    var ind := Addr(view, d, NDIRECT);
    assert ind != 0 ==> ind in owner && owner[ind] == Slot(i, NDIRECT);
    forall k | 0 <= k < SLOTS
      ensures Addr(view', d, k) == Addr(view, d, k)
    {
    }
  }

  // ---------------------------------------------------------------- changes

  /** Writing a block that no slot owns changes no slot. */
  lemma WriteUnowned(sb: Superblock, view: Image, table: Table, owner: Owner, b: nat, data: Block)
    requires Owns(sb, view, table, owner) && b < |view| && b !in owner
    ensures Owns(sb, view[b := data], table, owner)
    ensures forall i :: 0 <= i < |table| ==> SameFile(view, view[b := data], table[i])
  {
    hide Word;
    var view' := view[b := data];
    forall i | 0 <= i < |table|
      ensures SameFile(view, view', table[i])
    {
      OtherFileKept(sb, view, view', table, owner, i);
    }
    SameSlotsOwn(sb, view, view', table, owner);
  }

  lemma SameSlotsOwn(sb: Superblock, view: Image, view': Image, table: Table, owner: Owner)
    requires Owns(sb, view, table, owner) && |view'| == |view|
    requires forall i, k :: 0 <= i < |table| && 0 <= k < SLOTS ==> Addr(view', table[i], k) == Addr(view, table[i], k)
    ensures Owns(sb, view', table, owner)
  {
    hide Addr;
  }

  /** Writing a data block of a file changes no slot, and no other file. */
  lemma WriteData(sb: Superblock, view: Image, table: Table, owner: Owner, b: nat, data: Block)
    requires Owns(sb, view, table, owner) && b in owner && owner[b].k != NDIRECT
    ensures Owns(sb, view[b := data], table, owner)
    ensures forall i :: 0 <= i < |table| && i != owner[b].inum ==> SameFile(view, view[b := data], table[i])
    ensures forall k :: 0 <= k < SLOTS ==> Addr(view[b := data], table[owner[b].inum], k) == Addr(view, table[owner[b].inum], k)
  {
    hide Word;
    var view' := view[b := data];
    forall i | 0 <= i < |table| && i != owner[b].inum
      ensures SameFile(view, view', table[i])
    {
      OtherFileKept(sb, view, view', table, owner, i);
    }
    var d := table[owner[b].inum];
    assert Addr(view, d, NDIRECT) != b;
    SameSlotsOwn(sb, view, view', table, owner);
  }

  // The slots of inode i after slot k came to name b.
  ghost predicate OneSlotMore(view: Image, d: Dinode, view': Image, d': Dinode, k: nat, b: nat) {
    && d.Valid() && d'.Valid() && k < SLOTS
    && forall j :: 0 <= j < SLOTS ==> Addr(view', d', j) == if j == k then b else Addr(view, d, j)
  }

  lemma AttachSlot(sb: Superblock, view: Image, table: Table, owner: Owner, view': Image, i: nat, d': Dinode, k: nat, b: nat)
    requires Owns(sb, view, table, owner) && |view'| == |view| && i < |table| && k < SLOTS
    requires sb.DataStart() <= b < sb.size && b !in owner && Addr(view, table[i], k) == 0
    requires OneSlotMore(view, table[i], view', d', k, b)
    requires forall j, m :: 0 <= j < |table| && j != i && 0 <= m < SLOTS ==> Addr(view', table[j], m) == Addr(view, table[j], m)
    ensures Owns(sb, view', table[i := d'], owner[b := Slot(i, k)])
  {
    hide Addr;
    var table', owner' := table[i := d'], owner[b := Slot(i, k)];
    forall j, m | 0 <= j < |table'| && 0 <= m < SLOTS && Addr(view', table'[j], m) != 0
      ensures Addr(view', table'[j], m) in owner' && owner'[Addr(view', table'[j], m)] == Slot(j, m)
    {
      if j == i && m == k {
      } else {
        assert Addr(view', table'[j], m) == Addr(view, table[j], m);
      }
    }
  }

  /** Naming a loose block in a direct slot, or a zeroed one as the indirect block. */
  lemma AttachDirect(sb: Superblock, view: Image, table: Table, owner: Owner, i: nat, k: nat, b: nat)
    requires Owns(sb, view, table, owner) && i < |table| && k <= NDIRECT && table[i].addrs[k] == 0
    requires sb.DataStart() <= b < sb.size && b !in owner && (k == NDIRECT ==> view[b] == Zeroes)
    ensures var d' := table[i].(addrs := table[i].addrs[k := b]);
      && OneSlotMore(view, table[i], view, d', k, b)
      && Owns(sb, view, table[i := d'], owner[b := Slot(i, k)])
  {
    hide Owns;
    ZeroWords();
    AttachDirectSlots(sb, view, table, owner, i, k, b);
    AttachSlot(sb, view, table, owner, view, i, table[i].(addrs := table[i].addrs[k := b]), k, b);
  }

  lemma ZeroWords()
    ensures forall j :: 0 <= j < WORDS ==> Word(Zeroes, j) == 0
  {
  }

  lemma AttachDirectSlots(sb: Superblock, view: Image, table: Table, owner: Owner, i: nat, k: nat, b: nat)
    requires Owns(sb, view, table, owner) && i < |table| && k <= NDIRECT && table[i].addrs[k] == 0
    requires sb.DataStart() <= b < sb.size && (k == NDIRECT ==> view[b] == Zeroes)
    ensures OneSlotMore(view, table[i], view, table[i].(addrs := table[i].addrs[k := b]), k, b)
  {
    hide Word;
    ZeroWords();
  }

  /** Naming a loose block in an entry of the indirect block. */
  lemma AttachEntry(sb: Superblock, view: Image, table: Table, owner: Owner, i: nat, j: nat, b: nat)
    requires Owns(sb, view, table, owner) && i < |table| && j < NINDIRECT && table[i].addrs[NDIRECT] != 0
    requires Addr(view, table[i], NDIRECT + 1 + j) == 0 && sb.DataStart() <= b < sb.size && b !in owner
    ensures table[i].addrs[NDIRECT] < |view|
    ensures var ind := table[i].addrs[NDIRECT]; var view' := view[ind := SetWord(view[ind], j, b)];
      && OneSlotMore(view, table[i], view', table[i], NDIRECT + 1 + j, b)
      && Owns(sb, view', table, owner[b := Slot(i, NDIRECT + 1 + j)])
      && (forall m :: 0 <= m < |table| && m != i ==> SameFile(view, view', table[m]))
  {
    hide Word; hide SetWord;
    var ind := table[i].addrs[NDIRECT];
    assert Addr(view, table[i], NDIRECT) == ind && owner[ind] == Slot(i, NDIRECT);
    var view' := view[ind := SetWord(view[ind], j, b)];
    forall m | 0 <= m < |table| && m != i
      ensures SameFile(view, view', table[m])
    {
      OtherFileKept(sb, view, view', table, owner, m);
    }
    assert table[i := table[i]] == table;
    AttachSlot(sb, view, table, owner, view', i, table[i], NDIRECT + 1 + j, b);
  }

  // ---------------------------------------------------------------- truncation

  ghost function OwnedBy(owner: Owner, i: nat): (r: set<nat>)
    ensures forall b :: b in r <==> b in owner && owner[b].inum == i
  {
    set b | b in owner && owner[b].inum == i
  }

  /** An inode whose addresses are all cleared owns nothing; its blocks become loose. */
  lemma DetachAll(sb: Superblock, view: Image, table: Table, owner: Owner, i: nat, d': Dinode)
    requires Owns(sb, view, table, owner) && i < |table| && d'.Valid()
    requires forall k :: 0 <= k <= NDIRECT ==> d'.addrs[k] == 0
    ensures Owns(sb, view, table[i := d'], owner - OwnedBy(owner, i))
  {
    hide Word;
  }

  lemma MarksDetached(sb: Superblock, view: Image, owner: Owner, loose: set<nat>, i: nat)
    requires sb.Valid() && |view| == sb.size && Marks(sb, view, owner, loose)
    requires forall b :: b in owner ==> sb.DataStart() <= b < sb.size
    ensures Marks(sb, view, owner - OwnedBy(owner, i), loose + OwnedBy(owner, i))
  {
    hide InUse;
  }

  // ---------------------------------------------------------------- the other readings

  /** A block outside the bitmap can be written without changing any mark. */
  lemma MarksKept(sb: Superblock, view: Image, owner: Owner, loose: set<nat>, b: nat, data: Block)
    requires sb.Valid() && |view| == sb.size && Marks(sb, view, owner, loose)
    requires b < |view| && (b < sb.bmapstart || sb.DataStart() <= b)
    ensures Marks(sb, view[b := data], owner, loose)
  {
    hide BitIn;
    forall c | 0 <= c < sb.size
      ensures InUse(sb, view[b := data], c) == InUse(sb, view, c)
    {
      assert c / BPB <= (sb.size - 1) / BPB;
    }
  }

  ghost predicate Synced(sb: Superblock, view: Image, table: Table, dirty: set<nat>)
    requires sb.Valid() && |view| == sb.size && |table| == sb.ninodes
  {
    forall i :: 0 <= i < sb.ninodes && i !in dirty ==> DinodeAt(sb, view, i) == table[i]
  }

  /** A block past the inode table can be written without changing any on-disk inode. */
  lemma SyncedKept(sb: Superblock, view: Image, table: Table, dirty: set<nat>, b: nat, data: Block)
    requires sb.Valid() && |view| == sb.size && |table| == sb.ninodes && Synced(sb, view, table, dirty)
    requires b < |view| && sb.bmapstart <= b
    ensures Synced(sb, view[b := data], table, dirty)
  {
    hide DinodeIn;
    forall i | 0 <= i < sb.ninodes
      ensures sb.IBlock(i) < sb.bmapstart
    {
      assert i / IPB <= (sb.ninodes - 1) / IPB;
    }
  }

  // ---------------------------------------------------------------- the file system invariant

  /**
    Ownership, the bitmap and the inode table together.  `dirty` are the inodes
    whose in-memory copy is newer than the one on disk.
   */
  ghost predicate Consistent(sb: Superblock, view: Image, table: Table, owner: Owner, loose: set<nat>, dirty: set<nat>) {
    && Owns(sb, view, table, owner)
    && Marks(sb, view, owner, loose)
    && Synced(sb, view, table, dirty)
    && FreeInodesEmpty(table)
  }

  // A free inode names no block.
  ghost predicate FreeInodesEmpty(table: Table) {
    forall i, k :: 0 <= i < |table| && table[i].kind == 0 && 0 <= k < |table[i].addrs| ==> table[i].addrs[k] == 0
  }

  ghost predicate FilesKept(view: Image, view': Image, table: Table) {
    forall i :: 0 <= i < |table| ==> SameFile(view, view', table[i])
  }

  lemma SameFileTrans(u: Image, v: Image, w: Image, table: Table)
    requires FilesKept(u, v, table) && FilesKept(v, w, table)
    ensures FilesKept(u, w, table)
  {
    hide Addr;
    forall i | 0 <= i < |table|
      ensures SameFile(u, w, table[i])
    {
      assert SameFile(u, v, table[i]) && SameFile(v, w, table[i]);
    }
  }

  /** Marking an unowned block, and writing it, keeps every file. */
  lemma MarkKeeps(sb: Superblock, view: Image, table: Table, owner: Owner, dirty: set<nat>, b: nat, on: bool)
    requires Owns(sb, view, table, owner) && Synced(sb, view, table, dirty) && b < sb.size
    ensures var view' := Mark(sb, view, b, on);
      Owns(sb, view', table, owner) && Synced(sb, view', table, dirty) && FilesKept(view, view', table)
  {
    hide InUse; hide DinodeAt; hide Addr; hide SameFile;
    var bb := sb.BBlock(b);
    var view' := Mark(sb, view, b, on);
    assert bb !in owner by { assert b / BPB <= (sb.size - 1) / BPB; }
    WriteUnowned(sb, view, table, owner, bb, view'[bb]);
    SyncedKept(sb, view, table, dirty, bb, view'[bb]);
  }

  /** balloc: a block the bitmap calls free becomes loose, and is zeroed. */
  lemma AllocateConsistent(sb: Superblock, view: Image, table: Table, owner: Owner, loose: set<nat>, dirty: set<nat>, b: nat)
    requires Consistent(sb, view, table, owner, loose, dirty) && b < sb.size && !InUse(sb, view, b)
    ensures var view' := Mark(sb, view, b, true)[b := Zeroes];
      && sb.DataStart() <= b && b !in owner && b !in loose
      && Consistent(sb, view', table, owner, loose + {b}, dirty) && FilesKept(view, view', table)
  {
    hide Owns; hide InUse; hide DinodeAt; hide SameFile;
    OwnsUnfolds(sb, view, table, owner);
    var marked := Mark(sb, view, b, true);
    assert b !in owner && sb.DataStart() <= b;
    MarkKeeps(sb, view, table, owner, dirty, b, true);
    OwnsUnfolds(sb, marked, table, owner);
    WriteUnowned(sb, marked, table, owner, b, Zeroes);
    SyncedKept(sb, marked, table, dirty, b, Zeroes);
    MarksKept(sb, marked, owner, loose + {b}, b, Zeroes);
    SameFileTrans(view, marked, marked[b := Zeroes], table);
  }

  lemma OwnsUnfolds(sb: Superblock, view: Image, table: Table, owner: Owner)
    requires Owns(sb, view, table, owner)
    ensures sb.Valid() && |view| == sb.size && GoodTable(sb, table)
  {
  }

  /** bfree: a loose block becomes free. */
  lemma FreeConsistent(sb: Superblock, view: Image, table: Table, owner: Owner, loose: set<nat>, dirty: set<nat>, b: nat)
    requires Consistent(sb, view, table, owner, loose, dirty) && b in loose
    ensures b < sb.size && InUse(sb, view, b)
    ensures var view' := Mark(sb, view, b, false);
      Consistent(sb, view', table, owner, loose - {b}, dirty) && FilesKept(view, view', table)
  {
    hide Owns; hide InUse; hide DinodeAt; hide SameFile;
    OwnsUnfolds(sb, view, table, owner);
    MarkKeeps(sb, view, table, owner, dirty, b, false);
  }

  // ---------------------------------------------------------------- growing a file

  // d' in view' has every data block d has in view, with the same contents, and maybe more.
  ghost predicate Grown(view: Image, d: Dinode, view': Image, d': Dinode) {
    && d.Valid() && d'.Valid() && |view| == |view'|
    && forall k :: 0 <= k < SLOTS && k != NDIRECT && Addr(view, d, k) != 0 ==>
         && Addr(view', d', k) == Addr(view, d, k)
         && (Addr(view, d, k) < |view| ==> view'[Addr(view, d, k)] == view[Addr(view, d, k)])
  }

  /** The bytes c are the first |c| bytes of the file, and all their blocks are there. */
  ghost predicate Content(view: Image, d: Dinode, c: seq<Byte>) {
    && d.Valid() && |c| <= MAXFILE * BSIZE
    && (forall bn :: 0 <= bn < BlockCount(|c|) ==> 0 < Addr(view, d, BlockSlot(bn)) < |view|)
    && (forall p :: 0 <= p < |c| ==> ByteAt(view, d, p) == c[p])
  }

  lemma ContentIsBytes(view: Image, d: Dinode, c: seq<Byte>)
    requires d.Valid() && |c| == d.size <= MAXFILE * BSIZE
    ensures Content(view, d, c) <==> HoleFree(view, d) && Bytes(view, d) == c
  {
    hide Addr; hide ByteAt;
  }

  lemma GrownContent(view: Image, d: Dinode, view': Image, d': Dinode, c: seq<Byte>)
    requires Grown(view, d, view', d') && Content(view, d, c)
    ensures Content(view', d', c)
  {
    hide Addr;
    forall p | 0 <= p < |c|
      ensures ByteAt(view', d', p) == c[p]
    {
      assert p / BSIZE < BlockCount(|c|);
      assert ByteAt(view, d, p) == c[p];
    }
  }

  lemma GrownTrans(u: Image, d: Dinode, v: Image, e: Dinode, w: Image, f: Dinode)
    requires Grown(u, d, v, e) && Grown(v, e, w, f)
    ensures Grown(u, d, w, f)
  {
    hide Addr;
  }

  /** c with the bytes from off on replaced by s. */
  ghost function Overwrite(c: seq<Byte>, off: nat, s: seq<Byte>): (r: seq<Byte>)
    requires off <= |c|
    ensures |r| == if off + |s| <= |c| then |c| else off + |s|
  {
    if off + |s| <= |c| then c[..off] + s + c[off + |s|..] else c[..off] + s
  }

  /** Splicing bytes into the right block of a file overwrites exactly those bytes of its contents. */
  lemma ContentWrite(sb: Superblock, view: Image, table: Table, owner: Owner, i: nat, c: seq<Byte>, off: nat, s: seq<Byte>)
    requires Owns(sb, view, table, owner) && i < |table| && Content(view, table[i], c)
    requires off <= |c| && s != [] && off % BSIZE + |s| <= BSIZE && off + |s| <= MAXFILE * BSIZE
    requires 0 < Addr(view, table[i], BlockSlot(off / BSIZE)) < |view|
    ensures var a := Addr(view, table[i], BlockSlot(off / BSIZE));
      && a in owner && owner[a] == Slot(i, BlockSlot(off / BSIZE))
      && Content(view[a := Splice(view[a], off % BSIZE, s)], table[i], Overwrite(c, off, s))
  {
    hide Word;
    var d, bn := table[i], off / BSIZE;
    var a := Addr(view, d, BlockSlot(bn));
    assert a in owner && owner[a] == Slot(i, BlockSlot(bn));
    var view' := view[a := Splice(view[a], off % BSIZE, s)];
    var c' := Overwrite(c, off, s);
    WriteData(sb, view, table, owner, a, view'[a]);
    forall m | 0 <= m < BlockCount(|c'|)
      ensures 0 < Addr(view', d, BlockSlot(m)) < |view|
    {
      assert m < BlockCount(|c|) || m == bn;
    }
    forall p | 0 <= p < |c'|
      ensures ByteAt(view', d, p) == c'[p]
    {
      ContentWriteByte(sb, view, table, owner, i, c, off, s, p);
    }
  }

  lemma OverwriteByte(c: seq<Byte>, off: nat, s: seq<Byte>, p: nat)
    requires off <= |c| && p < |Overwrite(c, off, s)|
    ensures p < |c| || off <= p < off + |s|
    ensures Overwrite(c, off, s)[p] == if off <= p < off + |s| then s[p - off] else c[p]
  {
  }

  // Bytes of the spliced block, by their place in the file.
  lemma SpliceByte(blk: Block, off: nat, s: seq<Byte>, p: nat)
    requires off % BSIZE + |s| <= BSIZE && p / BSIZE == off / BSIZE
    ensures Splice(blk, off % BSIZE, s)[p % BSIZE] == if off <= p < off + |s| then s[p - off] else blk[p % BSIZE]
  {
  }

  lemma ContentWriteByte(sb: Superblock, view: Image, table: Table, owner: Owner, i: nat, c: seq<Byte>, off: nat, s: seq<Byte>, p: nat)
    requires Owns(sb, view, table, owner) && i < |table| && Content(view, table[i], c)
    requires off <= |c| && s != [] && off % BSIZE + |s| <= BSIZE && off + |s| <= MAXFILE * BSIZE
    requires 0 < Addr(view, table[i], BlockSlot(off / BSIZE)) < |view| && p < |Overwrite(c, off, s)|
    ensures var a := Addr(view, table[i], BlockSlot(off / BSIZE));
      ByteAt(view[a := Splice(view[a], off % BSIZE, s)], table[i], p) == Overwrite(c, off, s)[p]
  {
    hide Word; hide Overwrite; hide Splice; hide Addr;
    var d, bn := table[i], off / BSIZE;
    var a := Addr(view, d, BlockSlot(bn));
    assert a in owner && owner[a] == Slot(i, BlockSlot(bn));
    var view' := view[a := Splice(view[a], off % BSIZE, s)];
    WriteData(sb, view, table, owner, a, view'[a]);
    OverwriteByte(c, off, s, p);
    assert p < |c| ==> ByteAt(view, d, p) == c[p];
    if p / BSIZE == bn {
      SpliceByte(view[a], off, s, p);
    } else {
      assert Addr(view, d, BlockSlot(p / BSIZE)) != a;
    }
  }

  // ---------------------------------------------------------------- the invariant over each change

  lemma AttachDirectConsistent(sb: Superblock, view: Image, table: Table, owner: Owner, loose: set<nat>, dirty: set<nat>,
                               i: nat, k: nat, b: nat)
    requires Consistent(sb, view, table, owner, loose, dirty) && i < |table| && table[i].kind != 0
    requires k <= NDIRECT && |table[i].addrs| == NDIRECT + 1 && table[i].addrs[k] == 0
    requires b in loose && b < |view| && (k == NDIRECT ==> view[b] == Zeroes)
    ensures var d' := table[i].(addrs := table[i].addrs[k := b]);
      && OneSlotMore(view, table[i], view, d', k, b)
      && Consistent(sb, view, table[i := d'], owner[b := Slot(i, k)], loose - {b}, dirty + {i})
  {
    hide Owns; hide InUse; hide DinodeAt;
    OwnsUnfolds(sb, view, table, owner);
    AttachDirect(sb, view, table, owner, i, k, b);
  }

  lemma AttachEntryConsistent(sb: Superblock, view: Image, table: Table, owner: Owner, loose: set<nat>, dirty: set<nat>,
                              i: nat, j: nat, b: nat)
    requires Consistent(sb, view, table, owner, loose, dirty) && i < |table| && j < NINDIRECT
    requires |table[i].addrs| == NDIRECT + 1 && table[i].addrs[NDIRECT] != 0
    requires Addr(view, table[i], NDIRECT + 1 + j) == 0 && b in loose
    ensures table[i].addrs[NDIRECT] < |view| && b < UINT
    ensures var ind := table[i].addrs[NDIRECT]; var view' := view[ind := SetWord(view[ind], j, b)];
      && OneSlotMore(view, table[i], view', table[i], NDIRECT + 1 + j, b)
      && Consistent(sb, view', table, owner[b := Slot(i, NDIRECT + 1 + j)], loose - {b}, dirty)
      && (forall m :: 0 <= m < |table| && m != i ==> SameFile(view, view', table[m]))
      && sb.DataStart() <= ind && ind in owner && owner[ind] == Slot(i, NDIRECT)
  {
    hide InUse; hide DinodeAt; hide SameFile; hide Word; hide SetWord;
    AttachEntry(sb, view, table, owner, i, j, b);
    var ind := table[i].addrs[NDIRECT];
    assert Addr(view, table[i], NDIRECT) == ind;
    MarksKept(sb, view, owner, loose, ind, SetWord(view[ind], j, b));
    SyncedKept(sb, view, table, dirty, ind, SetWord(view[ind], j, b));
  }

  lemma WriteDataConsistent(sb: Superblock, view: Image, table: Table, owner: Owner, loose: set<nat>, dirty: set<nat>,
                            b: nat, data: Block)
    requires Consistent(sb, view, table, owner, loose, dirty) && b in owner && owner[b].k != NDIRECT
    ensures b < |view| && Consistent(sb, view[b := data], table, owner, loose, dirty)
    ensures forall m :: 0 <= m < |table| && m != owner[b].inum ==> SameFile(view, view[b := data], table[m])
  {
    hide InUse; hide DinodeAt; hide SameFile; hide Word; hide Addr;
    WriteData(sb, view, table, owner, b, data);
    MarksKept(sb, view, owner, loose, b, data);
    SyncedKept(sb, view, table, dirty, b, data);
  }

  /** iupdate: the on-disk copy of inode i catches up. */
  lemma StoreInodeConsistent(sb: Superblock, view: Image, table: Table, owner: Owner, loose: set<nat>, dirty: set<nat>, i: nat)
    requires Consistent(sb, view, table, owner, loose, dirty) && i < |table|
    ensures sb.Valid() && |view| == sb.size && |table| == sb.ninodes && table[i].Valid()
    ensures var view' := StoreDinode(sb, view, i, table[i]);
      Consistent(sb, view', table, owner, loose, dirty - {i}) && FilesKept(view, view', table)
  {
    hide InUse; hide DinodeAt; hide SameFile; hide Word; hide Addr;
    var view' := StoreDinode(sb, view, i, table[i]);
    var ib := sb.IBlock(i);
    assert ib < sb.bmapstart by { assert i / IPB <= (sb.ninodes - 1) / IPB; }
    WriteUnowned(sb, view, table, owner, ib, view'[ib]);
    MarksKept(sb, view, owner, loose, ib, view'[ib]);
  }

  /** itrunc, seen at once: inode i gives up all its blocks. */
  lemma DetachConsistent(sb: Superblock, view: Image, table: Table, owner: Owner, loose: set<nat>, dirty: set<nat>, i: nat, d': Dinode)
    requires Consistent(sb, view, table, owner, loose, dirty) && i < |table| && d'.Valid()
    requires forall k :: 0 <= k <= NDIRECT ==> d'.addrs[k] == 0
    ensures Consistent(sb, view, table[i := d'], owner - OwnedBy(owner, i), loose + OwnedBy(owner, i), dirty + {i})
    ensures OwnedBy(owner, i) !! loose
  {
    hide InUse; hide DinodeAt; hide Addr; hide Word;
    DetachAll(sb, view, table, owner, i, d');
    MarksDetached(sb, view, owner, loose, i);
  }

  lemma OneSlotMoreGrows(view: Image, d: Dinode, view': Image, d': Dinode, k: nat, b: nat)
    requires OneSlotMore(view, d, view', d', k, b) && Addr(view, d, k) == 0 && |view| == |view'|
    requires forall j :: 0 <= j < SLOTS && j != NDIRECT && 0 < Addr(view, d, j) < |view| ==>
      view'[Addr(view, d, j)] == view[Addr(view, d, j)]
    ensures Grown(view, d, view', d')
  {
    hide Addr;
  }

  // The files of all inodes but i.
  ghost predicate OthersKept(view: Image, view': Image, table: Table, table': Table, i: nat) {
    && |table'| == |table|
    && forall m :: 0 <= m < |table| && m != i ==> table'[m] == table[m] && SameFile(view, view', table[m])
  }

  lemma OthersKeptTrans(u: Image, v: Image, w: Image, t: Table, t': Table, t'': Table, i: nat)
    requires OthersKept(u, v, t, t', i) && OthersKept(v, w, t', t'', i)
    ensures OthersKept(u, w, t, t'', i)
  {
    hide Addr;
    forall m | 0 <= m < |t| && m != i
      ensures SameFile(u, w, t[m])
    {
      assert SameFile(u, v, t[m]) && SameFile(v, w, t'[m]);
    }
  }

  lemma FilesKeptOthers(view: Image, view': Image, table: Table, i: nat)
    requires FilesKept(view, view', table)
    ensures OthersKept(view, view', table, table, i)
    ensures i < |table| ==> Grown(view, table[i], view', table[i])
  {
    hide Addr;
    if i < |table| { assert SameFile(view, view', table[i]); }
  }

  // The fields other than the addresses.
  ghost predicate SameHeader(d: Dinode, d': Dinode) {
    d'.kind == d.kind && d'.major == d.major && d'.minor == d.minor && d'.nlink == d.nlink && d'.size == d.size
  }

  // From (view, d) to (view', d') only slot k may have changed, from 0; and a block that
  // came to be named is zeroed.
  ghost predicate SlotFilled(view: Image, d: Dinode, view': Image, d': Dinode, k: nat) {
    && d.Valid() && d'.Valid() && k < SLOTS && |view| == |view'|
    && (forall j :: 0 <= j < SLOTS && j != k ==> Addr(view', d', j) == Addr(view, d, j))
    && (Addr(view, d, k) != 0 ==> view' == view && d' == d)
    && (Addr(view, d, k) == 0 && Addr(view', d', k) != 0 ==>
          Addr(view', d', k) < |view'| && view'[Addr(view', d', k)] == Zeroes)
    && SameHeader(d, d')
  }

  lemma SlotFilledBy(view: Image, d: Dinode, mid: Image, view': Image, d': Dinode, k: nat, b: nat)
    requires SameFile(view, mid, d) && OneSlotMore(mid, d, view', d', k, b) && |view'| == |view| && b < |view'|
    requires Addr(view, d, k) == 0 && view'[b] == Zeroes && SameHeader(d, d')
    ensures SlotFilled(view, d, view', d', k) && Addr(view', d', k) == b
  {
    hide Addr;
  }

  // ---------------------------------------------------------------- progress of itrunc

  // The blocks of inode i in the slots still to be freed: those from lo on, and the indirect block.
  ghost function Pending(owner: Owner, i: nat, lo: nat): (r: set<nat>)
    ensures forall b :: b in r <==> b in owner && owner[b].inum == i && (owner[b].k >= lo || owner[b].k == NDIRECT)
  {
    set b | b in owner && owner[b].inum == i && (owner[b].k >= lo || owner[b].k == NDIRECT)
  }

  lemma PendingStep(sb: Superblock, view: Image, table: Table, owner: Owner, i: nat, lo: nat)
    requires Owns(sb, view, table, owner) && i < |table| && lo < SLOTS && lo != NDIRECT
    ensures var a := Addr(view, table[i], lo);
      if a == 0 then Pending(owner, i, lo + 1) == Pending(owner, i, lo)
      else a in Pending(owner, i, lo) && sb.DataStart() <= a < sb.size && Pending(owner, i, lo + 1) == Pending(owner, i, lo) - {a}
  {
    hide Addr;
    var a := Addr(view, table[i], lo);
    forall b | b in Pending(owner, i, lo) && b !in Pending(owner, i, lo + 1)
      ensures b == a
    {
      assert owner[b].k == lo;
    }
  }

  lemma PendingEnds(sb: Superblock, view: Image, table: Table, owner: Owner, i: nat)
    requires Owns(sb, view, table, owner) && i < |table|
    ensures Pending(owner, i, 0) == OwnedBy(owner, i)
    ensures var ind := table[i].addrs[NDIRECT];
      if ind == 0 then Pending(owner, i, NDIRECT) == {}
      else Pending(owner, i, NDIRECT + 1) == Pending(owner, i, NDIRECT) && Pending(owner, i, SLOTS) == {ind} && sb.DataStart() <= ind < sb.size
  {
    hide Word;
    var ind := table[i].addrs[NDIRECT];
    assert Addr(view, table[i], NDIRECT) == ind;
    forall b | b in Pending(owner, i, SLOTS)
      ensures b == ind
    {
      assert owner[b].k == NDIRECT;
    }
    if ind == 0 {
      forall b | b in Pending(owner, i, NDIRECT)
        ensures false
      {
      }
    }
  }

  lemma ConsistentOwns(sb: Superblock, view: Image, table: Table, owner: Owner, loose: set<nat>, dirty: set<nat>)
    requires Consistent(sb, view, table, owner, loose, dirty)
    ensures Owns(sb, view, table, owner)
  {
  }

  // What truncation does to the bitmap follows from who owns what before and after.
  lemma TruncatedMarks(sb: Superblock, view: Image, owner: Owner, loose: set<nat>, view': Image, table: Table, table': Table,
                       dirty: set<nat>, dirty': set<nat>, i: nat)
    requires Consistent(sb, view, table, owner, loose, dirty)
    requires Consistent(sb, view', table', owner - OwnedBy(owner, i), loose, dirty')
    ensures forall b :: 0 <= b < sb.size ==> (InUse(sb, view', b) <==> InUse(sb, view, b) && b !in OwnedBy(owner, i))
  {
    hide InUse; hide Synced; hide Addr;
  }

  // ---------------------------------------------------------------- sizes

  lemma ResizeConsistent(sb: Superblock, view: Image, table: Table, owner: Owner, loose: set<nat>, dirty: set<nat>, i: nat, size: nat)
    requires Consistent(sb, view, table, owner, loose, dirty) && i < |table| && size < UINT
    ensures Consistent(sb, view, table[i := table[i].(size := size)], owner, loose, dirty + {i})
  {
    hide InUse; hide DinodeAt; hide Word;
    var table' := table[i := table[i].(size := size)];
    assert forall j :: 0 <= j < |table| ==> table'[j].Valid() && table'[j].addrs == table[j].addrs;
    SameAddrsOwn(sb, view, table, table', owner);
  }

  lemma SameAddrsOwn(sb: Superblock, view: Image, table: Table, table': Table, owner: Owner)
    requires Owns(sb, view, table, owner) && |table'| == |table|
    requires forall j :: 0 <= j < |table| ==> table'[j].Valid() && table'[j].addrs == table[j].addrs
    ensures Owns(sb, view, table', owner)
  {
    hide Word;
    assert forall j, k :: 0 <= j < |table| && 0 <= k < SLOTS ==> Addr(view, table'[j], k) == Addr(view, table[j], k);
  }

  // The contents depend on the addresses, not on the size field.
  lemma ResizedContent(view: Image, d: Dinode, d': Dinode, c: seq<Byte>)
    requires d.Valid() && d'.Valid() && d'.addrs == d.addrs
    ensures Content(view, d', c) <==> Content(view, d, c)
  {
    hide Word;
    assert forall k :: 0 <= k < SLOTS ==> Addr(view, d', k) == Addr(view, d, k);
    assert forall p :: 0 <= p < MAXFILE * BSIZE ==> ByteAt(view, d', p) == ByteAt(view, d, p);
  }

  // A position inside a block, at or before the end of the contents, is in a block that is there.
  lemma HadFirst(view: Image, d: Dinode, c: seq<Byte>, pos: nat)
    requires Content(view, d, c) && pos <= |c| && pos % BSIZE != 0
    ensures Addr(view, d, BlockSlot(pos / BSIZE)) != 0
  {
    hide Addr; hide ByteAt;
    assert pos / BSIZE < BlockCount(|c|);
  }

  lemma OverwriteNothing(c: seq<Byte>, off: nat)
    requires off <= |c|
    ensures Overwrite(c, off, []) == c
  {
  }

  lemma OverwriteMore(c: seq<Byte>, off: nat, s: seq<Byte>, k: nat, m: nat)
    requires off <= |c| && k + m <= |s|
    ensures Overwrite(Overwrite(c, off, s[..k]), off + k, s[k..k + m]) == Overwrite(c, off, s[..k + m])
  {
    hide Overwrite;
    var l, r := Overwrite(Overwrite(c, off, s[..k]), off + k, s[k..k + m]), Overwrite(c, off, s[..k + m]);
    forall i | 0 <= i < |r|
      ensures l[i] == r[i]
    {
      OverwriteAt(Overwrite(c, off, s[..k]), off + k, s[k..k + m], i);
      OverwriteAt(c, off, s[..k + m], i);
      if i < |Overwrite(c, off, s[..k])| { OverwriteAt(c, off, s[..k], i); }
    }
  }

  lemma OverwriteAt(c: seq<Byte>, off: nat, s: seq<Byte>, i: nat)
    requires off <= |c| && i < |Overwrite(c, off, s)|
    ensures (off <= i < off + |s|) || i < |c|
    ensures Overwrite(c, off, s)[i] == if off <= i < off + |s| then s[i - off] else c[i]
  {
  }

  lemma SlotFilledMeans(view: Image, d: Dinode, view': Image, d': Dinode, k: nat, j: nat)
    requires SlotFilled(view, d, view', d', k) && j < SLOTS
    ensures d.Valid() && d'.Valid() && |view| == |view'| && SameHeader(d, d')
    ensures j != k ==> Addr(view', d', j) == Addr(view, d, j)
    ensures Addr(view, d, k) != 0 ==> view' == view && d' == d
  {
    hide Addr;
  }

  // ---------------------------------------------------------------- reading

  // A chunk within one block, read from that block.
  lemma ChunkBytes(view: Image, d: Dinode, pos: nat, m: nat)
    requires d.Valid() && 0 < m && pos + m <= MAXFILE * BSIZE && pos % BSIZE + m <= BSIZE
    requires 0 < Addr(view, d, BlockSlot(pos / BSIZE)) < |view|
    ensures var chunk := view[Addr(view, d, BlockSlot(pos / BSIZE))][pos % BSIZE..pos % BSIZE + m];
      forall p :: 0 <= p < m ==> chunk[p] == ByteAt(view, d, pos + p)
  {
    hide Addr;
    var chunk := view[Addr(view, d, BlockSlot(pos / BSIZE))][pos % BSIZE..pos % BSIZE + m];
    forall p | 0 <= p < m
      ensures chunk[p] == ByteAt(view, d, pos + p)
    {
      SameBlock(pos, p);
    }
  }

  lemma SameBlock(pos: nat, p: nat)
    requires pos % BSIZE + p < BSIZE
    ensures (pos + p) / BSIZE == pos / BSIZE && (pos + p) % BSIZE == pos % BSIZE + p
  {
    assert pos == BSIZE * (pos / BSIZE) + pos % BSIZE;
  }

  lemma BytesNone(view: Image, d: Dinode, off: nat)
    requires d.Valid() && off <= d.size <= MAXFILE * BSIZE
    ensures Bytes(view, d)[off..off] == []
  {
  }

  lemma BytesMore(view: Image, d: Dinode, off: nat, data: seq<Byte>, tot: nat, m: nat, chunk: seq<Byte>)
    requires d.Valid() && off + tot + m <= d.size <= MAXFILE * BSIZE && data == Bytes(view, d)[off..off + tot] && |chunk| == m
    requires forall p :: 0 <= p < m ==> chunk[p] == ByteAt(view, d, off + tot + p)
    ensures data + chunk == Bytes(view, d)[off..off + tot + m]
  {
    hide ByteAt;
  }

  ghost predicate Hole(view: Image, d: Dinode, bn: nat) {
    d.Valid() && bn < MAXFILE && Addr(view, d, BlockSlot(bn)) == 0
  }

  // A read of the bytes from off to end looks at block bn, unless it gives up before, for want of room.
  predicate Looks(off: nat, end: nat, room: nat, bn: nat) {
    off < end && off / BSIZE <= bn && bn * BSIZE < end && bn * BSIZE <= off + room
  }

  /** A read of the bytes from off to end comes upon a block that is not there. */
  ghost predicate MeetsHole(view: Image, d: Dinode, off: nat, end: nat, room: nat) {
    exists bn: nat :: Looks(off, end, room, bn) && Hole(view, d, bn)
  }

  // None of the blocks looked at before byte pos was a hole.
  ghost predicate NoHoleBefore(view: Image, d: Dinode, off: nat, end: nat, room: nat, pos: nat) {
    pos > off ==> forall bn: nat :: Looks(off, end, room, bn) && bn * BSIZE < pos ==> !Hole(view, d, bn)
  }

  /**
    How far a read has come: to byte pos, with data.  Either no block so far was a hole and
    nothing has changed, or one was and a block was allocated and logged for it.
   */
  ghost predicate ReadSoFar(view0: Image, d0: Dinode, logged0: set<nat>, full: bool, off: nat, end: nat, room: nat, pos: nat,
                            met: bool, view: Image, d: Dinode, logged: set<nat>, data: seq<Byte>)
  {
    if met then MeetsHole(view0, d0, off, end, room) && !full && logged != {}
    else
      && view == view0 && d == d0 && logged == logged0 && NoHoleBefore(view0, d0, off, end, room, pos)
      && d0.Valid() && off <= pos <= d0.size <= MAXFILE * BSIZE && data == Bytes(view0, d0)[off..pos]
  }

  lemma ReadNothing(view: Image, d: Dinode, logged: set<nat>, full: bool, off: nat, end: nat, room: nat)
    requires d.Valid() && off <= d.size <= MAXFILE * BSIZE
    ensures ReadSoFar(view, d, logged, full, off, end, room, off, false, view, d, logged, [])
  {
    NoneLooked(view, d, off, end, room);
    BytesNone(view, d, off);
  }

  lemma NoneLooked(view: Image, d: Dinode, off: nat, end: nat, room: nat)
    ensures NoHoleBefore(view, d, off, end, room, off)
  {
  }

  lemma Looked(view: Image, d: Dinode, off: nat, end: nat, room: nat, tot: nat, m: nat, hole: bool)
    requires NoHoleBefore(view, d, off, end, room, off + tot) && off + tot + m <= end && tot <= room && 0 < m
    requires (tot > 0 ==> (off + tot) % BSIZE == 0) && (off + tot) % BSIZE + m <= BSIZE
    requires hole == Hole(view, d, (off + tot) / BSIZE)
    ensures hole ==> MeetsHole(view, d, off, end, room)
    ensures !hole ==> NoHoleBefore(view, d, off, end, room, off + tot + m)
  {
    hide Hole;
    var bn0, pos := (off + tot) / BSIZE, off + tot;
    assert pos == bn0 * BSIZE + pos % BSIZE && off == off / BSIZE * BSIZE + off % BSIZE;
    LooksHere(off, end, room, tot);
    forall bn: nat | Looks(off, end, room, bn) && bn * BSIZE < pos + m && !hole
      ensures !Hole(view, d, bn)
    {
      if bn != bn0 {
        Earlier(off, tot, m, bn, bn0);
      }
    }
  }

  lemma LooksHere(off: nat, end: nat, room: nat, tot: nat)
    requires off + tot < end && tot <= room
    ensures Looks(off, end, room, (off + tot) / BSIZE)
  {
    var pos := off + tot;
    assert pos == BSIZE * (pos / BSIZE) + pos % BSIZE;
  }

  lemma Earlier(off: nat, tot: nat, m: nat, bn: nat, bn0: nat)
    requires bn0 == (off + tot) / BSIZE && off / BSIZE <= bn && bn * BSIZE < off + tot + m && bn != bn0
    requires (tot > 0 ==> (off + tot) % BSIZE == 0) && (off + tot) % BSIZE + m <= BSIZE
    ensures tot > 0 && bn * BSIZE < off + tot
  {
    assert off + tot == BSIZE * bn0 + (off + tot) % BSIZE;
    assert bn * BSIZE < (bn0 + 1) * BSIZE;
    assert bn < bn0;
    assert bn * BSIZE <= (bn0 - 1) * BSIZE;
  }

  lemma LooksNoFurther(view: Image, d: Dinode, off: nat, end: nat, room: nat, tot: nat, m: nat)
    requires NoHoleBefore(view, d, off, end, room, off + tot + m) && tot + m > room
    ensures !MeetsHole(view, d, off, end, room)
  {
    hide Hole;
  }

  lemma LooksAtAll(view: Image, d: Dinode, off: nat, end: nat, room: nat)
    requires NoHoleBefore(view, d, off, end, room, end) && off <= end
    ensures !MeetsHole(view, d, off, end, room)
  {
    hide Hole;
  }

  // What one turn of a read does: it finds a hole, cannot fill it and stops,
  lemma ReadStopped(view0: Image, d0: Dinode, logged0: set<nat>, full: bool, off: nat, end: nat, room: nat, tot: nat, m: nat,
             met: bool, view: Image, d: Dinode, logged: set<nat>, data: seq<Byte>, view': Image, d': Dinode, logged': set<nat>, hole: bool)
    requires ReadSoFar(view0, d0, logged0, full, off, end, room, off + tot, met, view, d, logged, data)
    requires off + tot + m <= end && tot <= room && 0 < m && (tot > 0 ==> (off + tot) % BSIZE == 0) && (off + tot) % BSIZE + m <= BSIZE
    requires hole == Hole(view, d, (off + tot) / BSIZE) && logged <= logged' && (!hole ==> view' == view && d' == d && logged' == logged)
    requires hole && (!met ==> if full then logged' == logged else logged' != {})
    ensures MeetsHole(view0, d0, off, end, room) && if full then logged' == logged0 else logged' != {}
  {
    hide Hole; hide Bytes; hide MeetsHole; hide NoHoleBefore;
    if !met { Looked(view, d, off, end, room, tot, m, hole); }
  }

  // or there is no room for the chunk,
  lemma ReadCramped(view0: Image, d0: Dinode, logged0: set<nat>, full: bool, off: nat, end: nat, room: nat, tot: nat, m: nat,
             met: bool, view: Image, d: Dinode, logged: set<nat>, data: seq<Byte>, view': Image, d': Dinode, logged': set<nat>, hole: bool)
    requires ReadSoFar(view0, d0, logged0, full, off, end, room, off + tot, met, view, d, logged, data)
    requires off + tot + m <= end && tot <= room && 0 < m && (tot > 0 ==> (off + tot) % BSIZE == 0) && (off + tot) % BSIZE + m <= BSIZE
    requires hole == Hole(view, d, (off + tot) / BSIZE) && logged <= logged' && (!hole ==> view' == view && d' == d && logged' == logged)
    requires tot + m > room && end <= d0.size && (!met && hole ==> !full && logged' != {})
    ensures if MeetsHole(view0, d0, off, end, room) then !full && logged' != {} else view' == view0 && d' == d0 && logged' == logged0
  {
    hide Hole; hide Bytes; hide MeetsHole; hide NoHoleBefore;
    if !met {
      Looked(view, d, off, end, room, tot, m, hole);
      if !hole { LooksNoFurther(view0, d0, off, end, room, tot, m); }
    }
  }

  // or it takes the chunk.
  lemma ReadOn(view0: Image, d0: Dinode, logged0: set<nat>, full: bool, off: nat, end: nat, room: nat, tot: nat, m: nat,
             met: bool, view: Image, d: Dinode, logged: set<nat>, data: seq<Byte>, view': Image, d': Dinode, logged': set<nat>,
             chunk: seq<Byte>, hole: bool)
    requires ReadSoFar(view0, d0, logged0, full, off, end, room, off + tot, met, view, d, logged, data)
    requires off + tot + m <= end && tot <= room && 0 < m && (tot > 0 ==> (off + tot) % BSIZE == 0) && (off + tot) % BSIZE + m <= BSIZE
    requires hole == Hole(view, d, (off + tot) / BSIZE) && logged <= logged' && (!hole ==> view' == view && d' == d && logged' == logged)
    requires end <= d0.size && |chunk| == m && (!met && hole ==> !full && logged' != {})
    requires !hole && d.Valid() && off + tot + m <= MAXFILE * BSIZE ==> forall p :: 0 <= p < m ==> chunk[p] == ByteAt(view, d, off + tot + p)
    ensures ReadSoFar(view0, d0, logged0, full, off, end, room, off + tot + m, met || hole, view', d', logged', data + chunk)
  {
    hide Hole; hide Bytes; hide MeetsHole; hide NoHoleBefore; hide ByteAt;
    if !met {
      Looked(view, d, off, end, room, tot, m, hole);
      if !hole { BytesMore(view0, d0, off, data, tot, m, chunk); }
    }
  }

  lemma ReadAll(view0: Image, d0: Dinode, logged0: set<nat>, full: bool, off: nat, end: nat, room: nat,
                met: bool, view: Image, d: Dinode, logged: set<nat>, data: seq<Byte>)
    requires ReadSoFar(view0, d0, logged0, full, off, end, room, end, met, view, d, logged, data) && off <= end
    ensures if MeetsHole(view0, d0, off, end, room) then !full && logged != {}
            else view == view0 && d == d0 && logged == logged0 && d0.Valid() && end <= d0.size <= MAXFILE * BSIZE && data == Bytes(view0, d0)[off..end]
  {
    hide Bytes; hide MeetsHole; hide NoHoleBefore;
    if !met { LooksAtAll(view0, d0, off, end, room); }
  }

  /** A hole-free file has no hole to meet. */
  lemma HoleFreeMeetsNone(view: Image, d: Dinode, off: nat, end: nat, room: nat)
    requires HoleFree(view, d) && end <= d.size
    ensures !MeetsHole(view, d, off, end, room)
  {
    hide Addr;
    forall bn: nat | Looks(off, end, room, bn)
      ensures !Hole(view, d, bn)
    {
      assert bn < BlockCount(d.size);
    }
  }

  /** Every read that starts in a hole meets it, whatever its length. */
  lemma HoleIsMet(view: Image, d: Dinode, bn: nat, off: nat, end: nat, room: nat)
    requires Hole(view, d, bn) && off / BSIZE == bn && off < end
    ensures MeetsHole(view, d, off, end, room)
  {
    hide Hole;
    assert off == BSIZE * bn + off % BSIZE;
    assert Looks(off, end, room, bn);
  }

  // ---------------------------------------------------------------- freeing inodes

  lemma KindConsistent(sb: Superblock, view: Image, table: Table, owner: Owner, loose: set<nat>, dirty: set<nat>, i: nat, d': Dinode)
    requires Consistent(sb, view, table, owner, loose, dirty) && i < |table| && d'.Valid() && d'.addrs == table[i].addrs
    requires forall k :: 0 <= k <= NDIRECT ==> d'.addrs[k] == 0
    ensures Consistent(sb, view, table[i := d'], owner, loose, dirty + {i})
  {
    hide InUse; hide DinodeAt; hide Word;
    SameAddrsOwn(sb, view, table, table[i := d'], owner);
  }
}
