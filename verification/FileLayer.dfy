/**
  The inode layer of fs.c: the bitmap allocator, block maps, truncation, reading
  and writing.  `view` is what bread returns for each block (the buffer cache and
  the log below it keep that a plain disk); every change of it stands for bread,
  change, log_write, brelse.
 */
module FileLayer {
  import opened Blocks
  import opened Counting
  import opened Layout
  import opened Ownership

  // The in-memory copy of an inode.
  class Inode {
    const inum: nat
    var din: Dinode

    constructor (inum: nat, din: Dinode)
      ensures this.inum == inum && this.din == din
    {
      this.inum, this.din := inum, din;
    }
  }

  function FreedInode(d: Dinode): Dinode {
    Dinode(0, d.major, d.minor, d.nlink, 0, seq(NDIRECT + 1, _ => 0))
  }

  function Min(a: nat, b: nat): nat {
    if a < b then a else b
  }

  /** The bitmap blocks. */
  ghost function Maps(sb: Superblock): (r: set<nat>)
    requires sb.Valid()
    ensures |r| == sb.Bitmaps() && forall b: nat :: b < sb.size ==> sb.BBlock(b) in r
  {
    assert forall b: nat :: b < sb.size ==> b / BPB <= (sb.size - 1) / BPB;
    Range(sb.bmapstart, sb.Bitmaps())
  }

  // The blocks that one operation of filewrite may log.
  function WriteBound(sb: Superblock): (r: nat)
    requires sb.Valid()
    ensures r <= MAXOPBLOCKS && (r == MAXOPBLOCKS <==> sb.size > 3 * BPB)
  {
    6 + Min(4, sb.Bitmaps())
  }

  // ---------------------------------------------------------------- what freeing logs

  ghost function BBlocks(sb: Superblock, s: set<nat>): set<nat> {
    set b | b in s :: sb.BBlock(b)
  }

  /** The blocks that freeing inode i logs: the bitmap blocks of its blocks, and its inode block. */
  ghost function Touched(sb: Superblock, owner: Owner, i: nat): set<nat> {
    BBlocks(sb, OwnedBy(owner, i)) + {sb.IBlock(i)}
  }

  /** At most one block per bitmap block, and the inode block. */
  lemma TouchedSize(sb: Superblock, view: Image, table: Table, owner: Owner, i: nat)
    requires Owns(sb, view, table, owner)
    ensures |Touched(sb, owner, i)| <= sb.Bitmaps() + 1
    ensures sb.size <= (MAXOPBLOCKS - 1) * BPB ==> |Touched(sb, owner, i)| <= MAXOPBLOCKS
  {
    hide Addr;
    SubsetSize(BBlocks(sb, OwnedBy(owner, i)), Maps(sb));
  }

  // Nothing but the blocks of `logged` has changed.
  ghost predicate Within(view: Image, view': Image, logged: set<nat>) {
    |view'| == |view| && forall b :: 0 <= b < |view| && b !in logged ==> view'[b] == view[b]
  }

  // No block from the first data block on has changed.
  ghost predicate DataKept(sb: Superblock, view: Image, view': Image) {
    |view'| == |view| && forall c: nat :: sb.DataStart() <= c < |view| ==> view'[c] == view[c]
  }

  lemma DataKeptRefl(sb: Superblock, view: Image)
    ensures DataKept(sb, view, view)
  {
  }

  lemma DataKeptTrans(sb: Superblock, u: Image, v: Image, w: Image)
    requires DataKept(sb, u, v) && DataKept(sb, v, w)
    ensures DataKept(sb, u, w)
  {
  }

  // The first i slots cleared.
  ghost function Zeroed(addrs: seq<nat>, i: nat): (r: seq<nat>)
    requires i <= |addrs|
    ensures |r| == |addrs| && forall k :: i <= k < |addrs| ==> r[k] == addrs[k]
  {
    seq(i, _ => 0) + addrs[i..]
  }

  lemma ZeroedMore(addrs: seq<nat>, i: nat)
    requires i < |addrs|
    ensures Zeroed(addrs, i)[i := 0] == Zeroed(addrs, i + 1)
  {
  }

  // From one moment of itrunc to a later one: each block freed since has its bitmap block logged.
  ghost predicate Freed(sb: Superblock, view: Image, loose: set<nat>, logged: set<nat>, view': Image, loose': set<nat>, logged': set<nat>) {
    loose' <= loose && logged' == logged + BBlocks(sb, loose - loose') && Within(view, view', logged')
  }

  lemma FreedNothing(sb: Superblock, view: Image, loose: set<nat>, logged: set<nat>)
    ensures Freed(sb, view, loose, logged, view, loose, logged)
  {
  }

  lemma FreedTrans(sb: Superblock, u: Image, l: set<nat>, g: set<nat>, v: Image, l': set<nat>, g': set<nat>,
                   w: Image, l'': set<nat>, g'': set<nat>)
    requires Freed(sb, u, l, g, v, l', g') && Freed(sb, v, l', g', w, l'', g'')
    ensures Freed(sb, u, l, g, w, l'', g'')
  {
    assert l - l'' == (l - l') + (l' - l'');
    assert BBlocks(sb, l - l'') == BBlocks(sb, l - l') + BBlocks(sb, l' - l'');
  }

  lemma FreedWithin(sb: Superblock, view: Image, loose: set<nat>, logged: set<nat>, view': Image, loose': set<nat>, logged': set<nat>)
    requires Freed(sb, view, loose, logged, view', loose', logged')
    ensures Within(view, view', logged')
  {
  }

  lemma FreedAll(sb: Superblock, view: Image, owner: Owner, i: nat, loose: set<nat>, logged: set<nat>, view': Image, logged': set<nat>)
    requires loose !! OwnedBy(owner, i) && Freed(sb, view, loose + OwnedBy(owner, i), logged, view', loose, logged')
    ensures logged' + {sb.IBlock(i)} == logged + Touched(sb, owner, i)
  {
    assert loose + OwnedBy(owner, i) - loose == OwnedBy(owner, i);
  }

  // ---------------------------------------------------------------- the log budget of one writei

  // What a writei has logged so far: `data` and `inds` by kind, `bms` for bitmap blocks;
  // `turns` of the loop, of which `allocs` allocated a data block; `ind` indirect blocks allocated.
  datatype Tally = Tally(turns: nat, allocs: nat, ind: nat, data: set<nat>, bms: set<nat>, inds: set<nat>)

  ghost predicate Tallied(maps: set<nat>, t: Tally, logged: set<nat>, before: set<nat>) {
    && logged <= before + t.data + t.bms + t.inds
    && |t.data| <= t.turns && t.bms <= maps && |t.bms| <= t.allocs + t.ind && |t.inds| <= 1 && t.ind <= 1
  }

  // Once an entry of the indirect block has been needed, the indirect block is there for good.
  ghost predicate Settled(t: Tally, ind: nat) {
    t.ind > 0 || t.inds != {} ==> ind != 0 && t.inds == {ind}
  }

  // What one turn may log: block number bn at block r, bitmap blocks bm, the indirect block
  // going from ind to ind'; had: the block was there already.
  ghost predicate Charge(maps: set<nat>, logged: set<nat>, logged': set<nat>, bn: nat, had: bool, ok: bool, r: nat, bm: set<nat>, ind: nat, ind': nat) {
    && logged' <= logged + bm + {r} + (if bn < NDIRECT then {} else {ind'})
    && bm <= maps && |bm| <= (if bn < NDIRECT || ind != 0 then 1 else 2) && (had ==> bm == {})
    && (ind != 0 ==> ind' == ind) && (ok && bn >= NDIRECT ==> ind' != 0)
  }

  ghost predicate AllTaken(sb: Superblock, owner: Owner, loose: set<nat>) {
    forall b: nat :: sb.DataStart() <= b < sb.size ==> b in owner || b in loose
  }

  // bmap logs something exactly if the block was not there and the disk is not full.
  ghost predicate Logs(logged: set<nat>, logged': set<nat>, had: bool, full: bool) {
    logged <= logged' && (had || full ==> logged' == logged) && (!had && !full ==> logged' != {})
  }

  // An indirect block, and then its entry.
  lemma LogsBoth(logged: set<nat>, logged1: set<nat>, logged2: set<nat>, ind: bool, had: bool, full: bool, full1: bool)
    requires Logs(logged, logged1, ind, full) && Logs(logged1, logged2, had, full1)
    requires if ind then full1 == full else !full && !had
    ensures Logs(logged, logged2, had, full)
  {
  }

  // The data block itself is already paid for.
  lemma ChargeData(maps: set<nat>, logged: set<nat>, logged': set<nat>, bn: nat, had: bool, r: nat, bm: set<nat>, ind: nat, ind': nat)
    requires Charge(maps, logged, logged', bn, had, r != 0, r, bm, ind, ind')
    ensures Charge(maps, logged, logged', bn, had, false, r, bm, ind, ind')
    ensures r != 0 ==> Charge(maps, logged, logged' + {r}, bn, had, true, r, bm, ind, ind')
  {
  }

  ghost function Turn(t: Tally, bn: nat, had: bool, r: nat, bm: set<nat>, ind: nat, ind': nat): Tally {
    Tally(t.turns + 1, t.allocs + (if had then 0 else 1), t.ind + (if |bm| == 2 then 1 else 0),
          t.data + {r}, t.bms + bm, if bn < NDIRECT then t.inds else {ind'})
  }

  lemma TurnTallied(maps: set<nat>, t: Tally, logged: set<nat>, before: set<nat>, bn: nat, had: bool, ok: bool, r: nat, bm: set<nat>,
                    ind: nat, ind': nat, logged': set<nat>)
    requires Tallied(maps, t, logged, before) && Settled(t, ind) && Charge(maps, logged, logged', bn, had, ok, r, bm, ind, ind')
    ensures Tallied(maps, Turn(t, bn, had, r, bm, ind, ind'), logged', before)
    ensures ok ==> Settled(Turn(t, bn, had, r, bm, ind, ind'), ind')
  {
    UnionSize(t.data, {r});
    UnionSize(t.bms, bm);
  }

  // How the turns of the loop advance: all but the last reach the end of a block, so three
  // blocks of bytes take four turns only when off is inside a block, which is then there already.
  ghost predicate Turns(t: Tally, off: nat, tot: nat, n: nat, going: bool, hf: bool) {
    && (t.turns == 0 ==> tot == 0)
    && (going && tot < n && t.turns > 0 ==> off + tot == (off / BSIZE + t.turns) * BSIZE)
    && t.allocs <= t.turns && (hf && off % BSIZE != 0 && t.turns > 0 ==> t.allocs < t.turns)
    && (n <= 3 * BSIZE ==> t.turns <= 4 && (t.turns == 4 ==> off % BSIZE != 0))
  }

  lemma TurnsAdvance(t: Tally, off: nat, tot: nat, n: nat, hf: bool, t': Tally, ok: bool)
    requires Turns(t, off, tot, n, true, hf) && tot < n && t'.turns == t.turns + 1
    requires t'.allocs <= t.allocs + 1 && (hf && t.turns == 0 && off % BSIZE != 0 ==> t'.allocs == t.allocs)
    ensures Turns(t', off, if ok then tot + Chunk(off + tot, n - tot) else tot, n, ok, hf)
  {
    if t.turns > 0 {
      var k := t.turns;
      assert off + tot == (off / BSIZE) * BSIZE + k * BSIZE;
      assert off == (off / BSIZE) * BSIZE + off % BSIZE;
      assert (off + tot) % BSIZE == 0;
    } else {
      assert off == (off / BSIZE) * BSIZE + off % BSIZE;
    }
  }

  lemma FirstTurn(maps: set<nat>, logged: set<nat>, off: nat, n: nat, hf: bool, ind: nat) returns (t: Tally)
    ensures Tallied(maps, t, logged, logged) && Settled(t, ind) && Turns(t, off, 0, n, true, hf)
  {
    t := Tally(0, 0, 0, {}, {}, {});
  }

  // The two books of one turn together.
  lemma NextTurn(maps: set<nat>, t: Tally, logged: set<nat>, before: set<nat>, off: nat, tot: nat, n: nat, hf: bool, had: bool, ok: bool,
                 r: nat, bm: set<nat>, ind: nat, ind': nat, logged': set<nat>) returns (t': Tally)
    requires Tallied(maps, t, logged, before) && Settled(t, ind) && Turns(t, off, tot, n, true, hf) && tot < n
    requires Charge(maps, logged, logged', (off + tot) / BSIZE, had, ok, r, bm, ind, ind')
    requires hf && (off + tot) % BSIZE != 0 ==> had
    ensures Tallied(maps, t', logged', before) && (ok ==> Settled(t', ind'))
    ensures Turns(t', off, if ok then tot + Chunk(off + tot, n - tot) else tot, n, ok, hf)
  {
    hide Tallied; hide Settled; hide Charge;
    var bn := (off + tot) / BSIZE;
    TurnTallied(maps, t, logged, before, bn, had, ok, r, bm, ind, ind', logged');
    t' := Turn(t, bn, had, r, bm, ind, ind');
    TurnsAdvance(t, off, tot, n, hf, t', ok);
  }

  lemma TurnsBudget(maps: set<nat>, t: Tally, off: nat, tot: nat, n: nat, going: bool, logged: set<nat>, iblock: nat)
    requires Tallied(maps, t, logged, {}) && Turns(t, off, tot, n, going, true) && n <= 3 * BSIZE
    ensures |logged + {iblock}| <= 6 + Min(4, |maps|) <= MAXOPBLOCKS
  {
    hide Tallied;
    Budget(maps, t, logged, iblock);
  }

  // With the inode block, the whole write fits in one operation's share of the log: four data
  // blocks, the indirect block, the inode block and at most four of the bitmap blocks.
  lemma Budget(maps: set<nat>, t: Tally, logged: set<nat>, iblock: nat)
    requires Tallied(maps, t, logged, {}) && t.allocs <= t.turns <= 4 && (t.turns == 4 ==> t.allocs <= 3)
    ensures |logged + {iblock}| <= 6 + Min(4, |maps|) <= MAXOPBLOCKS
  {
    UnionSize(t.data, t.bms);
    UnionSize(t.data + t.bms, t.inds);
    UnionSize(logged, {iblock});
    SubsetSize(logged, {} + t.data + t.bms + t.inds);
    SubsetSize(t.bms, maps);
  }

  class Fs {
    const sb: Superblock
    var view: Image

    ghost var table: Table        // every inode, the in-memory copy where there is one
    ghost var owner: Owner
    ghost var loose: set<nat>
    ghost var dirty: set<nat>
    ghost var logged: set<nat>    // blocks this transaction has passed to log_write

    constructor (sb: Superblock, image: Image, ghost table: Table, ghost owner: Owner)
      ensures this.sb == sb && view == image && this.table == table && this.owner == owner
      ensures loose == {} && dirty == {} && logged == {}
    {
      this.sb, view, this.table, this.owner := sb, image, table, owner;
      loose, dirty, logged := {}, {}, {};
    }

    ghost predicate Valid()
      reads this
    {
      Consistent(sb, view, table, owner, loose, dirty)
    }

    // The in-memory copy is the one that counts.
    ghost predicate Current(ip: Inode)
      reads this, ip
    {
      ip.inum < |table| && table[ip.inum] == ip.din && ip.din.Valid()
    }

    // ip is a locked inode in use.
    ghost predicate Loaded(ip: Inode)
      reads this, ip
    {
      Current(ip) && ip.din.kind != 0
    }

    // No data block is free.
    ghost predicate Full()
      reads this
    {
      AllTaken(sb, owner, loose)
    }

    lemma Shape()
      requires Valid()
      ensures sb.Valid() && |view| == sb.size && GoodTable(sb, table)
    {
    }

    /**
      Allocate a zeroed disk block, the first one the bitmap calls free; 0 if there
      is none.  The new block is nobody's yet, and no file changes.
     */
    method Balloc() returns (r: nat)
      requires Valid()
      modifies this`view, this`loose, this`logged
      ensures Valid() && FilesKept(old(view), view, table) && |view| == |old(view)| == sb.size && sb.Valid()
      ensures r == 0 <==> forall b :: 0 <= b < sb.size ==> InUse(sb, old(view), b)
      ensures r == 0 ==> view == old(view) && loose == old(loose) && logged == old(logged) && Full()
      ensures r != 0 ==> sb.DataStart() <= r < sb.size && r !in owner && r !in old(loose)
      ensures r != 0 ==> !InUse(sb, old(view), r) && forall b :: 0 <= b < r ==> InUse(sb, old(view), b)
      ensures r != 0 ==> loose == old(loose) + {r} && view[r] == Zeroes
      ensures r != 0 ==> logged == old(logged) + {sb.BBlock(r), r}
    {
      hide Consistent; hide BitIn; hide FilesKept;
      Shape();
      var b := 0;
      while b < sb.size
        invariant 0 <= b && b % BPB == 0
        invariant forall c :: 0 <= c < b && c < sb.size ==> InUse(sb, view, c)
      {
        var bp := view[b / BPB + sb.bmapstart];
        var bi := 0;
        while bi < BPB && b + bi < sb.size
          invariant 0 <= bi <= BPB
          invariant forall c :: 0 <= c < b + bi && c < sb.size ==> InUse(sb, view, c)
        {
          assert (b + bi) / BPB == b / BPB && (b + bi) % BPB == bi by { assert b == BPB * (b / BPB); }
          if !BitIn(bp, bi) {
            r := b + bi;
            Claim(r);
            return;
          }
          bi := bi + 1;
        }
        b := b + BPB;
      }
      FilesKeptRefl(view, table);
      AllInUse();
      r := 0;
    }

    // Mark a free block in the bitmap, and zero it.
    method Claim(r: nat)
      requires Valid() && r < sb.size && !InUse(sb, view, r)
      modifies this`view, this`loose, this`logged
      ensures Valid() && FilesKept(old(view), view, table) && |view| == |old(view)| == sb.size
      ensures sb.DataStart() <= r && r !in owner && r !in old(loose)
      ensures loose == old(loose) + {r} && view[r] == Zeroes && logged == old(logged) + {sb.BBlock(r), r}
    {
      hide Consistent; hide BitIn; hide SetBitIn; hide SameFile;
      Shape();
      AllocateConsistent(sb, view, table, owner, loose, dirty, r);
      view := Mark(sb, view, r, true);
      view := view[r := Zeroes];
      loose := loose + {r};
      logged := logged + {sb.BBlock(r), r};
    }

    lemma AllInUse()
      requires Valid() && forall b :: 0 <= b < sb.size ==> InUse(sb, view, b)
      ensures Full()
    {
    }

    lemma FilesKeptRefl(v: Image, t: Table)
      requires forall i :: 0 <= i < |t| ==> t[i].Valid()
      ensures FilesKept(v, v, t)
    {
    }

    /** Free a disk block; false stands for the panic "freeing free block". */
    method Bfree(b: nat) returns (ok: bool)
      requires Valid() && sb.DataStart() <= b < sb.size && b !in owner
      modifies this`view, this`loose, this`logged
      ensures Valid() && FilesKept(old(view), view, table)
      ensures ok <==> b in old(loose)
      ensures loose == old(loose) - {b}
      ensures |view| == |old(view)| == sb.size && forall c :: sb.DataStart() <= c < |view| ==> view[c] == old(view)[c]
      ensures !ok ==> view == old(view) && logged == old(logged)
      ensures ok ==> Freed(sb, old(view), old(loose), old(logged), view, loose, logged)
    {
      hide Owns; hide InUse; hide Synced; hide SameFile;
      OwnsUnfolds(sb, view, table, owner);
      ok := InUse(sb, view, b);
      if ok {
        FreeConsistent(sb, view, table, owner, loose, dirty, b);
        assert sb.BBlock(b) < sb.DataStart() by { assert b / BPB <= (sb.size - 1) / BPB; }
        view := Mark(sb, view, b, false);
        logged := logged + {sb.BBlock(b)};
        assert loose - (loose - {b}) == {b};
      } else {
        FilesKeptRefl(view, table);
      }
      loose := loose - {b};
    }

    // Slot k of the inode gets block b, which was just allocated.
    method NameDirect(ip: Inode, k: nat, b: nat)
      requires Valid() && Loaded(ip) && k <= NDIRECT && ip.din.addrs[k] == 0
      requires b in loose && b < |view| && view[b] == Zeroes
      modifies this`table, this`owner, this`loose, this`dirty, ip`din
      ensures Valid() && Loaded(ip) && ip.din == old(ip.din).(addrs := old(ip.din).addrs[k := b])
      ensures OneSlotMore(view, old(ip.din), view, ip.din, k, b) && Grown(view, old(ip.din), view, ip.din)
      ensures OthersKept(view, view, old(table), table, ip.inum)
      ensures loose == old(loose) - {b} && dirty == old(dirty) + {ip.inum}
    {
      hide Consistent; hide Word;
      Shape();
      AttachDirectConsistent(sb, view, table, owner, loose, dirty, ip.inum, k, b);
      OneSlotMoreGrows(view, ip.din, view, ip.din.(addrs := ip.din.addrs[k := b]), k, b);
      ip.din := ip.din.(addrs := ip.din.addrs[k := b]);
      table := table[ip.inum := ip.din];
      owner := owner[b := Slot(ip.inum, k)];
      loose := loose - {b};
      dirty := dirty + {ip.inum};
    }

    // Entry j of the indirect block gets block b, which was just allocated.
    method NameEntry(ip: Inode, j: nat, b: nat)
      requires Valid() && Loaded(ip) && j < NINDIRECT && ip.din.addrs[NDIRECT] != 0 && b in loose
      requires Addr(view, ip.din, NDIRECT + 1 + j) == 0
      modifies this`view, this`owner, this`loose, this`logged
      ensures Valid() && Loaded(ip) && |view| == |old(view)|
      ensures OneSlotMore(old(view), ip.din, view, ip.din, NDIRECT + 1 + j, b) && Grown(old(view), ip.din, view, ip.din)
      ensures OthersKept(old(view), view, table, table, ip.inum)
      ensures b < |view| && view[b] == old(view)[b]
      ensures loose == old(loose) - {b} && logged == old(logged) + {ip.din.addrs[NDIRECT]}
    {
      hide Synced; hide SameFile; hide Word; hide SetWord; hide InUse;
      var ind := ip.din.addrs[NDIRECT];
      AttachEntryConsistent(sb, view, table, owner, loose, dirty, ip.inum, j, b);
      ghost var was := view;
      view := view[ind := SetWord(view[ind], j, b)];
      OneSlotMoreGrows(was, ip.din, view, ip.din, NDIRECT + 1 + j, b);
      owner := owner[b := Slot(ip.inum, NDIRECT + 1 + j)];
      loose := loose - {b};
      logged := logged + {ind};
    }

    // The block of slot k of the inode, allocated if there is none; 0 if that fails.
    method MapDirect(ip: Inode, k: nat) returns (r: nat, ghost bm: set<nat>)
      requires Valid() && Loaded(ip) && k <= NDIRECT
      modifies this`view, this`table, this`owner, this`loose, this`dirty, this`logged, ip`din
      ensures Valid() && Loaded(ip) && r == ip.din.addrs[k]
      ensures SlotFilled(old(view), old(ip.din), view, ip.din, k)
      ensures Grown(old(view), old(ip.din), view, ip.din)
      ensures OthersKept(old(view), view, old(table), table, ip.inum)
      ensures loose == old(loose) && dirty <= old(dirty) + {ip.inum}
      ensures r == 0 ==> Full()
      ensures bm <= Maps(sb) && |bm| <= 1 && logged <= old(logged) + bm + {r}
      ensures old(ip.din).addrs[k] != 0 ==> bm == {} && logged == old(logged) && owner == old(owner)
      ensures Logs(old(logged), logged, old(ip.din).addrs[k] != 0, old(Full()))
      ensures old(ip.din).addrs[k] == 0 && old(Full()) ==> r == 0
    {
      hide Consistent; hide Word; hide SameFile; hide InUse;
      Shape();
      FilesKeptRefl(view, table);
      FilesKeptOthers(view, view, table, ip.inum);
      r, bm := ip.din.addrs[k], {};
      if r == 0 {
        ghost var was, d := view, ip.din;
        r := Balloc();
        FilesKeptOthers(was, view, table, ip.inum);
        if r == 0 {
          return;
        }
        bm := {sb.BBlock(r)};
        ghost var mid, t := view, table;
        NameDirect(ip, k, r);
        GrownTrans(was, d, mid, d, view, ip.din);
        OthersKeptTrans(was, mid, view, t, t, table, ip.inum);
        SlotFilledBy(was, d, mid, view, ip.din, k, r);
      }
    }

    // The block of entry j of the indirect block, allocated if there is none; 0 if that fails.
    method MapEntry(ip: Inode, j: nat) returns (r: nat, ghost bm: set<nat>)
      requires Valid() && Loaded(ip) && j < NINDIRECT && ip.din.addrs[NDIRECT] != 0
      modifies this`view, this`owner, this`loose, this`logged
      ensures Valid() && Loaded(ip) && r == Addr(view, ip.din, NDIRECT + 1 + j)
      ensures SlotFilled(old(view), ip.din, view, ip.din, NDIRECT + 1 + j)
      ensures Grown(old(view), ip.din, view, ip.din)
      ensures OthersKept(old(view), view, table, table, ip.inum)
      ensures loose == old(loose)
      ensures r == 0 ==> Full()
      ensures bm <= Maps(sb) && |bm| <= 1 && logged <= old(logged) + bm + {r, ip.din.addrs[NDIRECT]}
      ensures Addr(old(view), ip.din, NDIRECT + 1 + j) != 0 ==> bm == {} && logged == old(logged) && owner == old(owner)
      ensures Addr(old(view), ip.din, NDIRECT + 1 + j) == 0 && old(Full()) ==> r == 0
      ensures Logs(old(logged), logged, Addr(old(view), ip.din, NDIRECT + 1 + j) != 0, old(Full()))
    {
      hide Consistent; hide Word; hide SameFile; hide InUse;
      Shape();
      IndirectInRange(ip);
      FilesKeptRefl(view, table);
      FilesKeptOthers(view, view, table, ip.inum);
      r, bm := Word(view[ip.din.addrs[NDIRECT]], j), {};
      if r == 0 {
        ghost var was := view;
        r := Balloc();
        FilesKeptOthers(was, view, table, ip.inum);
        FilesKeptSlot(was, view, table, ip.inum, NDIRECT + 1 + j);
        if r == 0 {
          return;
        }
        bm := {sb.BBlock(r)};
        ghost var mid := view;
        NameEntry(ip, j, r);
        GrownTrans(was, ip.din, mid, ip.din, view, ip.din);
        OthersKeptTrans(was, mid, view, table, table, table, ip.inum);
        SlotFilledBy(was, ip.din, mid, view, ip.din, NDIRECT + 1 + j, r);
      }
    }

    lemma FilesKeptSlot(v: Image, v': Image, t: Table, i: nat, k: nat)
      requires FilesKept(v, v', t) && i < |t| && k < SLOTS
      ensures t[i].Valid() && Addr(v', t[i], k) == Addr(v, t[i], k)
    {
      assert SameFile(v, v', t[i]);
    }

    lemma IndirectInRange(ip: Inode)
      requires Valid() && Loaded(ip) && ip.din.addrs[NDIRECT] != 0
      ensures ip.din.addrs[NDIRECT] < |view|
    {
      assert Addr(view, table[ip.inum], NDIRECT) == ip.din.addrs[NDIRECT];
    }

    /**
      The block of block number bn of a file, allocated if necessary; 0 if the disk is
      full.  Slots that were set keep their block and its contents, no other file
      changes, and nothing allocated is lost, even when the second allocation fails.
      `bm` are the bitmap blocks written: at most one per block allocated.
     */
    method Bmap(ip: Inode, bn: nat) returns (r: nat, ghost bm: set<nat>)
      requires Valid() && Loaded(ip) && bn < MAXFILE
      modifies this`view, this`table, this`owner, this`loose, this`dirty, this`logged, ip`din
      ensures Valid() && Loaded(ip) && SameHeader(old(ip.din), ip.din) && |view| == |old(view)|
      ensures r == Addr(view, ip.din, BlockSlot(bn)) && (r != 0 ==> r < |view|)
      ensures Addr(old(view), old(ip.din), BlockSlot(bn)) != 0 ==>
        view == old(view) && ip.din == old(ip.din) && bm == {} && logged == old(logged) && owner == old(owner)
      ensures Grown(old(view), old(ip.din), view, ip.din)
      ensures OthersKept(old(view), view, old(table), table, ip.inum)
      ensures loose == old(loose) && dirty <= old(dirty) + {ip.inum}
      ensures r == 0 ==> Full()
      ensures Charge(Maps(sb), old(logged), logged, bn, Addr(old(view), old(ip.din), BlockSlot(bn)) != 0, r != 0, r, bm,
                     old(ip.din).addrs[NDIRECT], ip.din.addrs[NDIRECT])
      ensures Logs(old(logged), logged, Addr(old(view), old(ip.din), BlockSlot(bn)) != 0, old(Full()))
      ensures Addr(old(view), old(ip.din), BlockSlot(bn)) == 0 && old(Full()) ==> r == 0
    {
      hide Consistent; hide Addr; hide SameFile; hide Grown; hide OthersKept; hide Full; hide Maps; hide SameHeader; hide Logs;
      Shape();
      if bn < NDIRECT {
        r, bm := BmapDirect(ip, bn);
      } else {
        r, bm := BmapIndirect(ip, bn - NDIRECT);
      }
    }

    // bmap for the direct block numbers.
    method BmapDirect(ip: Inode, bn: nat) returns (r: nat, ghost bm: set<nat>)
      requires Valid() && Loaded(ip) && bn < NDIRECT
      modifies this`view, this`table, this`owner, this`loose, this`dirty, this`logged, ip`din
      ensures Valid() && Loaded(ip) && SameHeader(old(ip.din), ip.din) && |view| == |old(view)|
      ensures r == Addr(view, ip.din, bn) && (r != 0 ==> r < |view|)
      ensures Addr(old(view), old(ip.din), bn) != 0 ==>
        view == old(view) && ip.din == old(ip.din) && bm == {} && logged == old(logged) && owner == old(owner)
      ensures Grown(old(view), old(ip.din), view, ip.din)
      ensures OthersKept(old(view), view, old(table), table, ip.inum)
      ensures loose == old(loose) && dirty <= old(dirty) + {ip.inum}
      ensures r == 0 ==> Full()
      ensures logged <= old(logged) + bm + {r} && bm <= Maps(sb) && |bm| <= 1
      ensures ip.din.addrs[NDIRECT] == old(ip.din).addrs[NDIRECT]
      ensures Logs(old(logged), logged, Addr(old(view), old(ip.din), bn) != 0, old(Full()))
      ensures Addr(old(view), old(ip.din), bn) == 0 && old(Full()) ==> r == 0
    {
      hide Consistent; hide Word; hide SameFile; hide InUse; hide Grown; hide OthersKept; hide Full; hide Maps;
      Shape();
      assert Addr(view, ip.din, NDIRECT) == ip.din.addrs[NDIRECT];
      r, bm := MapDirect(ip, bn);
      assert Addr(view, ip.din, NDIRECT) == ip.din.addrs[NDIRECT];
      SlotInRange(ip, bn);
    }

    // bmap for block numbers past the direct ones.
    method BmapIndirect(ip: Inode, j: nat) returns (r: nat, ghost bm: set<nat>)
      requires Valid() && Loaded(ip) && j < NINDIRECT
      modifies this`view, this`table, this`owner, this`loose, this`dirty, this`logged, ip`din
      ensures Valid() && Loaded(ip) && SameHeader(old(ip.din), ip.din) && |view| == |old(view)|
      ensures r == Addr(view, ip.din, NDIRECT + 1 + j) && (r != 0 ==> r < |view|)
      ensures Addr(old(view), old(ip.din), NDIRECT + 1 + j) != 0 ==>
        view == old(view) && ip.din == old(ip.din) && bm == {} && logged == old(logged) && owner == old(owner)
      ensures Grown(old(view), old(ip.din), view, ip.din)
      ensures OthersKept(old(view), view, old(table), table, ip.inum)
      ensures loose == old(loose) && dirty <= old(dirty) + {ip.inum}
      ensures r == 0 ==> Full()
      ensures logged <= old(logged) + bm + {r} + {ip.din.addrs[NDIRECT]}
      ensures bm <= Maps(sb) && |bm| <= if old(ip.din).addrs[NDIRECT] != 0 then 1 else 2
      ensures old(ip.din).addrs[NDIRECT] != 0 ==> ip.din.addrs[NDIRECT] == old(ip.din).addrs[NDIRECT]
      ensures r != 0 ==> ip.din.addrs[NDIRECT] != 0
      ensures Logs(old(logged), logged, Addr(old(view), old(ip.din), NDIRECT + 1 + j) != 0, old(Full()))
      ensures Addr(old(view), old(ip.din), NDIRECT + 1 + j) == 0 && old(Full()) ==> r == 0
    {
      hide Consistent; hide Word; hide SameFile; hide InUse; hide Grown; hide OthersKept; hide SlotFilled; hide AllTaken; hide Maps; hide Logs;
      ghost var was, d, t, lg, full := view, ip.din, table, logged, Full();
      var ind, bm0 := MapDirect(ip, NDIRECT);
      SlotFilledMeans(was, d, view, ip.din, NDIRECT, NDIRECT + 1 + j);
      r, bm := ind, bm0;
      if ind == 0 {
        return;
      }
      ghost var lg1, had1, full1 := logged, Addr(view, ip.din, NDIRECT + 1 + j) != 0, Full();
      ghost var mid, e, t' := view, ip.din, table;
      ghost var bm1;
      r, bm1 := MapEntry(ip, j);
      bm := bm0 + bm1;
      UnionSize(bm0, bm1);
      LogsBoth(lg, lg1, logged, d.addrs[NDIRECT] != 0, had1, full, full1);
      SlotFilledMeans(mid, e, view, e, NDIRECT + 1 + j, NDIRECT);
      SlotInRange(ip, NDIRECT + 1 + j);
      GrownTrans(was, d, mid, e, view, e);
      OthersKeptTrans(was, mid, view, t, t', t', ip.inum);
    }

    lemma SlotInRange(ip: Inode, k: nat)
      requires Valid() && Loaded(ip) && k < SLOTS
      ensures Addr(view, ip.din, k) == 0 || Addr(view, ip.din, k) < |view|
    {
      assert Addr(view, table[ip.inum], k) == Addr(view, ip.din, k);
    }

    /** Copy the in-memory inode to its place in the inode table on disk. */
    method Iupdate(ip: Inode)
      requires Valid() && Current(ip)
      modifies this`view, this`dirty, this`logged
      ensures Valid() && FilesKept(old(view), view, table) && |view| == |old(view)|
      ensures dirty == old(dirty) - {ip.inum} && logged == old(logged) + {sb.IBlock(ip.inum)} && Within(old(view), view, logged)
    {
      hide Consistent; hide DinodeAt; hide SameFile;
      StoreInodeConsistent(sb, view, table, owner, loose, dirty, ip.inum);
      view := StoreDinode(sb, view, ip.inum, ip.din);
      dirty := dirty - {ip.inum};
      logged := logged + {sb.IBlock(ip.inum)};
    }

    function Cleared(d: Dinode): Dinode {
      Dinode(d.kind, d.major, d.minor, d.nlink, 0, seq(NDIRECT + 1, _ => 0))
    }

    // The ghost side of itrunc: all blocks of ip become loose at once.
    ghost method Detach(ip: Inode)
      requires Valid() && Loaded(ip)
      modifies this`table, this`owner, this`loose, this`dirty
      ensures Valid() && table == old(table)[ip.inum := Cleared(ip.din)]
      ensures owner == old(owner) - OwnedBy(old(owner), ip.inum)
      ensures loose == old(loose) + Pending(old(owner), ip.inum, 0) && old(loose) !! Pending(old(owner), ip.inum, 0)
      ensures dirty == old(dirty) + {ip.inum}
    {
      hide Marks; hide Synced; hide Addr;
      DetachConsistent(sb, view, table, owner, loose, dirty, ip.inum, Cleared(ip.din));
      PendingEnds(sb, view, table, owner, ip.inum);
      loose := loose + OwnedBy(owner, ip.inum);
      owner := owner - OwnedBy(owner, ip.inum);
      table := table[ip.inum := Cleared(ip.din)];
      dirty := dirty + {ip.inum};
    }

    // Free the block of a direct slot, if it has one.
    method TruncSlot(ip: Inode, i: nat, ghost view0: Image, ghost table0: Table, ghost owner0: Owner, ghost loose0: set<nat>)
      requires Valid() && Owns(sb, view0, table0, owner0) && ip.inum < |table0| && i < NDIRECT
      requires |ip.din.addrs| == NDIRECT + 1 && |table0[ip.inum].addrs| == NDIRECT + 1 && ip.din.addrs[i] == table0[ip.inum].addrs[i]
      requires owner == owner0 - OwnedBy(owner0, ip.inum)
      requires loose == loose0 + Pending(owner0, ip.inum, i) && loose0 !! Pending(owner0, ip.inum, 0)
      modifies this`view, this`loose, this`logged, ip`din
      ensures Valid() && loose == loose0 + Pending(owner0, ip.inum, i + 1)
      ensures FilesKept(old(view), view, table)
      ensures DataKept(sb, old(view), view)
      ensures ip.din == old(ip.din).(addrs := old(ip.din).addrs[i := 0])
      ensures Freed(sb, old(view), old(loose), old(logged), view, loose, logged)
    {
      hide Consistent; hide Owns; hide SameFile; hide Word; hide InUse; hide Freed;
      Shape();
      PendingStep(sb, view0, table0, owner0, ip.inum, i);
      if ip.din.addrs[i] != 0 {
        var ok := Bfree(ip.din.addrs[i]);
        assert ok;  // never "freeing free block"
        ip.din := ip.din.(addrs := ip.din.addrs[i := 0]);
      } else {
        FilesKeptRefl(view, table);
        FreedNothing(sb, view, loose, logged);
        assert ip.din.addrs[i := 0] == ip.din.addrs;
      }
    }

    // The first loop of itrunc, over the direct blocks.
    method TruncDirect(ip: Inode, ghost view0: Image, ghost table0: Table, ghost owner0: Owner, ghost loose0: set<nat>)
      requires Valid() && Owns(sb, view0, table0, owner0) && ip.inum < |table0| && table0[ip.inum] == ip.din
      requires owner == owner0 - OwnedBy(owner0, ip.inum)
      requires loose == loose0 + Pending(owner0, ip.inum, 0) && loose0 !! Pending(owner0, ip.inum, 0)
      modifies this`view, this`loose, this`logged, ip`din
      ensures Valid() && loose == loose0 + Pending(owner0, ip.inum, NDIRECT)
      ensures FilesKept(old(view), view, table)
      ensures DataKept(sb, old(view), view)
      ensures |old(ip.din).addrs| == NDIRECT + 1
      ensures ip.din == old(ip.din).(addrs := seq(NDIRECT, _ => 0) + [old(ip.din).addrs[NDIRECT]])
      ensures Freed(sb, old(view), old(loose), old(logged), view, loose, logged)
    {
      hide Consistent; hide Owns; hide FilesKept; hide OwnedBy; hide Freed; hide Pending; hide DataKept;
      Shape();
      OwnsUnfolds(sb, view0, table0, owner0);
      FilesKeptRefl(view, table);
      FreedNothing(sb, view, loose, logged);
      DataKeptRefl(sb, view);
      ghost var d0 := ip.din;
      assert Zeroed(d0.addrs, 0) == d0.addrs;
      var i := 0;
      while i < NDIRECT
        invariant 0 <= i <= NDIRECT && Valid() && FilesKept(old(view), view, table)
        invariant loose == loose0 + Pending(owner0, ip.inum, i)
        invariant DataKept(sb, old(view), view)
        invariant ip.din == d0.(addrs := Zeroed(d0.addrs, i))
        invariant Freed(sb, old(view), old(loose), old(logged), view, loose, logged)
      {
        ghost var was, l, g := view, loose, logged;
        TruncSlot(ip, i, view0, table0, owner0, loose0);
        FreedTrans(sb, old(view), old(loose), old(logged), was, l, g, view, loose, logged);
        SameFileTrans(old(view), was, view, table);
        DataKeptTrans(sb, old(view), was, view);
        ZeroedMore(d0.addrs, i);
        i := i + 1;
      }
      assert d0.addrs[NDIRECT..] == [d0.addrs[NDIRECT]];
    }

    // The second half of itrunc: the blocks of the indirect block, then the indirect block.
    method TruncIndirect(ip: Inode, ghost view0: Image, ghost table0: Table, ghost owner0: Owner, ghost loose0: set<nat>)
      requires Valid() && Owns(sb, view0, table0, owner0) && ip.inum < |table0|
      requires |ip.din.addrs| == NDIRECT + 1 && ip.din.addrs[NDIRECT] == table0[ip.inum].addrs[NDIRECT] != 0
      requires owner == owner0 - OwnedBy(owner0, ip.inum)
      requires loose == loose0 + Pending(owner0, ip.inum, NDIRECT) && loose0 !! Pending(owner0, ip.inum, 0)
      requires |view0| == |view| && forall c :: sb.DataStart() <= c < |view| ==> view[c] == view0[c]
      modifies this`view, this`loose, this`logged, ip`din
      ensures Valid() && loose == loose0
      ensures FilesKept(old(view), view, table)
      ensures ip.din == old(ip.din).(addrs := old(ip.din).addrs[NDIRECT := 0])
      ensures Freed(sb, old(view), old(loose), old(logged), view, loose, logged)
    {
      hide Consistent; hide Owns; hide SameFile; hide Word; hide Freed;
      Shape();
      OwnsUnfolds(sb, view0, table0, owner0);
      PendingEnds(sb, view0, table0, owner0, ip.inum);
      FilesKeptRefl(view, table);
      FreedNothing(sb, view, loose, logged);
      var ind := ip.din.addrs[NDIRECT];
      var a := view[ind];
      var j := 0;
      while j < NINDIRECT
        invariant 0 <= j <= NINDIRECT && Valid() && FilesKept(old(view), view, table) && ip.din == old(ip.din)
        invariant loose == loose0 + Pending(owner0, ip.inum, NDIRECT + 1 + j)
        invariant Freed(sb, old(view), old(loose), old(logged), view, loose, logged)
      {
        PendingStep(sb, view0, table0, owner0, ip.inum, NDIRECT + 1 + j);
        assert Addr(view0, table0[ip.inum], NDIRECT + 1 + j) == Word(a, j);
        if Word(a, j) != 0 {
          ghost var was, l, g := view, loose, logged;
          var ok := Bfree(Word(a, j));
          assert ok;  // never "freeing free block"
          FreedTrans(sb, old(view), old(loose), old(logged), was, l, g, view, loose, logged);
          SameFileTrans(old(view), was, view, table);
        }
        j := j + 1;
      }
      ghost var was, l, g := view, loose, logged;
      var ok := Bfree(ind);
      assert ok;
      FreedTrans(sb, old(view), old(loose), old(logged), was, l, g, view, loose, logged);
      SameFileTrans(old(view), was, view, table);
      ip.din := ip.din.(addrs := ip.din.addrs[NDIRECT := 0]);
    }

    /**
      Truncate: free exactly the blocks the inode owns, those past its size and the
      indirect block included, each once and never one that is free already.
     */
    method Itrunc(ip: Inode)
      requires Valid() && Loaded(ip)
      modifies this`view, this`table, this`owner, this`loose, this`dirty, this`logged, ip`din
      ensures Valid() && Loaded(ip) && ip.din == Cleared(old(ip.din))
      ensures OthersKept(old(view), view, old(table), table, ip.inum)
      ensures owner == old(owner) - OwnedBy(old(owner), ip.inum) && loose == old(loose)
      ensures sb.Valid() && |view| == |old(view)| == sb.size
      ensures forall b :: 0 <= b < sb.size ==> (InUse(sb, view, b) <==> InUse(sb, old(view), b) && b !in OwnedBy(old(owner), ip.inum))
      ensures dirty == old(dirty) - {ip.inum}
      ensures logged == old(logged) + Touched(sb, old(owner), ip.inum) && Within(old(view), view, logged)
    {
      hide Consistent; hide Owns; hide SameFile; hide Word; hide InUse; hide Freed; hide Touched;
      Shape();
      ghost var view0, table0, owner0, loose0 := view, table, owner, loose;
      ConsistentOwns(sb, view, table, owner, loose, dirty);
      Detach(ip);
      PendingEnds(sb, view0, table0, owner0, ip.inum);
      ghost var logged0, l0 := logged, loose;
      TruncDirect(ip, view0, table0, owner0, loose0);
      if ip.din.addrs[NDIRECT] != 0 {
        ghost var was, l, g := view, loose, logged;
        TruncIndirect(ip, view0, table0, owner0, loose0);
        SameFileTrans(view0, was, view, table);
        FreedTrans(sb, view0, l0, logged0, was, l, g, view, loose, logged);
      }
      assert loose == loose0 && l0 == loose0 + OwnedBy(owner0, ip.inum);
      FreedAll(sb, view0, owner0, ip.inum, loose0, logged0, view, logged);
      FreedWithin(sb, view0, l0, logged0, view, loose, logged);
      ip.din := ip.din.(size := 0);
      assert ip.din.addrs == Cleared(ip.din).addrs;
      ghost var was := view;
      Iupdate(ip);
      SameFileTrans(view0, was, view, table);
      FilesKeptOthers(view0, view, table, ip.inum);
      TruncatedMarks(sb, view0, owner0, loose0, view, table0, table, old(dirty), dirty, ip.inum);
    }

    // Copy bytes into block a of the file, at its byte pos.
    method PutBytes(ip: Inode, a: nat, pos: nat, s: seq<Byte>, ghost c: seq<Byte>)
      requires Valid() && Loaded(ip) && s != [] && pos % BSIZE + |s| <= BSIZE && pos + |s| <= MAXFILE * BSIZE
      requires a == Addr(view, ip.din, BlockSlot(pos / BSIZE)) && 0 < a < |view|
      modifies this`view, this`logged
      ensures Valid() && Loaded(ip) && |view| == |old(view)|
      ensures OthersKept(old(view), view, table, table, ip.inum)
      ensures pos <= |c| && Content(old(view), ip.din, c) ==> Content(view, ip.din, Overwrite(c, pos, s))
      ensures logged == old(logged) + {a}
    {
      hide Marks; hide Synced; hide SameFile; hide Addr; hide Overwrite;
      assert Addr(view, table[ip.inum], BlockSlot(pos / BSIZE)) == a;
      if pos <= |c| && Content(view, ip.din, c) {
        ContentWrite(sb, view, table, owner, ip.inum, c, pos, s);
      }
      WriteDataConsistent(sb, view, table, owner, loose, dirty, a, Splice(view[a], pos % BSIZE, s));
      view := view[a := Splice(view[a], pos % BSIZE, s)];
      logged := logged + {a};
    }

    // One turn of the loop of writei, at byte pos.  The copy from src fails if src ends
    // before the chunk does (an address that either_copyin cannot read).
    method WriteTurn(ip: Inode, pos: nat, m: nat, chunk: seq<Byte>, faults: bool, ghost c: seq<Byte>)
      returns (ok: bool, ghost r: nat, ghost bm: set<nat>)
      requires Valid() && Loaded(ip) && 0 < m && pos % BSIZE + m <= BSIZE && pos + m <= MAXFILE * BSIZE
      requires !faults ==> |chunk| == m
      modifies this`view, this`table, this`owner, this`loose, this`dirty, this`logged, ip`din
      ensures Valid() && Loaded(ip) && SameHeader(old(ip.din), ip.din) && |view| == |old(view)|
      ensures OthersKept(old(view), view, old(table), table, ip.inum)
      ensures loose == old(loose) && dirty <= old(dirty) + {ip.inum}
      ensures !ok ==> faults || Full()
      ensures ok ==> !faults
      ensures pos <= |c| && Content(old(view), old(ip.din), c) ==> Content(view, ip.din, if ok then Overwrite(c, pos, chunk) else c)
      ensures Charge(Maps(sb), old(logged), logged, pos / BSIZE, Addr(old(view), old(ip.din), BlockSlot(pos / BSIZE)) != 0, ok, r, bm,
                     old(ip.din).addrs[NDIRECT], ip.din.addrs[NDIRECT])
    {
      hide Consistent; hide Content; hide Addr; hide Grown; hide SameFile; hide Splice; hide Overwrite; hide OthersKept; hide Charge; hide Full;
      Shape();
      ghost var was, d, t, lg := view, ip.din, table, logged;
      var a;
      a, bm := Bmap(ip, pos / BSIZE);
      r := a;
      ChargeData(Maps(sb), lg, logged, pos / BSIZE, Addr(was, d, BlockSlot(pos / BSIZE)) != 0, r, bm, d.addrs[NDIRECT], ip.din.addrs[NDIRECT]);
      if pos <= |c| && Content(was, d, c) {
        GrownContent(was, d, view, ip.din, c);
      }
      ok := a != 0 && !faults;
      if ok {
        ghost var mid := view;
        PutBytes(ip, a, pos, chunk, c);
        OthersKeptTrans(was, mid, view, t, table, table, ip.inum);
      }
    }

    // The end of writei: the size grows to the offset reached, and the inode is written.
    method Finish(ip: Inode, end: nat, ghost c: seq<Byte>)
      requires Valid() && Loaded(ip) && end <= MAXFILE * BSIZE && ip.din.size <= MAXFILE * BSIZE
      modifies this`view, this`table, this`dirty, this`logged, ip`din
      ensures Valid() && Loaded(ip) && SameHeader(old(ip.din).(size := ip.din.size), ip.din)
      ensures ip.din.size == if end > old(ip.din).size then end else old(ip.din).size
      ensures OthersKept(old(view), view, old(table), table, ip.inum)
      ensures |c| == ip.din.size && Content(old(view), old(ip.din), c) ==> HoleFree(view, ip.din) && Bytes(view, ip.din) == c
      ensures dirty == old(dirty) - {ip.inum} && logged == old(logged) + {sb.IBlock(ip.inum)}
    {
      hide Consistent; hide SameFile; hide HoleFree; hide Bytes; hide Addr; hide ByteAt;
      Shape();
      ghost var view0, d0, t0 := view, ip.din, table;
      if end > ip.din.size {
        ResizeConsistent(sb, view, table, owner, loose, dirty, ip.inum, end);
        ip.din := ip.din.(size := end);
        table := table[ip.inum := ip.din];
        dirty := dirty + {ip.inum};
      }
      ResizedContent(view, d0, ip.din, c);
      Iupdate(ip);
      FilesKeptOthers(view0, view, table, ip.inum);
      if |c| == ip.din.size && Content(view0, d0, c) {
        ContentIsBytes(view0, ip.din, c);
        SameFileBytes(view0, view, ip.din);
      }
    }

    // One turn of the loop of writei, with the books of the whole loop.
    method WriteStep(ip: Inode, src: seq<Byte>, off: nat, tot: nat, n: nat, ghost hf: bool, ghost c0: seq<Byte>,
                     ghost tally: Tally, ghost logged0: set<nat>) returns (going: bool, ghost tally': Tally)
      requires Valid() && Loaded(ip) && off <= |c0| && off + n <= MAXFILE * BSIZE && tot < n && tot <= |src|
      requires hf ==> Content(view, ip.din, Overwrite(c0, off, src[..tot]))
      requires sb.Valid() && Tallied(Maps(sb), tally, logged, logged0) && Settled(tally, ip.din.addrs[NDIRECT]) && Turns(tally, off, tot, n, true, hf)
      modifies this`view, this`table, this`owner, this`loose, this`dirty, this`logged, ip`din
      ensures Valid() && Loaded(ip) && SameHeader(old(ip.din), ip.din) && loose == old(loose)
      ensures OthersKept(old(view), view, old(table), table, ip.inum) && dirty <= old(dirty) + {ip.inum}
      ensures !going ==> Full() || |src| < tot + Chunk(off + tot, n - tot)
      ensures var tot' := if going then tot + Chunk(off + tot, n - tot) else tot;
        && tot' <= |src| && Turns(tally', off, tot', n, going, hf)
        && (hf ==> Content(view, ip.din, Overwrite(c0, off, src[..tot'])))
      ensures Tallied(Maps(sb), tally', logged, logged0) && (going ==> Settled(tally', ip.din.addrs[NDIRECT]))
    {
      hide Consistent; hide Content; hide Addr; hide SameFile; hide Overwrite; hide OthersKept; hide Tallied; hide Settled; hide Turns; hide Charge; hide Full; hide Maps;
      var m := Chunk(off + tot, n - tot);
      var faults := tot + m > |src|;
      ghost var c := Overwrite(c0, off, src[..tot]);
      ghost var d, lg := ip.din, logged;
      if hf && !faults { OverwriteMore(c0, off, src, tot, m); }
      if hf && (off + tot) % BSIZE != 0 { HadFirst(view, d, c, off + tot); }
      ghost var had := Addr(view, ip.din, BlockSlot((off + tot) / BSIZE)) != 0;
      ghost var a, bm;
      going, a, bm := WriteTurn(ip, off + tot, m, if faults then [] else src[tot..tot + m], faults, c);
      tally' := NextTurn(Maps(sb), tally, lg, logged0, off, tot, n, hf, had, going, a, bm, d.addrs[NDIRECT], ip.din.addrs[NDIRECT], logged);
    }

    // The loop of writei.  hf: the file was hole-free, with contents c0.
    method WriteLoop(ip: Inode, src: seq<Byte>, off: nat, n: nat, ghost hf: bool, ghost c0: seq<Byte>) returns (tot: nat)
      requires Valid() && Loaded(ip) && off <= ip.din.size == |c0| && off + n <= MAXFILE * BSIZE
      requires hf ==> Content(view, ip.din, c0)
      modifies this`view, this`table, this`owner, this`loose, this`dirty, this`logged, ip`din
      ensures Valid() && Loaded(ip) && SameHeader(old(ip.din), ip.din) && loose == old(loose)
      ensures tot <= n && tot <= |src|
      ensures tot < n ==> Full() || |src| < tot + Chunk(off + tot, n - tot)
      ensures OthersKept(old(view), view, old(table), table, ip.inum) && dirty <= old(dirty) + {ip.inum}
      ensures hf ==> Content(view, ip.din, Overwrite(c0, off, src[..tot]))
      ensures hf && n <= 3 * BSIZE && old(logged) == {} ==> |logged + {sb.IBlock(ip.inum)}| <= WriteBound(sb)
    {
      hide Consistent; hide Content; hide Addr; hide SameFile; hide Overwrite; hide OthersKept; hide Tallied; hide Settled; hide Turns; hide Full; hide Maps;
      Shape();
      FilesKeptRefl(view, table);
      FilesKeptOthers(view, view, table, ip.inum);
      OverwriteNothing(c0, off);
      ghost var view0, t0, logged0 := view, table, logged;
      tot := 0;
      assert src[..tot] == [];
      ghost var tally := FirstTurn(Maps(sb), logged, off, n, hf, ip.din.addrs[NDIRECT]);
      var going := true;
      while tot < n && going
        invariant 0 <= tot <= n && tot <= |src| && Valid() && Loaded(ip) && SameHeader(old(ip.din), ip.din) && loose == old(loose)
        invariant OthersKept(view0, view, t0, table, ip.inum) && dirty <= old(dirty) + {ip.inum}
        invariant hf ==> Content(view, ip.din, Overwrite(c0, off, src[..tot]))
        invariant !going ==> Full() || |src| < tot + Chunk(off + tot, n - tot)
        invariant Tallied(Maps(sb), tally, logged, logged0) && (going ==> Settled(tally, ip.din.addrs[NDIRECT]))
        invariant Turns(tally, off, tot, n, going, hf)
        decreases n - tot, going
      {
        ghost var was, t := view, table;
        going, tally := WriteStep(ip, src, off, tot, n, hf, c0, tally, logged0);
        OthersKeptTrans(view0, was, view, t0, t, table, ip.inum);
        if going {
          tot := tot + Chunk(off + tot, n - tot);
        }
      }
      if hf && n <= 3 * BSIZE && logged0 == {} { TurnsBudget(Maps(sb), tally, off, tot, n, going, logged, sb.IBlock(ip.inum)); }
    }

    /**
      Write n bytes at off, taken from src; the copy faults where src ends.  Returns
      the number of bytes written, or -1 if the range starts past the end of the
      file, wraps around 32 bits or goes past the largest file.  Bytes [off, off + r)
      and nothing else of the file change, it stays hole-free, no other file changes,
      and it stops early only at a fault or on a full disk.  A hole-free file and
      n at most three blocks keep the whole write within MAXOPBLOCKS blocks of log.
     */
    method Writei(ip: Inode, src: seq<Byte>, off: nat, n: nat) returns (r: int)
      requires Valid() && Loaded(ip) && off < UINT && n < UINT && ip.din.size <= MAXFILE * BSIZE
      modifies this`view, this`table, this`owner, this`loose, this`dirty, this`logged, ip`din
      ensures Valid() && Loaded(ip) && loose == old(loose) && ip.din.size <= MAXFILE * BSIZE
      ensures r == -1 <==> off > old(ip.din).size || off + n >= UINT || off + n > MAXFILE * BSIZE
      ensures r == -1 ==> view == old(view) && ip.din == old(ip.din) && table == old(table) && owner == old(owner) && logged == old(logged) && dirty == old(dirty)
      ensures r != -1 ==> 0 <= r <= n && r <= |src|
      ensures r != -1 && r < n ==> Full() || |src| < r + Chunk(off + r, n - r)
      ensures OthersKept(old(view), view, old(table), table, ip.inum)
      ensures r != -1 ==> ip.din.size == if off + r > old(ip.din).size then off + r else old(ip.din).size
      ensures old(HoleFree(view, ip.din)) ==> HoleFree(view, ip.din)
      ensures old(HoleFree(view, ip.din)) && r != -1 ==>
        Bytes(view, ip.din) == Overwrite(old(Bytes(view, ip.din)), off, src[..r])
      ensures r != -1 ==> dirty <= old(dirty) - {ip.inum}
      ensures old(HoleFree(view, ip.din)) && n <= 3 * BSIZE && old(logged) == {} ==> |logged| <= WriteBound(sb)
    {
      hide Consistent; hide Content; hide Addr; hide SameFile; hide Overwrite; hide HoleFree; hide Bytes; hide OthersKept; hide ByteAt;
      if off > ip.din.size || off + n >= UINT || off + n > MAXFILE * BSIZE {
        Shape();
        FilesKeptRefl(view, table);
        FilesKeptOthers(view, view, table, ip.inum);
        return -1;
      }
      ghost var view0, t0 := view, table;
      ghost var hf, c0 := HoleFree(view, ip.din), Bytes(view, ip.din);
      ContentIsBytes(view, ip.din, c0);
      r := WriteLoop(ip, src, off, n, hf, c0);
      ghost var was, t := view, table;
      Finish(ip, off + r, Overwrite(c0, off, src[..r]));
      OthersKeptTrans(view0, was, view, t0, t, table, ip.inum);
    }

    // One turn of the loop of readi.
    method ReadTurn(ip: Inode, pos: nat, m: nat) returns (a: nat, chunk: seq<Byte>)
      requires Valid() && Loaded(ip) && 0 < m && pos % BSIZE + m <= BSIZE && pos + m <= MAXFILE * BSIZE
      modifies this`view, this`table, this`owner, this`loose, this`dirty, this`logged, ip`din
      ensures Valid() && Loaded(ip) && SameHeader(old(ip.din), ip.din) && loose == old(loose)
      ensures OthersKept(old(view), view, old(table), table, ip.inum)
      ensures a != 0 ==> |chunk| == m
      ensures Hole(old(view), old(ip.din), pos / BSIZE) && old(Full()) ==> a == 0 && logged == old(logged)
      ensures Hole(old(view), old(ip.din), pos / BSIZE) && !old(Full()) ==> logged != {}
      ensures old(logged) <= logged
      ensures !Hole(old(view), old(ip.din), pos / BSIZE) ==>
        && a != 0 && view == old(view) && ip.din == old(ip.din) && logged == old(logged) && owner == old(owner)
        && forall p :: 0 <= p < m ==> chunk[p] == ByteAt(view, ip.din, pos + p)
    {
      hide Consistent; hide SameFile; hide OthersKept; hide Addr; hide Grown; hide Charge; hide AllTaken; hide ByteAt;
      ghost var bm;
      a, bm := Bmap(ip, pos / BSIZE);
      chunk := [];
      if a != 0 {
        chunk := view[a][pos % BSIZE..pos % BSIZE + m];
        ChunkBytes(view, ip.din, pos, m);
      }
    }

    /**
      Read n bytes at off into a destination with room for `room` bytes.  Nothing is
      read past the end of the file.  Unless the read meets a hole, nothing changes; the
      result is -1 exactly when what there is to read does not fit, and otherwise the
      matching slice of the contents.  A read that meets a hole allocates a block for it
      and logs that, unless the disk is full.
     */
    method Readi(ip: Inode, off: nat, n: nat, room: nat) returns (r: int, data: seq<Byte>)
      requires Valid() && Loaded(ip) && off < UINT && n < UINT && ip.din.size <= MAXFILE * BSIZE
      modifies this`view, this`table, this`owner, this`loose, this`dirty, this`logged, ip`din
      ensures Valid() && Loaded(ip) && loose == old(loose)
      ensures OthersKept(old(view), view, old(table), table, ip.inum)
      ensures off > old(ip.din).size || off + n >= UINT ==> r == 0 && data == [] && logged == old(logged)
      ensures off <= old(ip.din).size && off + n < UINT ==>
        var end := if off + n > old(ip.din).size then old(ip.din).size else off + n;
        if MeetsHole(old(view), old(ip.din), off, end, room) then if old(Full()) then logged == old(logged) else logged != {}
        else
          && view == old(view) && ip.din == old(ip.din) && logged == old(logged)
          && if end - off > room then r == -1 else r == end - off && data == Bytes(view, ip.din)[off..end]
    {
      hide Consistent; hide SameFile; hide OthersKept; hide Addr; hide Bytes; hide ByteAt; hide AllTaken; hide Hole; hide MeetsHole; hide Looks;
      Shape();
      FilesKeptRefl(view, table);
      FilesKeptOthers(view, view, table, ip.inum);
      r, data := 0, [];
      if off > ip.din.size || off + n >= UINT {
        return;
      }
      var len := if off + n > ip.din.size then ip.din.size - off else n;
      ghost var view0, d0, t0, lg0, full0 := view, ip.din, table, logged, Full();
      ghost var met, end := false, off + len;
      ReadNothing(view0, d0, lg0, full0, off, end, room);
      var tot := 0;
      while tot < len
        invariant 0 <= tot <= len && |data| == tot && tot <= room && Valid() && Loaded(ip) && SameHeader(d0, ip.din) && loose == old(loose)
        invariant OthersKept(view0, view, t0, table, ip.inum)
        invariant tot > 0 && tot < len ==> (off + tot) % BSIZE == 0
        invariant ReadSoFar(view0, d0, lg0, full0, off, end, room, off + tot, met, view, ip.din, logged, data)
        invariant !met ==> owner == old(owner)
      {
        var m := Chunk(off + tot, len - tot);
        ghost var was, d, t, lg := view, ip.din, table, logged;
        var a, chunk := ReadTurn(ip, off + tot, m);
        OthersKeptTrans(view0, was, view, t0, t, table, ip.inum);
        ghost var hole := Hole(was, d, (off + tot) / BSIZE);
        if a == 0 {
          ReadStopped(view0, d0, lg0, full0, off, end, room, tot, m, met, was, d, lg, data, view, ip.din, logged, hole);
          break;
        }
        if tot + m > room {
          ReadCramped(view0, d0, lg0, full0, off, end, room, tot, m, met, was, d, lg, data, view, ip.din, logged, hole);
          return -1, [];
        }
        ReadOn(view0, d0, lg0, full0, off, end, room, tot, m, met, was, d, lg, data, view, ip.din, logged, chunk, hole);
        met := met || hole;
        data := data + chunk;
        tot := tot + m;
      }
      if tot == len { ReadAll(view0, d0, lg0, full0, off, end, room, met, view, ip.din, logged, data); }
      r := tot;
    }

    // One operation of filewrite: begin_op, writei, end_op.
    method WriteOp(ip: Inode, src: seq<Byte>, off: nat, n: nat) returns (r: int, ghost op: set<nat>)
      requires Valid() && Loaded(ip) && off < UINT && 0 < n <= 3 * BSIZE && ip.din.size <= MAXFILE * BSIZE
      modifies this`view, this`table, this`owner, this`loose, this`dirty, this`logged, ip`din
      ensures Valid() && Loaded(ip) && loose == old(loose) && ip.din.size <= MAXFILE * BSIZE && (old(HoleFree(view, ip.din)) ==> HoleFree(view, ip.din))
      ensures OthersKept(old(view), view, old(table), table, ip.inum)
      ensures -1 <= r <= n && r <= |src|
      ensures r == -1 <==> off > old(ip.din).size || off + n > MAXFILE * BSIZE
      ensures r == -1 ==> view == old(view) && ip.din == old(ip.din)
      ensures 0 <= r < n ==> Full() || |src| < n
      ensures r != -1 ==> off <= old(ip.din).size && off + r <= ip.din.size <= MAXFILE * BSIZE
      ensures old(HoleFree(view, ip.din)) && r != -1 ==> Bytes(view, ip.din) == Overwrite(old(Bytes(view, ip.din)), off, src[..r])
      ensures (old(HoleFree(view, ip.din)) ==> |op| <= WriteBound(sb)) && dirty <= old(dirty)
    {
      hide Consistent; hide OthersKept; hide Overwrite; hide HoleFree; hide Bytes; hide Addr; hide ByteAt;
      logged := {};
      r := Writei(ip, src, off, n);
      op := logged;
    }

    /**
      filewrite on an inode file: at most `max` bytes per operation, so that each
      operation logs at most MAXOPBLOCKS blocks, whatever the offset, the length and
      the place of the bitmap blocks, and fewer unless there are four bitmap blocks.
      The bytes up to the new offset are written in order; the result is n only if all
      of them are, otherwise -1.  An offset past the end of the file writes nothing.
     */
    method FileWrite(ip: Inode, src: seq<Byte>, off: nat, n: int) returns (ret: int, newOff: nat, ghost ops: seq<set<nat>>)
      requires Valid() && Loaded(ip) && off < UINT && ip.din.size <= MAXFILE * BSIZE
      modifies this`view, this`table, this`owner, this`loose, this`dirty, this`logged, ip`din
      ensures Valid() && Loaded(ip) && loose == old(loose) && dirty <= old(dirty) && ip.din.size <= MAXFILE * BSIZE && (old(HoleFree(view, ip.din)) ==> HoleFree(view, ip.din))
      ensures OthersKept(old(view), view, old(table), table, ip.inum)
      ensures off <= newOff <= off + |src| && (n >= 0 ==> newOff <= off + n)
      ensures ret == if n >= 0 && newOff == off + n then n else -1
      ensures n >= 0 && ret == -1 ==> off > old(ip.din).size || Full() || |src| < n || off + n > MAXFILE * BSIZE
      ensures off > old(ip.din).size ==> newOff == off && view == old(view) && ip.din == old(ip.din)
      ensures old(HoleFree(view, ip.din)) && off <= old(ip.din).size ==> Bytes(view, ip.din) == Overwrite(old(Bytes(view, ip.din)), off, src[..newOff - off])
      ensures old(HoleFree(view, ip.din)) ==> forall i :: 0 <= i < |ops| ==> |ops[i]| <= WriteBound(sb)
    {
      hide Consistent; hide OthersKept; hide Overwrite; hide HoleFree; hide Bytes; hide Addr; hide ByteAt; hide SameFile;
      Shape();
      FilesKeptRefl(view, table);
      FilesKeptOthers(view, view, table, ip.inum);
      ghost var view0, t0, c0 := view, table, Bytes(view, ip.din);
      ghost var inside, hf := off <= ip.din.size, HoleFree(view, ip.din);
      if inside { OverwriteNothing(c0, off); }
      assert src[..0] == [];
      var max := (MAXOPBLOCKS - 1 - 1 - 2) / 2 * BSIZE;
      var i := 0;
      newOff, ops := off, [];
      while i < n
        invariant 0 <= i && i <= |src| && (n >= 0 ==> i <= n) && newOff == off + i
        invariant Valid() && Loaded(ip) && loose == old(loose) && (hf ==> HoleFree(view, ip.din))
        invariant inside ==> newOff <= ip.din.size
        invariant !inside ==> i == 0 && view == view0 && ip.din == old(ip.din)
        invariant ip.din.size <= MAXFILE * BSIZE && dirty <= old(dirty)
        invariant OthersKept(view0, view, t0, table, ip.inum)
        invariant hf && inside ==> Bytes(view, ip.din) == Overwrite(c0, off, src[..i])
        invariant hf ==> forall k :: 0 <= k < |ops| ==> |ops[k]| <= WriteBound(sb)
      {
        var n1 := if n - i > max then max else n - i;
        ghost var was, t := view, table;
        ghost var op;
        var r;
        r, op := WriteOp(ip, src[i..], newOff, n1);
        ops := ops + [op];
        OthersKeptTrans(view0, was, view, t0, t, table, ip.inum);
        if r > 0 {
          OverwriteMore(c0, off, src, i, r);
          assert src[i..][..r] == src[i..i + r];
          newOff := newOff + r;
        } else if r == 0 {
          assert src[i..][..r] == [];
          OverwriteNothing(Overwrite(c0, off, src[..i]), newOff);
        }
        if r != n1 {
          assert !inside || Full() || |src| < n || off + n > MAXFILE * BSIZE;
          break;
        }
        i := i + r;
      }
      ret := if i == n then n else -1;
    }

    /** The last reference to an unlinked inode goes away: iput frees its blocks, then the inode. */
    method Ifree(ip: Inode)
      requires Valid() && Loaded(ip)
      modifies this`view, this`table, this`owner, this`loose, this`dirty, this`logged, ip`din
      ensures Valid() && table == old(table)[ip.inum := FreedInode(old(ip.din))] && loose == old(loose)
      ensures owner == old(owner) - OwnedBy(old(owner), ip.inum)
      ensures OthersKept(old(view), view, old(table), table, ip.inum)
      ensures dirty == old(dirty) - {ip.inum}
      ensures logged == old(logged) + Touched(sb, old(owner), ip.inum) && Within(old(view), view, logged)
    {
      hide Consistent; hide SameFile; hide InUse;
      ghost var view0, t0 := view, table;
      Itrunc(ip);
      ghost var was, t := view, table;
      KindConsistent(sb, view, table, owner, loose, dirty, ip.inum, FreedInode(ip.din));
      ip.din := ip.din.(kind := 0);
      assert ip.din == FreedInode(ip.din);
      table := table[ip.inum := ip.din];
      dirty := dirty + {ip.inum};
      Iupdate(ip);
      FilesKeptOthers(was, view, table, ip.inum);
      assert OthersKept(was, view, t, table, ip.inum);
      OthersKeptTrans(view0, was, view, t0, t, table, ip.inum);
      assert table == t0[ip.inum := FreedInode(old(ip.din))];
    }
  }

  // How much of what is left goes into the block that pos is in.
  function Chunk(pos: nat, left: nat): (m: nat)
    ensures m <= left && pos % BSIZE + m <= BSIZE && (left > 0 ==> m > 0)
  {
    if left < BSIZE - pos % BSIZE then left else BSIZE - pos % BSIZE
  }
}
