/**
  The on-disk format: the superblock, the free bitmap and the inode table, as
  readings of blocks.  Each writer below states the reading it changes and that
  it changes no other.
 */
module Layout {
  import opened Blocks

  const BPB: nat := 8192       // bits per bitmap block
  const IPB: nat := 16         // inodes per block
  const NDIRECT: nat := 12
  const NINDIRECT: nat := 256
  const MAXFILE: nat := NDIRECT + NINDIRECT
  const USHORT: nat := 0x1_0000

  type Image = seq<Block>

  // [ boot | super | log | inode blocks | bitmap | data blocks ]
  datatype Superblock = Superblock(size: nat, nblocks: nat, ninodes: nat, logstart: nat, inodestart: nat, bmapstart: nat) {

    // The first data block.
    function DataStart(): int {
      size - nblocks
    }

    predicate Valid() {
      && nblocks <= size < UINT && 0 < ninodes
      && 1 < logstart && logstart + LOGBLOCKS < inodestart  // the header block, then LOGBLOCKS slots
      && inodestart + (ninodes - 1) / IPB < bmapstart
      && bmapstart + (size - 1) / BPB < DataStart() <= size
    }

    function IBlock(inum: nat): nat { inum / IPB + inodestart }

    function BBlock(b: nat): nat { b / BPB + bmapstart }

    // The number of bitmap blocks.
    function Bitmaps(): nat
      requires Valid()
    {
      (size - 1) / BPB + 1
    }
  }

  // ---------------------------------------------------------------- bits of a byte

  // Bit i of x.
  predicate BitOf(x: nat, i: nat) {
    if i == 0 then x % 2 == 1 else BitOf(x / 2, i - 1)
  }

  // x with bit i set or cleared, within the low `width` bits.
  function WithBit(x: nat, i: nat, on: bool, width: nat): (r: nat)
    requires i < width && x < Pow2(width)
    ensures r < Pow2(width)
    ensures forall j :: 0 <= j < width ==> BitOf(r, j) == if j == i then on else BitOf(x, j)
    decreases i
  {
    if i == 0 then x / 2 * 2 + (if on then 1 else 0)
    else
      var half := WithBit(x / 2, i - 1, on, width - 1);
      assert forall j :: 0 < j < width ==> BitOf(x, j) == BitOf(x / 2, j - 1);
      var r := half * 2 + x % 2;
      assert forall j :: 0 < j < width ==> BitOf(r, j) == BitOf(half, j - 1);
      r
  }

  function Pow2(n: nat): nat {
    if n == 0 then 1 else 2 * Pow2(n - 1)
  }

  // ---------------------------------------------------------------- the free bitmap

  /** Is block b marked in use?  (One bit of a bitmap block.) */
  predicate BitIn(blk: Block, bi: nat)
    requires bi < BPB
  {
    BitOf(blk[bi / 8], bi % 8)
  }

  function SetBitIn(blk: Block, bi: nat, on: bool): (r: Block)
    requires bi < BPB
    ensures forall c :: 0 <= c < BPB ==> BitIn(r, c) == if c == bi then on else BitIn(blk, c)
  {
    assert Pow2(8) == 256;
    var x := WithBit(blk[bi / 8], bi % 8, on, 8);
    blk[bi / 8 := x]
  }

  /** Is block b marked in use? */
  predicate InUse(sb: Superblock, view: Image, b: nat)
    requires sb.Valid() && |view| == sb.size && b < sb.size
  {
    BitIn(view[sb.BBlock(b)], b % BPB)
  }

  /** Marking one block in use, or free, changes the mark of no other. */
  function Mark(sb: Superblock, view: Image, b: nat, on: bool): (r: Image)
    requires sb.Valid() && |view| == sb.size && b < sb.size
    ensures |r| == |view| && sb.BBlock(b) < sb.size
    ensures r == view[sb.BBlock(b) := r[sb.BBlock(b)]]
    ensures forall c :: 0 <= c < sb.size ==> InUse(sb, r, c) == if c == b then on else InUse(sb, view, c)
  {
    view[sb.BBlock(b) := SetBitIn(view[sb.BBlock(b)], b % BPB, on)]
  }

  // ---------------------------------------------------------------- inodes

  datatype Dinode = Dinode(kind: nat, major: nat, minor: nat, nlink: nat, size: nat, addrs: seq<nat>) {
    predicate Valid() {
      && kind < USHORT && major < USHORT && minor < USHORT && nlink < USHORT && size < UINT
      && |addrs| == NDIRECT + 1 && forall i :: 0 <= i <= NDIRECT ==> addrs[i] < UINT
    }

    // The sixteen words of struct dinode.
    function Words(): (r: seq<nat>)
      requires Valid()
      ensures |r| == 16 && forall i :: 0 <= i < 16 ==> r[i] < UINT
    {
      [kind + USHORT * major, minor + USHORT * nlink, size] + addrs
    }
  }

  /** Inode number i of an inode block. */
  function DinodeIn(blk: Block, i: nat): (d: Dinode)
    requires i < IPB
    ensures d.Valid()
  {
    var (w0, w1) := (Word(blk, 16 * i), Word(blk, 16 * i + 1));
    Dinode(w0 % USHORT, w0 / USHORT, w1 % USHORT, w1 / USHORT, Word(blk, 16 * i + 2),
           WordsAt(blk, 16 * i + 3, NDIRECT + 1))
  }

  lemma InodeReadsItsWords(b: Block, c: Block, i: nat)
    requires i < IPB && forall k :: 16 * i <= k < 16 * i + 16 ==> Word(b, k) == Word(c, k)
    ensures DinodeIn(b, i) == DinodeIn(c, i)
  {
    hide Word;
    assert WordsAt(b, 16 * i + 3, NDIRECT + 1) == WordsAt(c, 16 * i + 3, NDIRECT + 1);
  }

  /** struct dinode survives the trip through its sixteen words. */
  lemma InodeRoundTrip(blk: Block, i: nat, d: Dinode)
    requires i < IPB && d.Valid() && forall k :: 16 * i <= k < 16 * i + 16 ==> Word(blk, k) == d.Words()[k - 16 * i]
    ensures DinodeIn(blk, i) == d
  {
    hide Word;
    assert WordsAt(blk, 16 * i + 3, NDIRECT + 1) == d.addrs;
  }

  function SetDinodeIn(blk: Block, i: nat, d: Dinode): (r: Block)
    requires i < IPB && d.Valid()
  {
    PutWords(blk, 16 * i, d.Words())
  }

  /** Storing an inode and reading it back gives the same inode, and leaves its neighbours alone. */
  lemma SetDinodeInReads(blk: Block, i: nat, d: Dinode, j: nat)
    requires i < IPB && d.Valid() && j < IPB
    ensures DinodeIn(SetDinodeIn(blk, i, d), j) == if j == i then d else DinodeIn(blk, j)
  {
    hide Word; hide DinodeIn; hide PutWords;
    var r := SetDinodeIn(blk, i, d);
    if j == i {
      InodeRoundTrip(r, i, d);
    } else {
      InodeReadsItsWords(r, blk, j);
    }
  }

  function DinodeAt(sb: Superblock, view: Image, inum: nat): (d: Dinode)
    requires sb.Valid() && |view| == sb.size && inum < sb.ninodes
    ensures d.Valid()
  {
    DinodeIn(view[sb.IBlock(inum)], inum % IPB)
  }

  function StoreDinode(sb: Superblock, view: Image, inum: nat, d: Dinode): (r: Image)
    requires sb.Valid() && |view| == sb.size && inum < sb.ninodes && d.Valid()
    ensures |r| == |view| && sb.IBlock(inum) < sb.size
    ensures r == view[sb.IBlock(inum) := r[sb.IBlock(inum)]]
    ensures forall j :: 0 <= j < sb.ninodes ==> DinodeAt(sb, r, j) == if j == inum then d else DinodeAt(sb, view, j)
  {
    var r := view[sb.IBlock(inum) := SetDinodeIn(view[sb.IBlock(inum)], inum % IPB, d)];
    assert forall j :: 0 <= j < sb.ninodes ==> DinodeAt(sb, r, j) == if j == inum then d else DinodeAt(sb, view, j) by {
      hide DinodeIn; hide SetDinodeIn;
      forall j | 0 <= j < sb.ninodes
        ensures DinodeAt(sb, r, j) == if j == inum then d else DinodeAt(sb, view, j)
      {
        SetDinodeInReads(view[sb.IBlock(inum)], inum % IPB, d, j % IPB);
      }
    }
    r
  }
}
