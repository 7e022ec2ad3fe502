/** Disk blocks: BSIZE bytes, also read and written as little-endian 32-bit words. */
module Blocks {

  const BSIZE: nat := 1024
  const WORDS: nat := 256  // BSIZE / sizeof(uint)
  const UINT: nat := 0x1_0000_0000

  const MAXOPBLOCKS: nat := 10             // blocks one operation may write
  const LOGBLOCKS: nat := MAXOPBLOCKS * 3  // blocks in the log
  const NBUF: nat := MAXOPBLOCKS * 3       // buffers in the cache

  type Byte = x: int | 0 <= x < 256
  type Block = b: seq<Byte> | |b| == BSIZE witness seq(BSIZE, _ => 0)

  /** Bytes written over part of a block or a page. */
  function Splice(s: seq<Byte>, off: nat, bytes: seq<Byte>): (r: seq<Byte>)
    requires off + |bytes| <= |s|
    ensures |r| == |s| && forall i :: 0 <= i < |s| ==> r[i] == if off <= i < off + |bytes| then bytes[i - off] else s[i]
  {
    s[..off] + bytes + s[off + |bytes|..]
  }

  const Zeroes: Block := ZeroBlock()

  function ZeroBlock(): (r: Block)
    ensures forall k :: 0 <= k < BSIZE ==> r[k] == 0
  {
    seq(BSIZE, _ => 0)
  }

  // The little-endian value of four bytes, and its digits.
  function Le(a: Byte, b: Byte, c: Byte, d: Byte): (x: nat)
    ensures x < UINT
  {
    var (p: int, q: int, r: int, s: int) := (a, b, c, d);
    p + 0x100 * q + 0x1_0000 * r + 0x100_0000 * s
  }

  function Digit(x: nat, i: nat): Byte
    requires x < UINT && i < 4
  {
    if i == 0 then x % 0x100
    else if i == 1 then x / 0x100 % 0x100
    else if i == 2 then x / 0x1_0000 % 0x100
    else x / 0x100_0000
  }

  lemma LeDigits(x: nat)
    requires x < UINT
    ensures Le(Digit(x, 0), Digit(x, 1), Digit(x, 2), Digit(x, 3)) == x
  {
    var q := x / 0x100;
    assert x / 0x1_0000 == q / 0x100 && x / 0x100_0000 == q / 0x100 / 0x100;
  }

  /** Word j of a block. */
  function Word(b: Block, j: nat): (x: nat)
    requires j < WORDS
    ensures x < UINT
  {
    Le(b[4 * j], b[4 * j + 1], b[4 * j + 2], b[4 * j + 3])
  }

  /** Store x as word j; every other byte keeps its value. */
  function SetWord(b: Block, j: nat, x: nat): (r: Block)
    requires j < WORDS && x < UINT
    ensures Word(r, j) == x
    ensures forall k :: 0 <= k < BSIZE && k / 4 != j ==> r[k] == b[k]
    ensures forall k :: 0 <= k < WORDS && k != j ==> Word(r, k) == Word(b, k)
  {
    LeDigits(x);
    b[..4 * j] + [Digit(x, 0), Digit(x, 1), Digit(x, 2), Digit(x, 3)] + b[4 * j + 4..]
  }

  /** n words of a block, from word at. */
  function WordsAt(b: Block, at: nat, n: nat): (r: seq<nat>)
    requires at + n <= WORDS
    ensures |r| == n && forall k :: 0 <= k < n ==> r[k] == Word(b, at + k) && r[k] < UINT
  {
    if n == 0 then [] else WordsAt(b, at, n - 1) + [Word(b, at + n - 1)]
  }

  /** Words at, at + 1, ... of a block overwritten by ws. */
  function PutWords(b: Block, at: nat, ws: seq<nat>): (r: Block)
    requires at + |ws| <= WORDS && forall i :: 0 <= i < |ws| ==> ws[i] < UINT
    ensures forall k :: 0 <= k < WORDS ==> Word(r, k) == if at <= k < at + |ws| then ws[k - at] else Word(b, k)
  {
    if ws == [] then b
    else
      var (init, last) := (PutWords(b, at, ws[..|ws| - 1]), at + |ws| - 1);
      var r := SetWord(init, last, ws[|ws| - 1]);
      assert forall k :: 0 <= k < WORDS ==> Word(r, k) == if at <= k < at + |ws| then ws[k - at] else Word(b, k) by {
        hide Word;
        assert forall k :: 0 <= k < WORDS && k != last ==> Word(r, k) == Word(init, k);
      }
      r
  }
}
