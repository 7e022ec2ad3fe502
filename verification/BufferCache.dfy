/**
  The buffer cache: NBUF buffers on a doubly linked list in order of recent use.

  The cache stands for a plain disk, `view`: what a reader of each block sees.
  `view` differs from the disk only on blocks that somebody references, which is
  why a pinned block is never lost to recycling.
 */
module BufferCache {
  import opened Blocks
  import opened Counting
  import opened RedoLog

  const ROOTDEV: nat := 1
  const HEAD: nat := NBUF  // index of the list head, bcache.head

  datatype Buf = Buf(dev: nat, blockno: nat, valid: bool, refcnt: nat, locked: bool,
                     prev: nat, next: nat, data: Block)

  // ---------------------------------------------------------------- the LRU list

  // Element k of the circular list, whose ends are the head.
  function At(order: seq<nat>, k: int): nat
    requires -1 <= k <= |order|
  {
    if k == -1 || k == |order| then HEAD else order[k]
  }

  ghost predicate GoodOrder(order: seq<nat>) {
    && (forall k :: 0 <= k < |order| ==> order[k] < NBUF)
    && (forall j, k :: 0 <= j < k < |order| ==> order[j] != order[k])
  }

  // The links of the buffers spell out `order`.
  ghost predicate Links(bufs: seq<Buf>, order: seq<nat>) {
    && |bufs| == NBUF + 1 && GoodOrder(order)
    && forall k :: -1 <= k < |order| ==>
         bufs[At(order, k)].next == At(order, k + 1) && bufs[At(order, k + 1)].prev == At(order, k)
  }

  function Without(order: seq<nat>, k: nat): seq<nat>
    requires k < |order|
  {
    order[..k] + order[k + 1..]
  }

  // Take a buffer out of the list: its neighbours point at each other.
  function Unlinked(bufs: seq<Buf>, i: nat): (r: seq<Buf>)
    requires i < |bufs| && bufs[i].next < |bufs| && bufs[i].prev < |bufs|
    ensures |r| == |bufs|
    ensures forall j :: 0 <= j < |r| ==> r[j] == bufs[j].(prev := r[j].prev, next := r[j].next)
  {
    var (n, p) := (bufs[i].next, bufs[i].prev);
    var s := bufs[n := bufs[n].(prev := p)];
    s[p := s[p].(next := n)]
  }

  // Put a buffer in at the front, between the head and its successor.
  function PushedFront(bufs: seq<Buf>, i: nat): (r: seq<Buf>)
    requires |bufs| == NBUF + 1 && i < NBUF && bufs[HEAD].next < |bufs|
    ensures |r| == |bufs|
    ensures forall j :: 0 <= j < |r| ==> r[j] == bufs[j].(prev := r[j].prev, next := r[j].next)
  {
    var f := bufs[HEAD].next;
    var s := bufs[i := bufs[i].(next := f, prev := HEAD)];
    var t := s[f := s[f].(prev := i)];
    t[HEAD := t[HEAD].(next := i)]
  }

  lemma LinkAt(bufs: seq<Buf>, order: seq<nat>, k: nat)
    requires Links(bufs, order) && k < |order|
    ensures bufs[order[k]].next == At(order, k + 1) && bufs[order[k]].prev == At(order, k - 1)
    ensures bufs[HEAD].next == At(order, 0) && bufs[HEAD].prev == At(order, |order| - 1)
  {
    assert At(order, k) == order[k] && At(order, -1) == HEAD && At(order, |order|) == HEAD;
    assert At(order, (k - 1) + 1) == order[k] && At(order, (|order| - 1) + 1) == HEAD;
  }

  lemma UnlinkedLinks(bufs: seq<Buf>, order: seq<nat>, k: nat)
    requires Links(bufs, order) && k < |order| && bufs[order[k]].next < |bufs| && bufs[order[k]].prev < |bufs|
    ensures Links(Unlinked(bufs, order[k]), Without(order, k))
  {
    LinkAt(bufs, order, k);
    var rest := Without(order, k);
    var s := Unlinked(bufs, order[k]);
    forall j | -1 <= j < |rest|
      ensures s[At(rest, j)].next == At(rest, j + 1) && s[At(rest, j + 1)].prev == At(rest, j)
    {
      assert At(rest, j) == At(order, if j < k then j else j + 1);
      assert At(rest, j + 1) == At(order, if j + 1 < k then j + 1 else j + 2);
    }
  }

  lemma PushedFrontLinks(bufs: seq<Buf>, order: seq<nat>, i: nat)
    requires Links(bufs, order) && i < NBUF && i !in order && bufs[HEAD].next < |bufs|
    ensures Links(PushedFront(bufs, i), [i] + order)
  {
    var more := [i] + order;
    var s := PushedFront(bufs, i);
    assert bufs[At(order, -1)].next == At(order, 0);
    forall j | -1 <= j < |more|
      ensures s[At(more, j)].next == At(more, j + 1) && s[At(more, j + 1)].prev == At(more, j)
    {
      if j >= 0 {
        assert At(more, j + 1) == At(order, j);
        if j > 0 { assert At(more, j) == At(order, j - 1) && bufs[At(order, j - 1)].next == At(order, j); }
      }
    }
  }

  // ---------------------------------------------------------------- cache and disk

  /**
    The buffers, the disk and the plain disk `view` they stand for.  `slot` finds
    the one buffer of a cached block; `refs` and `held` are its reference count
    and lock, by block.  A block nobody references is unlocked and clean.
   */
  ghost predicate Agree(bufs: seq<Buf>, disk: Disk, view: Disk, refs: seq<nat>, held: set<nat>, slot: map<nat, nat>) {
    && |bufs| == NBUF + 1 && |view| == |refs| == |disk|
    && (forall i :: 0 <= i < NBUF ==>
          if bufs[i].dev == ROOTDEV then bufs[i].blockno in slot && slot[bufs[i].blockno] == i
          else bufs[i].refcnt == 0 && !bufs[i].locked)
    && (forall b :: b in slot ==>
          && b < |disk| && slot[b] < NBUF && Holds(bufs[slot[b]], b)
          && refs[b] == bufs[slot[b]].refcnt && (b in held <==> bufs[slot[b]].locked)
          && view[b] == if bufs[slot[b]].valid then bufs[slot[b]].data else disk[b])
    && (forall b :: 0 <= b < |disk| && b !in slot ==> refs[b] == 0 && view[b] == disk[b] && b !in held)
    && (forall b :: 0 <= b < |disk| && refs[b] == 0 ==> view[b] == disk[b] && b !in held)
  }

  predicate Holds(x: Buf, b: nat) {
    x.dev == ROOTDEV && x.blockno == b
  }

  /** At most one buffer holds a given block of the root device. */
  lemma AtMostOneBuffer(bufs: seq<Buf>, disk: Disk, view: Disk, refs: seq<nat>, held: set<nat>, slot: map<nat, nat>,
                        b: nat, i: nat, j: nat)
    requires Agree(bufs, disk, view, refs, held, slot)
    requires i < NBUF && j < NBUF && Holds(bufs[i], b) && Holds(bufs[j], b)
    ensures i == j
  {
  }

  // Changing the buffer of block b, consistently with what is recorded about b.
  lemma AgreeUpdate(bufs: seq<Buf>, disk: Disk, view: Disk, refs: seq<nat>, held: set<nat>, slot: map<nat, nat>,
                    b: nat, x: Buf, view': Disk, refs': seq<nat>, held': set<nat>)
    requires Agree(bufs, disk, view, refs, held, slot) && b in slot && Holds(x, b)
    requires view' == view[b := if x.valid then x.data else disk[b]]
    requires refs' == refs[b := x.refcnt]
    requires held' == if x.locked then held + {b} else held - {b}
    requires x.refcnt == 0 ==> view'[b] == disk[b] && !x.locked
    ensures Agree(bufs[slot[b] := x], disk, view', refs', held', slot)
  {
  }

  // Writing the contents of a block to the disk.
  lemma AgreeWrite(bufs: seq<Buf>, disk: Disk, view: Disk, refs: seq<nat>, held: set<nat>, slot: map<nat, nat>, b: nat)
    requires Agree(bufs, disk, view, refs, held, slot) && b < |disk| && refs[b] > 0
    ensures Agree(bufs, disk[b := view[b]], view, refs, held, slot)
  {
  }

  // Giving an unreferenced buffer to a block that is not cached.
  lemma AgreeRecycle(bufs: seq<Buf>, disk: Disk, view: Disk, refs: seq<nat>, held: set<nat>, slot: map<nat, nat>,
                     b: nat, i: nat, x: Buf)
    requires Agree(bufs, disk, view, refs, held, slot) && b < |disk| && b !in slot
    requires i < NBUF && bufs[i].refcnt == 0
    requires Holds(x, b) && !x.valid && x.refcnt == 1 && x.locked
    ensures Agree(bufs[i := x], disk, view, refs[b := 1], held + {b}, Recycled(bufs[i], slot)[b := i])
  {
  }

  function Recycled(x: Buf, slot: map<nat, nat>): map<nat, nat> {
    if x.dev == ROOTDEV then slot - {x.blockno} else slot
  }

  lemma LinksKept(bufs: seq<Buf>, order: seq<nat>, i: nat, x: Buf)
    requires Links(bufs, order) && i < |bufs| && x.prev == bufs[i].prev && x.next == bufs[i].next
    ensures Links(bufs[i := x], order)
  {
  }

  lemma AgreeRelinked(bufs: seq<Buf>, bufs': seq<Buf>, disk: Disk, view: Disk, refs: seq<nat>, held: set<nat>, slot: map<nat, nat>)
    requires Agree(bufs, disk, view, refs, held, slot) && |bufs'| == |bufs|
    requires forall j :: 0 <= j < |bufs| ==> bufs'[j] == bufs[j].(prev := bufs'[j].prev, next := bufs'[j].next)
    ensures Agree(bufs', disk, view, refs, held, slot)
  {
  }

  /** If every buffer is referenced, at least NBUF blocks are. */
  lemma {:induction false} SpareBuffer(bufs: seq<Buf>, disk: Disk, view: Disk, refs: seq<nat>, held: set<nat>,
                                      slot: map<nat, nat>, users: seq<nat>)
    requires Agree(bufs, disk, view, refs, held, slot)
    requires forall b :: 0 <= b < |refs| && refs[b] > 0 ==> b in users
    requires forall j :: 0 <= j < NBUF ==> bufs[j].refcnt > 0
    ensures |users| >= NBUF
  {
    var blocks := seq(NBUF, j requires 0 <= j < NBUF => bufs[j].blockno);
    forall i, j | 0 <= i < j < NBUF
      ensures blocks[i] != blocks[j]
    {
      assert bufs[i].dev == bufs[j].dev == ROOTDEV;
    }
    forall i | 0 <= i < NBUF
      ensures blocks[i] in users
    {
      assert bufs[i].dev == ROOTDEV && slot[blocks[i]] == i;
    }
    Pigeonhole(blocks, users);
  }

  // No more than NBUF blocks are referenced.
  lemma {:induction false} UsersFit(bufs: seq<Buf>, disk: Disk, view: Disk, refs: seq<nat>, held: set<nat>,
                                   slot: map<nat, nat>, users: seq<nat>)
    requires Agree(bufs, disk, view, refs, held, slot)
    requires Distinct(users) && forall i :: 0 <= i < |users| ==> users[i] < |refs| && refs[users[i]] > 0
    ensures |users| <= NBUF
  {
    assert forall i :: 0 <= i < |users| ==> users[i] in slot;
    var where := seq(|users|, i requires 0 <= i < |users| => slot[users[i]]);
    var all := seq(NBUF, j => j);
    forall i | 0 <= i < |where|
      ensures where[i] in all
    {
      assert all[where[i]] == where[i];
    }
    Pigeonhole(where, all);
  }

  /** NBUF referenced blocks leave no buffer for another one. */
  lemma {:induction false} NoSpareBuffer(bufs: seq<Buf>, disk: Disk, view: Disk, refs: seq<nat>, held: set<nat>,
                                        slot: map<nat, nat>, users: seq<nat>, b: nat)
    requires Agree(bufs, disk, view, refs, held, slot)
    requires |users| == NBUF && Distinct(users) && b !in users
    requires forall i :: 0 <= i < |users| ==> users[i] < |refs| && refs[users[i]] > 0
    ensures b !in slot && forall j :: 0 <= j < NBUF ==> bufs[j].refcnt > 0
  {
    assert forall i :: 0 <= i < |users| ==> users[i] in slot;
    var where := seq(|users|, i requires 0 <= i < |users| => slot[users[i]]);
    forall j | 0 <= j < NBUF
      ensures bufs[j].refcnt > 0 && bufs[j].blockno in users
    {
      DistinctIsEverything(where, NBUF, j);
      var i :| 0 <= i < |where| && where[i] == j;
      assert slot[users[i]] == j;
    }
  }

  class Bcache {
    const buf: array<Buf>
    var disk: Disk

    ghost var order: seq<nat>      // buffers, most recently released first
    ghost var view: Disk           // what a reader of each block sees
    ghost var refs: seq<nat>       // references to each block
    ghost var held: set<nat>       // blocks whose buffer is locked
    ghost var slot: map<nat, nat>  // where each cached block is
    ghost const disk0: Disk        // the disk found at boot
    ghost var writes: seq<Write>   // every block write since then

    ghost predicate Valid()
      reads this, buf
    {
      && buf.Length == NBUF + 1
      && Links(buf[..], order) && |order| == NBUF
      && Agree(buf[..], disk, view, refs, held, slot)
      && disk == Apply(disk0, writes)
    }

    /** binit, over the disk found at boot: every buffer is (dev 0, block 0) and unused. */
    constructor (d: Disk)
      ensures Valid() && fresh(buf)
      ensures disk0 == disk == view == d && held == {} && slot == map[] && writes == []
      ensures forall b :: 0 <= b < |refs| ==> refs[b] == 0
    {
      buf := new Buf[NBUF + 1](i => Buf(0, 0, false, 0, false, HEAD, HEAD, Zeroes));
      disk0, disk, view, refs, held, slot, writes := d, d, d, seq(|d|, _ => 0), {}, map[], [];
      order := [];
      new;
      var i := 0;
      while i < NBUF
        invariant 0 <= i <= NBUF && |order| == i && Links(buf[..], order)
        invariant forall k :: 0 <= k < |order| ==> order[k] < i
        invariant forall j :: 0 <= j <= NBUF ==>
          buf[j] == Buf(0, 0, false, 0, false, buf[j].prev, buf[j].next, Zeroes)
        modifies this`order, buf
      {
        PushFront(i);
        i := i + 1;
      }
    }

    method PushFront(i: nat)
      requires buf.Length == NBUF + 1 && i < NBUF && i !in order && Links(buf[..], order)
      modifies this`order, buf
      ensures order == [i] + old(order) && Links(buf[..], order)
      ensures forall j :: 0 <= j <= NBUF ==> buf[j] == old(buf[j]).(prev := buf[j].prev, next := buf[j].next)
    {
      assert At(order, -1) == HEAD && buf[..][At(order, -1)].next == At(order, 0);
      ghost var bufs := buf[..];
      var f := buf[HEAD].next;
      buf[i] := buf[i].(next := f, prev := HEAD);
      buf[f] := buf[f].(prev := i);
      buf[HEAD] := buf[HEAD].(next := i);
      assert buf[..] == PushedFront(bufs, i);
      PushedFrontLinks(bufs, order, i);
      order := [i] + order;
    }

    method Unlink(i: nat, ghost k: nat)
      requires buf.Length == NBUF + 1 && k < |order| && order[k] == i && Links(buf[..], order)
      modifies this`order, buf
      ensures order == Without(old(order), k) && Links(buf[..], order)
      ensures forall j :: 0 <= j <= NBUF ==> buf[j] == old(buf[j]).(prev := buf[j].prev, next := buf[j].next)
    {
      LinkAt(buf[..], order, k);
      ghost var bufs := buf[..];
      var n, p := buf[i].next, buf[i].prev;
      buf[n] := buf[n].(prev := p);
      buf[p] := buf[p].(next := n);
      assert buf[..] == Unlinked(bufs, i);
      UnlinkedLinks(bufs, order, k);
      order := Without(order, k);
    }

    // First scan of bget: is the block cached?
    method FindCached(b: nat) returns (i: nat)
      requires Valid() && b < |disk|
      ensures i <= HEAD
      ensures b in slot <==> i < HEAD
      ensures i < HEAD ==> slot[b] == i
    {
      LinkAt(buf[..], order, 0);
      i := buf[HEAD].next;
      ghost var k := 0;
      while i != HEAD
        invariant 0 <= k <= NBUF && i == At(order, k)
        invariant forall j :: 0 <= j < k ==> !Holds(buf[order[j]], b)
        decreases NBUF - k
      {
        if buf[i].dev == ROOTDEV && buf[i].blockno == b {
          return;
        }
        LinkAt(buf[..], order, k);
        i, k := buf[i].next, k + 1;
      }
      if b in slot {
        OrderIsEverything(order, slot[b]);
      }
    }

    // Second scan of bget: the least recently used buffer that nobody references.
    method FindUnused() returns (i: nat)
      requires Valid()
      ensures i <= HEAD
      ensures i < HEAD ==> exists k :: 0 <= k < NBUF && order[k] == i && LeastRecentlyUsed(k)
      ensures i == HEAD <==> Full()
    {
      hide Agree;
      LinkAt(buf[..], order, 0);
      i := buf[HEAD].prev;
      ghost var k := NBUF - 1;
      while i != HEAD
        invariant -1 <= k < NBUF && i == At(order, k)
        invariant forall j :: k < j < NBUF ==> buf[order[j]].refcnt > 0
        decreases k
      {
        if buf[i].refcnt == 0 {
          assert LeastRecentlyUsed(k);
          return;
        }
        LinkAt(buf[..], order, k);
        i, k := buf[i].prev, k - 1;
      }
      forall j | 0 <= j < NBUF
        ensures buf[j].refcnt > 0
      {
        OrderIsEverything(order, j);
      }
    }

    // Every buffer is referenced.
    ghost predicate Full()
      requires buf.Length == NBUF + 1
      reads buf
    {
      forall j :: 0 <= j < NBUF ==> buf[j].refcnt > 0
    }

    ghost predicate LeastRecentlyUsed(k: nat)
      requires Valid() && k < NBUF
      reads this, buf
    {
      buf[order[k]].refcnt == 0 && forall j :: k < j < NBUF ==> buf[order[j]].refcnt > 0
    }

    // The disk is what the block writes made of it.
    lemma DiskIsWrites(before: seq<Write>, ws: seq<Write>)
      requires Valid() && writes == before + ws
      ensures disk == Apply(Apply(disk0, before), ws)
      ensures ws == [] ==> disk == Apply(disk0, before)
    {
      ApplyConcat(disk0, before, ws);
    }

    lemma ReferencedIsCached(b: nat)
      requires Valid() && b < |refs| && refs[b] > 0
      ensures b in slot
    {
    }

    /** When exactly the blocks `pinned` are referenced, a bread fails if and only if NBUF others are pinned. */
    lemma PinnedFull(pinned: seq<nat>, b: nat)
      requires Valid() && Distinct(pinned) && b < |refs|
      requires forall i :: 0 <= i < |pinned| ==> pinned[i] < |refs|
      requires forall c :: 0 <= c < |refs| ==> (refs[c] > 0 <==> c in pinned)
      ensures b !in slot && Full() <==> b !in pinned && |pinned| == NBUF
    {
      if Full() {
        SpareBuffer(buf[..], disk, view, refs, held, slot, pinned);
        UsersFit(buf[..], disk, view, refs, held, slot, pinned);
      }
      if b !in pinned && |pinned| == NBUF {
        NoSpareBuffer(buf[..], disk, view, refs, held, slot, pinned, b);
      }
    }

    /** The same for a set of blocks: those that the log pins and those that processes hold. */
    lemma ReferencedFull(users: set<nat>, b: nat)
      requires Valid() && b < |refs|
      requires forall c :: c in users ==> c < |refs|
      requires forall c :: 0 <= c < |refs| ==> (refs[c] > 0 <==> c in users)
      ensures b !in slot && Full() <==> b !in users && |users| >= NBUF
    {
      hide Agree; hide Links; hide Full; hide Valid; hide Elements;
      var pinned := Listing(users);
      DistinctSize(pinned);
      assert forall i :: 0 <= i < |pinned| ==> pinned[i] in Elements(pinned);
      PinnedFull(pinned, b);
      if |pinned| > NBUF {
        Crowded(pinned);
      }
    }

    lemma Crowded(pinned: seq<nat>)
      requires Valid() && Distinct(pinned) && forall i :: 0 <= i < |pinned| ==> pinned[i] < |refs| && refs[pinned[i]] > 0
      ensures |pinned| <= NBUF
    {
      UsersFit(buf[..], disk, view, refs, held, slot, pinned);
    }

    // The caller holds buffer i, locked, with the contents of block b.
    ghost predicate Got(i: int, b: nat)
      requires buf.Length == NBUF + 1
      reads this, buf
    {
      && 0 <= i < NBUF && b < |refs| && b in held && Holds(buf[i], b) && buf[i].valid && buf[i].locked
      && buf[i].refcnt == refs[b] > 0
    }

    lemma GotData(i: int, b: nat)
      requires Valid() && Got(i, b)
      ensures b < |view| == |disk| && buf[i].data == view[b]
    {
    }

    lemma GotApart(i: int, b: nat, j: int, c: nat)
      requires Valid() && Got(i, b) && Got(j, c) && b != c
      ensures i != j && 0 <= i < buf.Length && 0 <= j < buf.Length
    {
    }

    // An operation on buffer i leaves every other held buffer alone.
    twostate predicate OthersKept(i: int)
      requires buf.Length == NBUF + 1
      reads this, buf
    {
      forall j, b: nat :: j != i && old(Got(j, b)) ==> Got(j, b)
    }

    // Replace the buffer of a cached block.
    method Update(ghost b: nat, i: nat, x: Buf)
      requires Valid() && b in slot && slot[b] == i && Holds(x, b)
      requires x.prev == buf[i].prev && x.next == buf[i].next
      requires x.refcnt == 0 ==> !x.locked && (x.valid ==> x.data == disk[b])
      modifies this`refs, this`held, this`view, buf
      ensures Valid() && OthersKept(i) && buf[i] == x
      ensures view == old(view)[b := if x.valid then x.data else disk[b]]
      ensures refs == old(refs)[b := x.refcnt] && held == if x.locked then old(held) + {b} else old(held) - {b}
    {
      ghost var bufs, v, r, h := buf[..], view, refs, held;
      buf[i] := x;
      assert buf[..] == bufs[i := x];
      view := view[b := if x.valid then x.data else disk[b]];
      refs := refs[b := x.refcnt];
      held := if x.locked then held + {b} else held - {b};
      LinksKept(bufs, order, i, x);
      AgreeUpdate(bufs, disk, v, r, h, slot, b, x, view, refs, held);
    }

    // Give the unreferenced buffer i to block b, which is not cached.
    method Recycle(b: nat, i: nat)
      requires Valid() && b < |disk| && b !in slot && i < NBUF && buf[i].refcnt == 0
      modifies this`refs, this`held, this`slot, buf
      ensures Valid() && OthersKept(-1) && b in slot && slot[b] == i && !buf[i].valid
      ensures refs == old(refs)[b := 1] && held == old(held) + {b}
    {
      ghost var bufs, r, h, s := buf[..], refs, held, slot;
      buf[i] := buf[i].(dev := ROOTDEV, blockno := b, valid := false, refcnt := 1, locked := true);
      assert buf[..] == bufs[i := buf[i]];
      refs := refs[b := 1];
      held := held + {b};
      slot := Recycled(bufs[i], slot)[b := i];
      LinksKept(bufs, order, i, buf[i]);
      AgreeRecycle(bufs, disk, view, r, h, s, b, i, buf[i]);
    }

    // Second half of bget: give b the least recently used unreferenced buffer, if any.
    method RecycleLru(b: nat) returns (r: int)
      requires Valid() && b < |disk| && b !in slot
      modifies this`refs, this`held, this`slot, buf
      ensures Valid() && OthersKept(-1)
      ensures r == -1 <==> old(Full())
      ensures r == -1 ==> refs == old(refs) && held == old(held) && slot == old(slot)
      ensures r != -1 ==> 0 <= r < NBUF && b in slot && slot[b] == r
      ensures r != -1 ==> refs == old(refs)[b := 1] && held == old(held) + {b}
      ensures r != -1 ==> exists k :: 0 <= k < NBUF && order[k] == r && old(LeastRecentlyUsed(k))
    {
      var i := FindUnused();
      if i == HEAD {
        return -1;
      }
      r := i;
      Recycle(b, i);
    }

    /**
      The buffer for block b, referenced and locked; -1 stands for the panic
      "bget: no buffers", which happens exactly when b is not cached and every
      buffer is referenced.  A block not cached goes to the least recently used
      unreferenced buffer, so no referenced block ever loses its buffer.
     */
    method Bget(b: nat) returns (r: int)
      requires Valid() && b < |disk| && b !in held
      modifies this`refs, this`held, this`slot, this`view, buf
      ensures Valid() && OthersKept(-1) && view == old(view)
      ensures r == -1 <==> b !in old(slot) && old(Full())
      ensures r == -1 ==> refs == old(refs) && held == old(held) && slot == old(slot)
      ensures r != -1 ==> 0 <= r < NBUF && b in slot && slot[b] == r
      ensures r != -1 ==> refs == old(refs)[b := old(refs)[b] + 1] && held == old(held) + {b}
      ensures r != -1 && b !in old(slot) ==> exists k :: 0 <= k < NBUF && order[k] == r && old(LeastRecentlyUsed(k))
    {
      var i := FindCached(b);
      if i < HEAD {
        r := i;
        Lock(b, i);
      } else {
        r := RecycleLru(b);
      }
    }

    // One more reference to a cached block, whose buffer nobody has locked, and the lock.
    method Lock(ghost b: nat, i: nat)
      requires Valid() && b < |disk| && b !in held && b in slot && slot[b] == i
      modifies this`refs, this`held, this`view, buf
      ensures Valid() && OthersKept(-1) && view == old(view)
      ensures refs == old(refs)[b := old(refs)[b] + 1] && held == old(held) + {b}
    {
      assert forall c: nat :: !Got(i, c);
      Update(b, i, buf[i].(refcnt := buf[i].refcnt + 1, locked := true));
      assert view == old(view);
    }

    // Read the block from the disk, unless the buffer already has its contents.
    method Load(b: nat, i: nat)
      requires Valid() && b in slot && slot[b] == i && buf[i].refcnt > 0
      modifies this`refs, this`held, this`view, buf
      ensures Valid() && OthersKept(i) && view == old(view) && refs == old(refs) && held == old(held)
      ensures buf[i].valid && buf[i].data == view[b]
    {
      if !buf[i].valid {
        Update(b, i, buf[i].(data := disk[b], valid := true));
        assert view == old(view) && refs == old(refs) && held == old(held);
      }
    }

    /** The locked buffer of block b, holding what the cache says the block holds. */
    method Bread(b: nat) returns (r: int)
      requires Valid() && b < |disk| && b !in held
      modifies this`refs, this`held, this`slot, this`view, buf
      ensures Valid() && OthersKept(-1) && view == old(view)
      ensures r == -1 <==> b !in old(slot) && old(Full())
      ensures r == -1 ==> refs == old(refs) && held == old(held) && slot == old(slot)
      ensures r != -1 ==> Got(r, b) && buf[r].data == view[b]
      ensures r != -1 ==> refs == old(refs)[b := old(refs)[b] + 1] && held == old(held) + {b}
    {
      r := Bget(b);
      if r != -1 {
        Load(b, r);
      }
    }

    /** Overwrite the data of a held buffer. */
    method Modify(i: nat, ghost b: nat, data: Block)
      requires Valid() && Got(i, b)
      modifies this`refs, this`held, this`view, buf
      ensures Valid() && OthersKept(i) && Got(i, b)
      ensures view == old(view)[b := data] && refs == old(refs) && held == old(held)
    {
      Update(b, i, buf[i].(data := data));
      assert refs == old(refs) && held == old(held);
    }

    /** Write a held buffer to the disk: one atomic block write. */
    method Bwrite(i: nat, ghost b: nat)
      requires Valid() && Got(i, b)
      modifies this`disk, this`writes
      ensures Valid() && OthersKept(i) && Got(i, b)
      ensures disk == old(disk)[b := view[b]]
      ensures writes == old(writes) + [Write(b, view[b])]
    {
      hide Agree; hide Links;
      GotData(i, b);
      AgreeWrite(buf[..], disk, view, refs, held, slot, b);
      disk := disk[buf[i].blockno := buf[i].data];
      ghost var w := Write(b, view[b]);
      assert (writes + [w])[..|writes|] == writes;
      writes := writes + [w];
    }

    /**
      Unlock a buffer and drop one reference; the last one moves it to the front
      of the list.  Only a clean buffer may lose its last reference.
     */
    method Brelse(i: nat, ghost b: nat)
      requires Valid() && Got(i, b) && (refs[b] > 1 || view[b] == disk[b])
      modifies this`refs, this`held, this`view, this`order, buf
      ensures Valid() && OthersKept(i) && view == old(view)
      ensures refs == old(refs)[b := old(refs)[b] - 1] && held == old(held) - {b}
      ensures old(refs)[b] > 1 ==> order == old(order)
      ensures old(refs)[b] == 1 ==> order[0] == i
    {
      var x := buf[i].(locked := false, refcnt := buf[i].refcnt - 1);
      Update(b, i, x);
      assert view == old(view);
      if buf[i].refcnt == 0 {
        MoveToFront(i);
      }
    }

    method MoveToFront(i: nat)
      requires Valid() && i < NBUF
      modifies this`order, buf
      ensures Valid() && order[0] == i
      ensures forall j :: 0 <= j <= NBUF ==> buf[j] == old(buf[j]).(prev := buf[j].prev, next := buf[j].next)
      ensures OthersKept(-1)
    {
      OrderIsEverything(order, i);
      ghost var k :| 0 <= k < |order| && order[k] == i;
      ghost var bufs := buf[..];
      Unlink(i, k);
      PushFront(i);
      AgreeRelinked(bufs, buf[..], disk, view, refs, held, slot);
    }

    method Bpin(i: nat, ghost b: nat)
      requires Valid() && Got(i, b)
      modifies this`refs, this`held, this`view, buf
      ensures Valid() && OthersKept(i) && Got(i, b) && view == old(view) && held == old(held)
      ensures refs == old(refs)[b := old(refs)[b] + 1]
    {
      Update(b, i, buf[i].(refcnt := buf[i].refcnt + 1));
      assert view == old(view) && held == old(held);
    }

    /** Drop a pin; the caller still holds the buffer, so it stays referenced. */
    method Bunpin(i: nat, ghost b: nat)
      requires Valid() && Got(i, b) && refs[b] > 1
      modifies this`refs, this`held, this`view, buf
      ensures Valid() && OthersKept(i) && Got(i, b) && view == old(view) && held == old(held)
      ensures refs == old(refs)[b := old(refs)[b] - 1]
    {
      Update(b, i, buf[i].(refcnt := buf[i].refcnt - 1));
      assert view == old(view) && held == old(held);
    }
  }

  // NBUF distinct numbers below NBUF are all of them.
  lemma OrderIsEverything(order: seq<nat>, i: nat)
    requires GoodOrder(order) && |order| == NBUF && i < NBUF
    ensures exists k :: 0 <= k < |order| && order[k] == i
  {
    DistinctIsEverything(order, NBUF, i);
  }
}
