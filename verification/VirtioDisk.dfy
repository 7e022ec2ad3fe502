/**
  virtio_disk.c: the driver's side of a split virtqueue (section 2.6 of VIRTIO 1.1).

  The driver's methods run under vdisk_lock, from one sleep to the next.  The device is
  represented by what it may do in between: take the next entry of the avail ring, and
  complete any request it has taken, in any order.
 */
module VirtioDisk {
  import opened Counting

  const NUM: nat := 8
  const BSIZE: nat := 1024
  const WRAP: nat := 0x1_0000  // uint16

  /** What a descriptor points to. */
  datatype Addr = Nothing | Header(i: nat) | Data(b: nat) | Status(i: nat)

  datatype Desc = Desc(addr: Addr, len: nat, write: bool, more: bool, next: nat)

  datatype Op = Op(write: bool, sector: nat)

  /** A request: its three descriptors, its buffer, and what it is to do. */
  datatype Request = Request(i0: nat, i1: nat, i2: nat, b: nat, write: bool, blockno: nat)

  // ---------------------------------------------------------------- invariant

  predicate Uses(r: Request, i: nat) { i == r.i0 || i == r.i1 || i == r.i2 }

  /** Free descriptors and the chains of unfinished requests partition the NUM descriptors. */
  ghost predicate Partition(free: seq<bool>, reqs: map<nat, Request>) {
    && |free| == NUM
    && (forall h :: h in reqs ==> var r := reqs[h];
          r.i0 == h && r.i0 < NUM && r.i1 < NUM && r.i2 < NUM && r.i0 != r.i1 && r.i0 != r.i2 && r.i1 != r.i2)
    && (forall g, h, i :: g in reqs && h in reqs && Uses(reqs[g], i) && Uses(reqs[h], i) ==> g == h)
    && (forall i :: 0 <= i < NUM ==> (free[i] <==> forall h :: h in reqs ==> !Uses(reqs[h], i)))
  }

  /** The descriptors of a request say what the request is. */
  predicate Encodes(desc: seq<Desc>, ops: seq<Op>, r: Request)
    requires |desc| == NUM && |ops| == NUM && r.i0 < NUM && r.i1 < NUM && r.i2 < NUM
  {
    && desc[r.i0] == Desc(Header(r.i0), 16, false, true, r.i1)
    && desc[r.i1] == Desc(Data(r.b), BSIZE, !r.write, true, r.i2)
    && desc[r.i2] == Desc(Status(r.i0), 1, true, false, 0)
    && ops[r.i0] == Op(r.write, r.blockno * 2)
  }

  /** Entries [total - |q|, total) of a ring are q. */
  ghost predicate InRing(ring: seq<nat>, q: seq<nat>, total: nat) {
    |ring| == NUM && |q| <= total && forall k :: 0 <= k < |q| ==> ring[(total - |q| + k) % NUM] == q[k]
  }

  ghost predicate Distinct(q: seq<nat>) { forall i, j :: 0 <= i < j < |q| ==> q[i] != q[j] }

  /** Every request is in one stage: offered, taken by the device, completed, or seen to be. */
  ghost predicate Stages(reqs: map<nat, Request>, pending: seq<nat>, working: set<nat>, done: seq<nat>, seen: set<nat>) {
    && (forall h :: h in reqs <==> h in pending || h in working || h in done || h in seen)
    && Distinct(pending) && Distinct(done)
    && (forall h :: h in pending ==> h !in working && h !in done && h !in seen)
    && (forall h :: h in working ==> h !in done && h !in seen)
    && (forall h :: h in done ==> h !in seen)
  }

  /** A ring of total entries so far, those of q not read yet; hi and ti are the writer's and the reader's 16-bit index. */
  ghost predicate Ring(ring: seq<nat>, q: seq<nat>, total: nat, hi: nat, ti: nat) {
    InRing(ring, q, total) && hi == total % WRAP && ti == (total - |q|) % WRAP
  }

  ghost predicate Described(desc: seq<Desc>, ops: seq<Op>, reqs: map<nat, Request>) {
    && |desc| == NUM && |ops| == NUM
    && forall h :: h in reqs ==> reqs[h].i0 < NUM && reqs[h].i1 < NUM && reqs[h].i2 < NUM && Encodes(desc, ops, reqs[h])
  }

  /** Every request has its own buffer. */
  ghost predicate Buffers(infoB: seq<nat>, reqs: map<nat, Request>, bufs: set<nat>) {
    && |infoB| == NUM
    && (forall h :: h in reqs ==> h < NUM && infoB[h] == reqs[h].b && reqs[h].b in bufs && reqs[h].b != 0)
    && (forall g, h :: g in reqs && h in reqs && reqs[g].b == reqs[h].b ==> g == h)
  }

  /** A buffer is marked until the completion of its request is seen; the status is 0 from the completion on. */
  ghost predicate Flags(status: seq<nat>, busy: set<nat>, reqs: map<nat, Request>, done: seq<nat>, seen: set<nat>) {
    && |status| == NUM
    && (forall h :: h in reqs ==> h < NUM && (reqs[h].b in busy <==> h !in seen))
    && (forall h :: h in reqs ==> h < NUM && (status[h] == if h in done || h in seen then 0 else 0xff))
  }

  /** Descriptors, buffers and requests agree. */
  ghost predicate Books(free: seq<bool>, desc: seq<Desc>, ops: seq<Op>, infoB: seq<nat>, status: seq<nat>, busy: set<nat>, bufs: set<nat>,
                        reqs: map<nat, Request>, pending: seq<nat>, working: set<nat>, done: seq<nat>, seen: set<nat>) {
    && Partition(free, reqs) && Stages(reqs, pending, working, done, seen)
    && Described(desc, ops, reqs) && Buffers(infoB, reqs, bufs) && Flags(status, busy, reqs, done, seen)
  }

  lemma {:induction false} FewElements(q: seq<nat>, n: nat)
    requires Distinct(q) && forall i :: 0 <= i < |q| ==> q[i] < n
    ensures |q| <= n
  {
    DistinctSize(q);
    assert Elements(q) <= Below(n);
    SubsetSize(Elements(q), Below(n));
  }

  // Appending to a ring that is not full overwrites nothing that is still to be read.
  lemma Append(ring: seq<nat>, q: seq<nat>, total: nat, h: nat)
    requires InRing(ring, q, total) && |q| < NUM
    ensures InRing(ring[total % NUM := h], q + [h], total + 1)
  {
    var ring', q' := ring[total % NUM := h], q + [h];
    forall k | 0 <= k < |q'| ensures ring'[(total + 1 - |q'| + k) % NUM] == q'[k] {
      if k < |q| {
        NotSameSlot(total - |q| + k, total);
        assert ring[(total - |q| + k) % NUM] == q[k];
      }
    }
  }

  lemma NotSameSlot(a: nat, b: nat)
    requires a < b < a + NUM
    ensures a % NUM != b % NUM
  {
  }

  lemma RemoveFirst(ring: seq<nat>, q: seq<nat>, total: nat)
    requires InRing(ring, q, total) && q != []
    ensures ring[(total - |q|) % NUM] == q[0] && InRing(ring, q[1..], total)
  {
    forall k | 0 <= k < |q| - 1 ensures ring[(total - (|q| - 1) + k) % NUM] == q[1..][k] {
      assert ring[(total - |q| + (k + 1)) % NUM] == q[k + 1];
    }
    assert ring[(total - |q| + 0) % NUM] == q[0];
  }

  // A 16-bit index has the ring slot of the full count, and two of them differ if the counts do.
  lemma Index16(a: nat, b: nat)
    requires a <= b <= a + NUM
    ensures a % WRAP % NUM == a % NUM && (a % WRAP == b % WRAP <==> a == b)
    ensures (a % WRAP + 1) % WRAP == (a + 1) % WRAP
  {
    var q, m, d := a / WRAP, a % WRAP, b - a;
    assert a == WRAP * q + m;
    Slot(a, 8192 * q, m);
    if m + d < WRAP {
      Digit16(b, q, m + d);
    } else {
      Digit16(b, q + 1, m + d - WRAP);
    }
    if m + 1 < WRAP {
      Digit16(a + 1, q, m + 1);
    } else {
      Digit16(a + 1, q + 1, 0);
    }
  }

  lemma Slot(a: nat, q: nat, m: nat)
    requires a == NUM * q + m
    ensures a % NUM == m % NUM
  {
  }

  lemma Digit16(a: nat, q: nat, m: nat)
    requires a == WRAP * q + m && m < WRAP
    ensures a % WRAP == m
  {
  }

  /** One block went between the buffer of r and the block of r; nothing else changed. */
  ghost predicate Moved<T>(r: Request, data: map<nat, T>, blocks: map<nat, T>, data': map<nat, T>, blocks': map<nat, T>) {
    && r.b in data && r.blockno in blocks
    && data' == (if r.write then data else data[r.b := blocks[r.blockno]])
    && blocks' == (if r.write then blocks[r.blockno := data[r.b]] else blocks)
  }

  /** The buffer of each request holds what is recorded for it. */
  ghost predicate Carries<T>(data: map<nat, T>, reqs: map<nat, Request>, carried: map<nat, T>) {
    forall h :: h in reqs ==> h in carried && reqs[h].b in data && data[reqs[h].b] == carried[h]
  }

  // The device can follow the chain of r from its head h.
  ghost predicate Formed(status: seq<nat>, desc: seq<Desc>, ops: seq<Op>, r: Request, h: nat) {
    && |status| == NUM && |desc| == NUM && |ops| == NUM && h == r.i0 < NUM && r.i1 < NUM && r.i2 < NUM
    && Encodes(desc, ops, r)
  }

  /** So moved, a read records the contents of the block, and a write puts on the disk what was recorded. */
  ghost predicate Landed<T>(r: Request, h: nat, data: map<nat, T>, blocks: map<nat, T>, carried: map<nat, T>,
                            data': map<nat, T>, blocks': map<nat, T>, carried': map<nat, T>) {
    && Moved(r, data, blocks, data', blocks') && h in carried
    && carried' == (if r.write then carried else carried[h := blocks[r.blockno]])
    && (r.write ==> blocks' == blocks[r.blockno := carried[h]])
  }

  // The device changes the buffer of the request it completes, and no other.
  lemma CarriesMoved<T>(infoB: seq<nat>, bufs: set<nat>, data: map<nat, T>, blocks: map<nat, T>, reqs: map<nat, Request>, carried: map<nat, T>,
                        h: nat, data': map<nat, T>, blocks': map<nat, T>)
    requires Buffers(infoB, reqs, bufs) && Carries(data, reqs, carried) && h in reqs && Moved(reqs[h], data, blocks, data', blocks')
    ensures var carried' := if reqs[h].write then carried else carried[h := blocks[reqs[h].blockno]];
      Carries(data', reqs, carried') && Landed(reqs[h], h, data, blocks, carried, data', blocks', carried')
  {
  }

  lemma CarriesOne<T>(data: map<nat, T>, reqs: map<nat, Request>, carried: map<nat, T>, h: nat)
    requires Carries(data, reqs, carried) && h in reqs
    ensures h in carried && reqs[h].b in data && data[reqs[h].b] == carried[h]
  {
  }

  lemma CarriesOffered<T>(data: map<nat, T>, reqs: map<nat, Request>, carried: map<nat, T>, h: nat, r: Request)
    requires Carries(data, reqs, carried) && r.b in data
    ensures Carries(data, reqs[h := r], carried[h := data[r.b]])
  {
  }

  lemma CarriesFinished<T>(data: map<nat, T>, reqs: map<nat, Request>, carried: map<nat, T>, h: nat)
    requires Carries(data, reqs, carried)
    ensures Carries(data, reqs - {h}, carried - {h})
  {
  }

  // ---------------------------------------------------------------- the driver

  /** T is the contents of a block. */
  class Disk<T> {
    var free: seq<bool>
    var desc: seq<Desc>
    var ops: seq<Op>
    var avail: seq<nat>      // avail->ring
    var availIdx: nat        // avail->idx
    var devAvail: nat        // how far the device has looked
    var used: seq<nat>       // used->ring, by id
    var devIdx: nat          // used->idx, which the device writes
    var usedIdx: nat         // used_idx, how far the driver has looked
    var infoB: seq<nat>      // info[].b, 0 for none
    var status: seq<nat>     // info[].status
    var busy: set<nat>       // buffers with b->disk == 1
    var data: map<nat, T>    // b->data
    var blocks: map<nat, T>  // the disk itself
    ghost var reqs: map<nat, Request>
    ghost var pending: seq<nat>
    ghost var working: set<nat>
    ghost var done: seq<nat>
    ghost var seen: set<nat>
    ghost var carried: map<nat, T>  // by head: the buffer as offered, for a read the block once it has come
    ghost var offered: nat       // entries ever put into the avail ring
    ghost var completed: nat     // entries ever put into the used ring

    ghost predicate Valid()
      reads this
    {
      && Books(free, desc, ops, infoB, status, busy, data.Keys, reqs, pending, working, done, seen)
      && Ring(avail, pending, offered, availIdx, devAvail) && Ring(used, done, completed, devIdx, usedIdx)
      && Carries(data, reqs, carried)
    }

    constructor (blocks: map<nat, T>, data: map<nat, T>)
      ensures Valid() && reqs == map[] && this.blocks == blocks && this.data == data && busy == {}
    {
      free := seq(NUM, _ => true);
      desc := seq(NUM, _ => Desc(Nothing, 0, false, false, 0));
      ops := seq(NUM, _ => Op(false, 0));
      devAvail := 0;
      avail, availIdx, used, devIdx, usedIdx := seq(NUM, _ => 0), 0, seq(NUM, _ => 0), 0, 0;
      infoB, status := seq(NUM, _ => 0), seq(NUM, _ => 0);
      busy := {};
      this.data, this.blocks := data, blocks;
      reqs, pending, working, done, seen, carried, offered, completed := map[], [], {}, [], {}, map[], 0, 0;
    }

    /** alloc_desc: the first free descriptor, or -1. */
    method AllocDesc() returns (i: int)
      requires |free| == NUM
      modifies this`free
      ensures -1 <= i < NUM
      ensures i == -1 ==> free == old(free) && forall k :: 0 <= k < NUM ==> !free[k]
      ensures i >= 0 ==> old(free)[i] && free == old(free)[i := false]
    {
      i := 0;
      while i < NUM
        invariant 0 <= i <= NUM && free == old(free)
        invariant forall k :: 0 <= k < i ==> !free[k]
      {
        if free[i] {
          free := free[i := false];
          return;
        }
        i := i + 1;
      }
      i := -1;
    }

    /** free_desc */
    method FreeDesc(i: nat)
      requires |free| == NUM && |desc| == NUM && i < NUM && !free[i]  // else "free_desc 1", "free_desc 2"
      modifies this`free, this`desc
      ensures free == old(free)[i := true] && desc == old(desc)[i := Desc(Nothing, 0, false, false, 0)]
    {
      desc := desc[i := Desc(Nothing, 0, false, false, 0)];
      free := free[i := true];
    }

    /** alloc3_desc: three different free descriptors, or none at all. */
    method Alloc3Desc() returns (ok: bool, idx: seq<nat>)
      requires |free| == NUM && |desc| == NUM
      modifies this`free, this`desc
      ensures |free| == NUM && |desc| == NUM
      ensures forall k :: 0 <= k < NUM && !old(free)[k] ==> desc[k] == old(desc)[k]
      ensures !ok ==> free == old(free)
      ensures !ok <==> FreeCount(old(free)) < 3
      ensures ok ==> |idx| == 3 && Taken(old(free), free, idx[0], idx[1], idx[2])
    {
      idx := [];
      var i := 0;
      ghost var f := free;
      while i < 3
        invariant 0 <= i <= 3 && |idx| == i && |free| == NUM && |desc| == NUM && desc == old(desc)
        invariant forall j :: 0 <= j < i ==> idx[j] < NUM && f[idx[j]]
        invariant forall j, k :: 0 <= j < k < i ==> idx[j] != idx[k]
        invariant forall k :: 0 <= k < NUM ==> (free[k] <==> f[k] && k !in idx)
        invariant FreeCount(free) == FreeCount(f) - i
      {
        ghost var f1 := free;
        var a := AllocDesc();
        if a < 0 {
          NoneFree(free);
          GiveBack(idx, f);
          return false, [];
        }
        CountTake(f1, a);
        idx := idx + [a];
        i := i + 1;
      }
      ok := true;
    }

    // alloc3_desc gives back the descriptors it has when it cannot get a third.
    method GiveBack(idx: seq<nat>, ghost f: seq<bool>)
      requires |free| == NUM && |desc| == NUM && |f| == NUM
      requires forall j :: 0 <= j < |idx| ==> idx[j] < NUM && f[idx[j]]
      requires forall j, k :: 0 <= j < k < |idx| ==> idx[j] != idx[k]
      requires forall k :: 0 <= k < NUM ==> (free[k] <==> f[k] && k !in idx)
      modifies this`free, this`desc
      ensures free == f && |desc| == NUM
      ensures forall k :: 0 <= k < NUM && !f[k] ==> desc[k] == old(desc)[k]
    {
      var j := 0;
      while j < |idx|
        invariant 0 <= j <= |idx| && |free| == NUM && |desc| == NUM
        invariant forall k :: 0 <= k < NUM ==> (free[k] <==> f[k] && k !in idx[j..])
        invariant forall k :: 0 <= k < NUM && !f[k] ==> desc[k] == old(desc)[k]
      {
        assert idx[j..] == [idx[j]] + idx[j + 1..];
        FreeDesc(idx[j]);
        j := j + 1;
      }
    }

    /**
      virtio_disk_rw, up to the notification: one attempt to offer a request to the device.
      ok is false if there are not three free descriptors; the caller then sleeps.
     */
    method Offer(b: nat, blockno: nat, write: bool) returns (ok: bool, head: nat)
      requires Valid() && b in data && b != 0 && forall h :: h in reqs ==> reqs[h].b != b  // the caller holds the buffer's lock
      modifies this`free, this`desc, this`ops, this`status, this`busy, this`infoB, this`avail, this`availIdx, this`pending, this`offered, this`reqs, this`carried
      ensures Valid()
      ensures ok <==> FreeCount(old(free)) >= 3
      ensures !ok ==> reqs == old(reqs) && pending == old(pending) && busy == old(busy) && free == old(free)
      ensures ok ==>
        && head !in old(reqs) && head in reqs && reqs == old(reqs)[head := reqs[head]]
        && reqs[head].b == b && reqs[head].write == write && reqs[head].blockno == blockno
        && pending == old(pending) + [head] && busy == old(busy) + {b}
      ensures carried == if ok then old(carried)[head := data[b]] else old(carried)
    {
      hide Books; hide Ring; hide FreeCount; hide Taken; hide Carries;
      head := 0;
      ghost var free0, desc0 := free, desc;
      BooksSizes(free, desc, ops, infoB, status, busy, data.Keys, reqs, pending, working, done, seen);
      var idx;
      ok, idx := Alloc3Desc();
      ghost var bufs := data.Keys;
      RetryBooks(free0, desc0, desc, ops, infoB, status, busy, bufs, reqs, pending, working, done, seen);
      if !ok {
        return;
      }
      Submit(idx[0], idx[1], idx[2], b, blockno, write, free0);
      head := idx[0];
    }

    // virtio_disk_rw from the allocation to the notification.
    method Submit(i0: nat, i1: nat, i2: nat, b: nat, blockno: nat, write: bool, ghost free0: seq<bool>)
      requires Books(free0, desc, ops, infoB, status, busy, data.Keys, reqs, pending, working, done, seen) && Taken(free0, free, i0, i1, i2)
      requires Ring(avail, pending, offered, availIdx, devAvail)
      requires b in data && b != 0 && (forall h :: h in reqs ==> reqs[h].b != b) && Carries(data, reqs, carried)
      modifies this`desc, this`ops, this`status, this`busy, this`infoB, this`avail, this`availIdx, this`pending, this`offered, this`reqs, this`carried
      ensures Books(free, desc, ops, infoB, status, busy, data.Keys, reqs, pending, working, done, seen)
      ensures Ring(avail, pending, offered, availIdx, devAvail)
      ensures i0 !in old(reqs) && reqs == old(reqs)[i0 := Request(i0, i1, i2, b, write, blockno)]
      ensures pending == old(pending) + [i0] && busy == old(busy) + {b}
      ensures Carries(data, reqs, carried) && carried == old(carried)[i0 := data[b]]
    {
      hide Books; hide Ring; hide Taken; hide Carries;
      ghost var r, desc0, ops0 := Request(i0, i1, i2, b, write, blockno), desc, ops;
      BooksSizes(free0, desc, ops, infoB, status, busy, data.Keys, reqs, pending, working, done, seen);
      TakenFacts(free0, free, i0, i1, i2);
      ghost var infoB0, status0, busy0 := infoB, status, busy;
      Format(i0, i1, i2, b, blockno, write);
      OfferBooks(free0, free, desc0, desc, ops0, ops, infoB0, status0, busy0, data.Keys, reqs, pending, working, done, seen, r);
      CarriesOffered(data, reqs, carried, i0, r);
      Publish(i0, r);
    }

    // The three descriptors, the command header, and what virtio_disk_intr needs.
    method Format(i0: nat, i1: nat, i2: nat, b: nat, blockno: nat, write: bool)
      requires |desc| == NUM && |ops| == NUM && |infoB| == NUM && |status| == NUM
      requires i0 < NUM && i1 < NUM && i2 < NUM && i0 != i1 && i0 != i2 && i1 != i2
      modifies this`desc, this`ops, this`status, this`busy, this`infoB
      ensures |desc| == NUM && |ops| == NUM
      ensures status == old(status)[i0 := 0xff] && busy == old(busy) + {b} && infoB == old(infoB)[i0 := b]
      ensures desc[i0] == Desc(Header(i0), 16, false, true, i1) && desc[i1] == Desc(Data(b), BSIZE, !write, true, i2)
      ensures desc[i2] == Desc(Status(i0), 1, true, false, 0) && ops[i0] == Op(write, blockno * 2)
      ensures forall k :: 0 <= k < NUM && k != i0 && k != i1 && k != i2 ==> desc[k] == old(desc)[k]
      ensures forall k :: 0 <= k < NUM && k != i0 ==> ops[k] == old(ops)[k]
    {
      ops := ops[i0 := Op(write, blockno * 2)];  // BSIZE / 512
      desc := desc[i0 := Desc(Header(i0), 16, false, true, i1)];
      desc := desc[i1 := Desc(Data(b), BSIZE, !write, true, i2)];
      status := status[i0 := 0xff];
      desc := desc[i2 := Desc(Status(i0), 1, true, false, 0)];
      busy := busy + {b};
      infoB := infoB[i0 := b];
    }

    // The avail entry, and then the index.
    method Publish(head: nat, ghost r: Request)
      requires Ring(avail, pending, offered, availIdx, devAvail) && |pending| < NUM && r.b in data
      modifies this`avail, this`availIdx, this`pending, this`offered, this`reqs, this`carried
      ensures Ring(avail, pending, offered, availIdx, devAvail) && pending == old(pending) + [head] && reqs == old(reqs)[head := r]
      ensures carried == old(carried)[head := data[r.b]]
    {
      hide Ring;
      RingAppend(avail, pending, offered, availIdx, devAvail, head);
      avail := avail[availIdx % NUM := head];
      availIdx := (availIdx + 1) % WRAP;
      pending, offered, reqs, carried := pending + [head], offered + 1, reqs[head := r], carried[head := data[r.b]];
    }

    /** The device takes the next entry of the avail ring. */
    method DeviceTake() returns (h: nat)
      requires Valid() && pending != []
      modifies this`devAvail, this`pending, this`working
      ensures Valid() && h == old(pending)[0] && pending == old(pending)[1..] && working == old(working) + {h}
    {
      hide Ring; hide Stages; hide Flags; hide Described; hide Partition; hide Buffers;
      RingTake(avail, pending, offered, availIdx, devAvail);
      TakeStage(reqs, pending, working, done, seen);
      h := avail[devAvail % NUM];
      devAvail := (devAvail + 1) % WRAP;
      pending, working := pending[1..], working + {h};
    }

    /**
      The device completes a request it has taken, following its descriptors: one block
      goes between the request's buffer and the request's block, its status becomes 0,
      and its head goes to the used ring.
     */
    method DeviceComplete(h: nat)
      requires Valid() && h in working && h in reqs && reqs[h].blockno in blocks
      modifies this`data, this`blocks, this`status, this`used, this`devIdx, this`working, this`done, this`completed, this`carried
      ensures Valid() && working == old(working) - {h} && done == old(done) + [h]
      ensures Landed(reqs[h], h, old(data), old(blocks), old(carried), data, blocks, carried)
    {
      hide Books; hide Ring; hide Landed; hide Formed; hide Carries; hide Buffers;
      CompleteBooks(free, desc, ops, infoB, status, busy, data.Keys, reqs, pending, working, done, seen, h);
      BooksBuffers(free, desc, ops, infoB, status, busy, data.Keys, reqs, pending, working, done, seen);
      DeviceServe(h);
    }

    // The transfer, and then the used entry.
    method DeviceServe(h: nat)
      requires Buffers(infoB, reqs, data.Keys) && Carries(data, reqs, carried)
      requires h in reqs && Formed(status, desc, ops, reqs[h], h) && reqs[h].blockno in blocks
      requires Ring(used, done, completed, devIdx, usedIdx) && |done| < NUM
      modifies this`data, this`blocks, this`status, this`used, this`devIdx, this`working, this`done, this`completed, this`carried
      ensures |old(status)| == NUM && h < NUM && status == old(status)[h := 0] && data.Keys == old(data).Keys
      ensures Landed(reqs[h], h, old(data), old(blocks), old(carried), data, blocks, carried) && Carries(data, reqs, carried)
      ensures Ring(used, done, completed, devIdx, usedIdx) && working == old(working) - {h} && done == old(done) + [h]
    {
      hide Ring; hide Landed; hide Formed; hide Carries; hide Buffers;
      DeviceTransfer(h);
      DevicePublish(h);
    }

    // The transfer, and the record of what it left.
    method DeviceTransfer(h: nat)
      requires Buffers(infoB, reqs, data.Keys) && Carries(data, reqs, carried)
      requires h in reqs && Formed(status, desc, ops, reqs[h], h) && reqs[h].blockno in blocks
      modifies this`data, this`blocks, this`status, this`carried
      ensures |old(status)| == NUM && h < NUM && status == old(status)[h := 0] && data.Keys == old(data).Keys
      ensures Landed(reqs[h], h, old(data), old(blocks), old(carried), data, blocks, carried) && Carries(data, reqs, carried)
    {
      hide Moved; hide Landed; hide Encodes; hide Carries;
      ghost var data0, blocks0 := data, blocks;
      DeviceMove(h, reqs[h]);
      CarriesMoved(infoB, data0.Keys, data0, blocks0, reqs, carried, h, data, blocks);
      carried := if reqs[h].write then carried else carried[h := blocks0[reqs[h].blockno]];
    }

    // The used entry, and then the index.
    method DevicePublish(h: nat)
      requires Ring(used, done, completed, devIdx, usedIdx) && |done| < NUM
      modifies this`used, this`devIdx, this`working, this`done, this`completed
      ensures Ring(used, done, completed, devIdx, usedIdx) && working == old(working) - {h} && done == old(done) + [h]
    {
      hide Ring;
      RingAppend(used, done, completed, devIdx, usedIdx, h);
      used := used[devIdx % NUM := h];
      devIdx := (devIdx + 1) % WRAP;
      working, done, completed := working - {h}, done + [h], completed + 1;
    }

    // The device follows the chain from h: the transfer, and then the status.
    method DeviceMove(h: nat, ghost r: Request)
      requires |status| == NUM && |desc| == NUM && |ops| == NUM && h == r.i0 < NUM && r.i1 < NUM && r.i2 < NUM && Encodes(desc, ops, r)
      requires r.b in data && r.blockno in blocks
      modifies this`data, this`blocks, this`status
      ensures status == old(status)[h := 0] && data.Keys == old(data).Keys
      ensures Moved(r, old(data), old(blocks), data, blocks)
    {
      var op := ops[desc[h].addr.i];
      var d1 := desc[desc[h].next];
      var d2 := desc[d1.next];
      assert op.sector / 2 == r.blockno;
      if d1.write {
        data := data[d1.addr.b := blocks[op.sector / 2]];
      } else {
        blocks := blocks[op.sector / 2 := data[d1.addr.b]];
      }
      status := status[d2.addr.i := 0];
    }

    /** One turn of the loop of virtio_disk_intr: the oldest completion not yet seen; exactly its buffer is cleared. */
    method IntrTurn()
      requires Valid() && usedIdx != devIdx
      modifies this`busy, this`usedIdx, this`done, this`seen
      ensures Valid() && old(done) != [] && done == old(done)[1..] && seen == old(seen) + {old(done)[0]}
      ensures busy == old(busy) - {reqs[old(done)[0]].b}
    {
      hide Ring; hide Stages; hide Flags; hide Described; hide Partition; hide Buffers;
      SomeDone();
      RingTake(used, done, completed, devIdx, usedIdx);
      SeeStage(reqs, pending, working, done, seen, status, busy, infoB, data.Keys);
      var id := used[usedIdx % NUM];
      assert status[id] == 0;  // else "virtio_disk_intr status"
      var b := infoB[id];
      busy := busy - {b};
      usedIdx := (usedIdx + 1) % WRAP;
      done, seen := done[1..], seen + {id};
    }

    lemma SomeDone()
      requires Valid()
      ensures usedIdx != devIdx <==> done != []
      ensures forall h :: h in done ==> h in reqs
    {
      hide Described; hide Buffers; hide Flags;
      FewDone(free, reqs, pending, working, done, seen);
      Index16(completed - |done|, completed);
    }

    /** virtio_disk_intr: every completion is seen; their buffers are cleared and no others. */
    method Intr()
      requires Valid()
      modifies this`busy, this`usedIdx, this`done, this`seen
      ensures Valid() && done == [] && seen == old(seen) + Elements(old(done))
      ensures forall b :: b in busy <==> b in old(busy) && forall h :: h in old(done) ==> reqs[h].b != b
    {
      hide Books; hide Ring; hide Elements;
      ghost var done0 := done;
      SomeDone();
      while usedIdx != devIdx
        invariant Valid() && |done| <= |done0| && done == done0[|done0| - |done|..]
        invariant seen == old(seen) + Elements(done0[..|done0| - |done|])
        invariant forall h :: h in done0 ==> h in reqs
        invariant forall b :: b in busy <==> b in old(busy) && forall k :: 0 <= k < |done0| - |done| ==> reqs[done0[k]].b != b
        decreases |done|
      {
        ghost var k := |done0| - |done|;
        IntrTurn();
        assert done0[..k + 1] == done0[..k] + [done0[k]];
        ElementsMore(done0[..k], done0[k]);
        SomeDone();
      }
      SomeDone();
      assert done0[..|done0|] == done0;
    }

    /** free_chain: exactly the three descriptors of the request. */
    method FreeChain(i: nat, ghost r: Request)
      requires |desc| == NUM && |ops| == NUM && |free| == NUM && r.i0 < NUM && r.i1 < NUM && r.i2 < NUM && r.i0 != r.i1 && r.i0 != r.i2 && r.i1 != r.i2
      requires i == r.i0 && Encodes(desc, ops, r) && !free[r.i0] && !free[r.i1] && !free[r.i2]
      modifies this`free, this`desc
      ensures |desc| == NUM && free == old(free)[r.i0 := true][r.i1 := true][r.i2 := true]
      ensures forall k :: 0 <= k < NUM && !Uses(r, k) ==> desc[k] == old(desc)[k]
    {
      ghost var step := 0;
      var j := i;
      while true
        invariant 0 <= step <= 2 && |free| == NUM && |desc| == NUM
        invariant j == (if step == 0 then r.i0 else if step == 1 then r.i1 else r.i2)
        invariant step == 0 ==> desc == old(desc) && free == old(free)
        invariant step == 1 ==> free == old(free)[r.i0 := true] && desc == old(desc)[r.i0 := Desc(Nothing, 0, false, false, 0)]
        invariant step == 2 ==> free == old(free)[r.i0 := true][r.i1 := true]
        invariant step == 2 ==> desc == old(desc)[r.i0 := Desc(Nothing, 0, false, false, 0)][r.i1 := Desc(Nothing, 0, false, false, 0)]
        decreases 2 - step
      {
        var more, nxt := desc[j].more, desc[j].next;
        FreeDesc(j);
        if more {
          j := nxt;
        } else {
          break;
        }
        step := step + 1;
      }
    }

    /**
      The end of virtio_disk_rw, once the buffer's disk flag is clear: the request and its
      descriptors are gone, and a read has left in the buffer what the block held when the
      device completed it.
     */
    method Finish(head: nat)
      requires Valid() && head in reqs && reqs[head].b !in busy
      modifies this`free, this`desc, this`infoB, this`reqs, this`seen, this`carried
      ensures Valid() && reqs == old(reqs) - {head} && seen == old(seen) - {head}
      ensures FreeCount(free) == FreeCount(old(free)) + 3
      ensures var b := old(reqs)[head].b; head in old(carried) && b in data && data[b] == old(carried)[head]
      ensures carried == old(carried) - {head}
    {
      hide Books; hide Ring; hide FreeCount; hide Encodes; hide Carries;
      CarriesOne(data, reqs, carried, head);
      CarriesFinished(data, reqs, carried, head);
      NotBusySeen(free, desc, ops, infoB, status, busy, data.Keys, reqs, pending, working, done, seen, head);
      BooksChain(free, desc, ops, infoB, status, busy, data.Keys, reqs, pending, working, done, seen, head);
      ghost var r, free0, desc0 := reqs[head], free, desc;
      FreeChain(head, r);
      FinishBooks(free0, free, desc0, desc, ops, infoB, status, busy, data.Keys, reqs, pending, working, done, seen, head);
      CountGive3(free0, r.i0, r.i1, r.i2);
      Forget(head);
    }

    // The buffer is no longer the request's.
    method Forget(head: nat)
      requires head < |infoB|
      modifies this`infoB, this`reqs, this`seen, this`carried
      ensures infoB == old(infoB)[head := 0] && reqs == old(reqs) - {head} && seen == old(seen) - {head} && carried == old(carried) - {head}
    {
      infoB := infoB[head := 0];
      reqs, seen, carried := reqs - {head}, seen - {head}, carried - {head};
    }
  }

  lemma BooksBuffers(free: seq<bool>, desc: seq<Desc>, ops: seq<Op>, infoB: seq<nat>, status: seq<nat>, busy: set<nat>, bufs: set<nat>,
                     reqs: map<nat, Request>, pending: seq<nat>, working: set<nat>, done: seq<nat>, seen: set<nat>)
    requires Books(free, desc, ops, infoB, status, busy, bufs, reqs, pending, working, done, seen)
    ensures Buffers(infoB, reqs, bufs)
  {
  }

  // A request whose buffer is no longer marked has had its completion seen.
  lemma NotBusySeen(free: seq<bool>, desc: seq<Desc>, ops: seq<Op>, infoB: seq<nat>, status: seq<nat>, busy: set<nat>, bufs: set<nat>,
                    reqs: map<nat, Request>, pending: seq<nat>, working: set<nat>, done: seq<nat>, seen: set<nat>, h: nat)
    requires Books(free, desc, ops, infoB, status, busy, bufs, reqs, pending, working, done, seen) && h in reqs && reqs[h].b !in busy
    ensures h in seen
  {
    hide Partition; hide Stages; hide Described; hide Buffers;
  }

  // ---------------------------------------------------------------- counting free descriptors

  function FreeCount(f: seq<bool>): nat {
    if f == [] then 0 else FreeCount(f[..|f| - 1]) + if f[|f| - 1] then 1 else 0
  }

  lemma {:induction false} CountTake(f: seq<bool>, i: nat)
    requires i < |f| && f[i]
    ensures FreeCount(f[i := false]) == FreeCount(f) - 1
  {
    var f', n := f[i := false], |f| - 1;
    if i < n {
      CountTake(f[..n], i);
      assert f'[..n] == f[..n][i := false];
    } else {
      assert f'[..n] == f[..n];
    }
  }

  lemma {:induction false} NoneFree(f: seq<bool>)
    requires forall k :: 0 <= k < |f| ==> !f[k]
    ensures FreeCount(f) == 0
  {
    if f != [] {
      NoneFree(f[..|f| - 1]);
    }
  }

  ghost predicate Taken(f: seq<bool>, f': seq<bool>, i: nat, j: nat, k: nat) {
    && |f| == NUM && |f'| == NUM && i < NUM && j < NUM && k < NUM && i != j && i != k && j != k && f[i] && f[j] && f[k]
    && f' == f[i := false][j := false][k := false]
  }

  lemma CountGive3(f: seq<bool>, i: nat, j: nat, k: nat)
    requires i < |f| && j < |f| && k < |f| && i != j && i != k && j != k && !f[i] && !f[j] && !f[k]
    ensures FreeCount(f[i := true][j := true][k := true]) == FreeCount(f) + 3
  {
    var f1 := f[i := true];
    var f2 := f1[j := true];
    var f3 := f2[k := true];
    assert f1[i := false] == f && f2[j := false] == f1 && f3[k := false] == f2;
    CountTake(f1, i);
    CountTake(f2, j);
    CountTake(f3, k);
  }

  lemma TakenFacts(f: seq<bool>, f': seq<bool>, i: nat, j: nat, k: nat)
    requires Taken(f, f', i, j, k)
    ensures |f| == NUM && |f'| == NUM && i < NUM && j < NUM && k < NUM && i != j && i != k && j != k && f[i] && f[j] && f[k]
  {
  }

  // ---------------------------------------------------------------- requests come and go

  lemma PartitionSize(free: seq<bool>, reqs: map<nat, Request>)
    requires Partition(free, reqs)
    ensures |free| == NUM && forall h :: h in reqs ==> reqs[h].i0 == h && h < NUM
  {
  }

  lemma AddRequest(free: seq<bool>, free': seq<bool>, reqs: map<nat, Request>, r: Request)
    requires Partition(free, reqs) && Taken(free, free', r.i0, r.i1, r.i2)
    ensures r.i0 !in reqs && Partition(free', reqs[r.i0 := r])
  {
    FreshHead(free, reqs, r.i0);
    var reqs' := reqs[r.i0 := r];
    forall i | 0 <= i < NUM ensures free'[i] <==> forall h :: h in reqs' ==> !Uses(reqs'[h], i) {
      NowUsed(free, free', reqs, r, i);
    }
    forall g, h, i: nat | g in reqs' && h in reqs' && Uses(reqs'[g], i) && Uses(reqs'[h], i) ensures g == h {
    }
  }

  lemma FreshHead(free: seq<bool>, reqs: map<nat, Request>, i: nat)
    requires Partition(free, reqs) && i < NUM && free[i]
    ensures i !in reqs
  {
    if i in reqs {
      assert Uses(reqs[i], i);
    }
  }

  lemma NowUsed(free: seq<bool>, free': seq<bool>, reqs: map<nat, Request>, r: Request, i: nat)
    requires Partition(free, reqs) && Taken(free, free', r.i0, r.i1, r.i2) && r.i0 !in reqs && i < NUM
    ensures var reqs' := reqs[r.i0 := r]; free'[i] <==> forall h :: h in reqs' ==> !Uses(reqs'[h], i)
  {
    var reqs' := reqs[r.i0 := r];
    if free[i] && !free'[i] {
      assert Uses(reqs'[r.i0], i);
    } else if !free[i] {
      var h :| h in reqs && Uses(reqs[h], i);
      assert Uses(reqs'[h], i);
    }
  }

  lemma DropRequest(free: seq<bool>, free': seq<bool>, reqs: map<nat, Request>, h: nat)
    requires Partition(free, reqs) && h in reqs
    requires var r := reqs[h]; free' == free[r.i0 := true][r.i1 := true][r.i2 := true]
    ensures Partition(free', reqs - {h})
  {
    var reqs' := reqs - {h};
    forall i | 0 <= i < NUM ensures free'[i] <==> forall g :: g in reqs' ==> !Uses(reqs'[g], i) {
      if Uses(reqs[h], i) {
      } else if !free[i] {
        var g :| g in reqs && Uses(reqs[g], i);
        assert g in reqs' && Uses(reqs'[g], i);
      }
    }
  }

  // Descriptors of requests are not free, so writing to free ones leaves requests alone.
  lemma KeepDescribed(free: seq<bool>, desc: seq<Desc>, desc': seq<Desc>, ops: seq<Op>, ops': seq<Op>, reqs: map<nat, Request>)
    requires Partition(free, reqs) && Described(desc, ops, reqs) && |desc'| == NUM && |ops'| == NUM
    requires forall k :: 0 <= k < NUM && !free[k] ==> desc'[k] == desc[k] && ops'[k] == ops[k]
    ensures Described(desc', ops', reqs)
  {
    forall h | h in reqs ensures Encodes(desc', ops', reqs[h]) {
      var r := reqs[h];
      assert Uses(r, r.i0) && Uses(r, r.i1) && Uses(r, r.i2);
    }
  }

  lemma AddDescribed(desc: seq<Desc>, ops: seq<Op>, reqs: map<nat, Request>, r: Request)
    requires Described(desc, ops, reqs) && r.i0 < NUM && r.i1 < NUM && r.i2 < NUM && r.i0 != r.i1 && r.i0 != r.i2 && r.i1 != r.i2
    requires desc[r.i0] == Desc(Header(r.i0), 16, false, true, r.i1) && desc[r.i1] == Desc(Data(r.b), BSIZE, !r.write, true, r.i2)
    requires desc[r.i2] == Desc(Status(r.i0), 1, true, false, 0) && ops[r.i0] == Op(r.write, r.blockno * 2)
    ensures Described(desc, ops, reqs[r.i0 := r])
  {
  }

  lemma DropDescribed(free: seq<bool>, desc: seq<Desc>, desc': seq<Desc>, ops: seq<Op>, reqs: map<nat, Request>, h: nat)
    requires Partition(free, reqs) && Described(desc, ops, reqs) && h in reqs && |desc'| == NUM
    requires forall k :: 0 <= k < NUM && !Uses(reqs[h], k) ==> desc'[k] == desc[k]
    ensures Described(desc', ops, reqs - {h})
  {
    forall g | g in reqs && g != h ensures Encodes(desc', ops, reqs[g]) {
      var r := reqs[g];
      assert Uses(r, r.i0) && Uses(r, r.i1) && Uses(r, r.i2);
    }
  }

  // What the device finds when it follows the chain from h.
  lemma Chain(free: seq<bool>, desc: seq<Desc>, ops: seq<Op>, infoB: seq<nat>, reqs: map<nat, Request>, bufs: set<nat>, h: nat)
    requires Partition(free, reqs) && Described(desc, ops, reqs) && Buffers(infoB, reqs, bufs) && h in reqs
    ensures |desc| == NUM && |ops| == NUM && h < NUM && reqs[h].i0 == h && reqs[h].i1 < NUM && reqs[h].i2 < NUM && Encodes(desc, ops, reqs[h]) && reqs[h].b in bufs
  {
  }

  lemma Unfree(free: seq<bool>, reqs: map<nat, Request>, desc: seq<Desc>, ops: seq<Op>, h: nat)
    requires Partition(free, reqs) && Described(desc, ops, reqs) && h in reqs
    ensures |free| == NUM && |desc| == NUM && |ops| == NUM
    ensures var r := reqs[h];
      && r.i0 == h && r.i0 < NUM && r.i1 < NUM && r.i2 < NUM && r.i0 != r.i1 && r.i0 != r.i2 && r.i1 != r.i2
      && !free[r.i0] && !free[r.i1] && !free[r.i2] && Encodes(desc, ops, r)
  {
    var r := reqs[h];
    assert Uses(r, r.i0) && Uses(r, r.i1) && Uses(r, r.i2);
  }

  // ---------------------------------------------------------------- rings

  lemma RingAppend(ring: seq<nat>, q: seq<nat>, total: nat, hi: nat, ti: nat, h: nat)
    requires Ring(ring, q, total, hi, ti) && |q| < NUM
    ensures |ring| == NUM && Ring(ring[hi % NUM := h], q + [h], total + 1, (hi + 1) % WRAP, ti)
  {
    Index16(total, total);
    Append(ring, q, total, h);
  }

  lemma RingTake(ring: seq<nat>, q: seq<nat>, total: nat, hi: nat, ti: nat)
    requires Ring(ring, q, total, hi, ti) && q != []
    ensures |ring| == NUM && ring[ti % NUM] == q[0] && Ring(ring, q[1..], total, hi, (ti + 1) % WRAP)
  {
    Index16(total - |q|, total - |q|);
    RemoveFirst(ring, q, total);
  }

  // ---------------------------------------------------------------- stages

  lemma OfferStage(reqs: map<nat, Request>, pending: seq<nat>, working: set<nat>, done: seq<nat>, seen: set<nat>, r: Request,
                   infoB: seq<nat>, bufs: set<nat>, status: seq<nat>, busy: set<nat>)
    requires Stages(reqs, pending, working, done, seen) && Buffers(infoB, reqs, bufs) && Flags(status, busy, reqs, done, seen)
    requires r.i0 !in reqs && r.i0 < NUM && r.b in bufs && r.b != 0 && forall h :: h in reqs ==> reqs[h].b != r.b
    ensures Stages(reqs[r.i0 := r], pending + [r.i0], working, done, seen)
    ensures Buffers(infoB[r.i0 := r.b], reqs[r.i0 := r], bufs)
    ensures Flags(status[r.i0 := 0xff], busy + {r.b}, reqs[r.i0 := r], done, seen)
  {
    assert forall h :: h in pending + [r.i0] <==> h in pending || h == r.i0;
  }

  lemma TakeStage(reqs: map<nat, Request>, pending: seq<nat>, working: set<nat>, done: seq<nat>, seen: set<nat>)
    requires Stages(reqs, pending, working, done, seen) && pending != []
    ensures Stages(reqs, pending[1..], working + {pending[0]}, done, seen)
  {
    FirstOut(pending);
  }

  lemma CompleteStage(reqs: map<nat, Request>, pending: seq<nat>, working: set<nat>, done: seq<nat>, seen: set<nat>, status: seq<nat>, busy: set<nat>, h: nat)
    requires Stages(reqs, pending, working, done, seen) && Flags(status, busy, reqs, done, seen) && h in working
    ensures h in reqs && h < |status| && Stages(reqs, pending, working - {h}, done + [h], seen)
    ensures Flags(status[h := 0], busy, reqs, done + [h], seen)
  {
    assert forall g :: g in done + [h] <==> g in done || g == h;
  }

  lemma SeeStage(reqs: map<nat, Request>, pending: seq<nat>, working: set<nat>, done: seq<nat>, seen: set<nat>, status: seq<nat>, busy: set<nat>, infoB: seq<nat>, bufs: set<nat>)
    requires Stages(reqs, pending, working, done, seen) && Flags(status, busy, reqs, done, seen) && Buffers(infoB, reqs, bufs) && done != []
    ensures done[0] in reqs && done[0] < |status| && status[done[0]] == 0 && done[0] < |infoB| && infoB[done[0]] == reqs[done[0]].b
    ensures Stages(reqs, pending, working, done[1..], seen + {done[0]})
    ensures Flags(status, busy - {reqs[done[0]].b}, reqs, done[1..], seen + {done[0]})
  {
    FirstOut(done);
  }

  lemma FinishStage(reqs: map<nat, Request>, pending: seq<nat>, working: set<nat>, done: seq<nat>, seen: set<nat>, status: seq<nat>, busy: set<nat>, infoB: seq<nat>, bufs: set<nat>, h: nat)
    requires Stages(reqs, pending, working, done, seen) && Flags(status, busy, reqs, done, seen) && Buffers(infoB, reqs, bufs) && h in seen
    ensures h in reqs && h < |infoB| && Stages(reqs - {h}, pending, working, done, seen - {h})
    ensures Flags(status, busy, reqs - {h}, done, seen - {h}) && Buffers(infoB[h := 0], reqs - {h}, bufs)
  {
  }

  lemma FirstOut(q: seq<nat>)
    requires Distinct(q) && q != []
    ensures q[0] in q && q[0] !in q[1..] && Distinct(q[1..]) && forall h :: h in q <==> h == q[0] || h in q[1..]
  {
    assert q == [q[0]] + q[1..];
  }

  // There is room in the avail ring for a new request, whose head is i.
  lemma RoomLeft(free: seq<bool>, reqs: map<nat, Request>, pending: seq<nat>, working: set<nat>, done: seq<nat>, seen: set<nat>, i: nat)
    requires Partition(free, reqs) && Stages(reqs, pending, working, done, seen) && i < NUM && i !in reqs
    ensures |pending| < NUM
  {
    PartitionSize(free, reqs);
    forall k | 0 <= k < |pending| ensures pending[k] < NUM && pending[k] != i { assert pending[k] in pending; }
    FewElements(pending + [i], NUM);
  }

  lemma RoomLeftDone(free: seq<bool>, reqs: map<nat, Request>, pending: seq<nat>, working: set<nat>, done: seq<nat>, seen: set<nat>, h: nat)
    requires Partition(free, reqs) && Stages(reqs, pending, working, done, seen) && h in working
    ensures |done| < NUM
  {
    PartitionSize(free, reqs);
    forall k | 0 <= k < |done| ensures done[k] < NUM && done[k] != h { assert done[k] in done; }
    FewElements(done + [h], NUM);
  }

  lemma FewDone(free: seq<bool>, reqs: map<nat, Request>, pending: seq<nat>, working: set<nat>, done: seq<nat>, seen: set<nat>)
    requires Partition(free, reqs) && Stages(reqs, pending, working, done, seen)
    ensures |done| <= NUM
  {
    PartitionSize(free, reqs);
    forall i | 0 <= i < |done| ensures done[i] < NUM { assert done[i] in done; }
    FewElements(done, NUM);
  }

  lemma ElementsMore(q: seq<nat>, h: nat)
    ensures Elements(q + [h]) == Elements(q) + {h}
  {
    var s := q + [h];
    assert forall x :: x in s <==> x in q || x == h;
  }

  // ---------------------------------------------------------------- the books

  lemma BooksSizes(free: seq<bool>, desc: seq<Desc>, ops: seq<Op>, infoB: seq<nat>, status: seq<nat>, busy: set<nat>, bufs: set<nat>,
                   reqs: map<nat, Request>, pending: seq<nat>, working: set<nat>, done: seq<nat>, seen: set<nat>)
    requires Books(free, desc, ops, infoB, status, busy, bufs, reqs, pending, working, done, seen)
    ensures |free| == NUM && |desc| == NUM && |ops| == NUM && |infoB| == NUM && |status| == NUM
  {
    hide Stages;
  }

  lemma RetryBooks(free: seq<bool>, desc: seq<Desc>, desc': seq<Desc>, ops: seq<Op>, infoB: seq<nat>, status: seq<nat>, busy: set<nat>, bufs: set<nat>,
                   reqs: map<nat, Request>, pending: seq<nat>, working: set<nat>, done: seq<nat>, seen: set<nat>)
    requires Books(free, desc, ops, infoB, status, busy, bufs, reqs, pending, working, done, seen) && |desc'| == NUM && |desc| == NUM && |free| == NUM
    requires forall k :: 0 <= k < NUM && !free[k] ==> desc'[k] == desc[k]
    ensures Books(free, desc', ops, infoB, status, busy, bufs, reqs, pending, working, done, seen)
  {
    hide Stages; hide Partition; hide Buffers; hide Flags;
    KeepDescribed(free, desc, desc', ops, ops, reqs);
  }

  lemma OfferBooks(free: seq<bool>, free': seq<bool>, desc: seq<Desc>, desc': seq<Desc>, ops: seq<Op>, ops': seq<Op>,
                   infoB: seq<nat>, status: seq<nat>, busy: set<nat>, bufs: set<nat>,
                   reqs: map<nat, Request>, pending: seq<nat>, working: set<nat>, done: seq<nat>, seen: set<nat>, r: Request)
    requires Books(free, desc, ops, infoB, status, busy, bufs, reqs, pending, working, done, seen) && Taken(free, free', r.i0, r.i1, r.i2)
    requires |desc'| == NUM && |ops'| == NUM && |desc| == NUM && |ops| == NUM
    requires desc'[r.i0] == Desc(Header(r.i0), 16, false, true, r.i1) && desc'[r.i1] == Desc(Data(r.b), BSIZE, !r.write, true, r.i2)
    requires desc'[r.i2] == Desc(Status(r.i0), 1, true, false, 0) && ops'[r.i0] == Op(r.write, r.blockno * 2)
    requires forall k :: 0 <= k < NUM && k != r.i0 && k != r.i1 && k != r.i2 ==> desc'[k] == desc[k]
    requires forall k :: 0 <= k < NUM && k != r.i0 ==> ops'[k] == ops[k]
    requires r.b in bufs && r.b != 0 && forall h :: h in reqs ==> reqs[h].b != r.b
    ensures r.i0 !in reqs && |pending| < NUM && r.i0 < |infoB| && r.i0 < |status|
    ensures Books(free', desc', ops', infoB[r.i0 := r.b], status[r.i0 := 0xff], busy + {r.b}, bufs,
                  reqs[r.i0 := r], pending + [r.i0], working, done, seen)
  {
    hide Partition; hide Stages; hide Described; hide Buffers; hide Flags; hide Encodes; hide Uses;
    BooksSizes(free, desc, ops, infoB, status, busy, bufs, reqs, pending, working, done, seen);
    AddRequest(free, free', reqs, r);
    RoomLeft(free, reqs, pending, working, done, seen, r.i0);
    OfferStage(reqs, pending, working, done, seen, r, infoB, bufs, status, busy);
    KeepDescribed(free, desc, desc', ops, ops', reqs);
    AddDescribed(desc', ops', reqs, r);
  }

  lemma CompleteBooks(free: seq<bool>, desc: seq<Desc>, ops: seq<Op>, infoB: seq<nat>, status: seq<nat>, busy: set<nat>, bufs: set<nat>,
                      reqs: map<nat, Request>, pending: seq<nat>, working: set<nat>, done: seq<nat>, seen: set<nat>, h: nat)
    requires Books(free, desc, ops, infoB, status, busy, bufs, reqs, pending, working, done, seen) && h in working
    ensures |status| == NUM && h < NUM && |done| < NUM && h in reqs && Formed(status, desc, ops, reqs[h], h)
    ensures Books(free, desc, ops, infoB, status[h := 0], busy, bufs, reqs, pending, working - {h}, done + [h], seen)
  {
    hide Partition; hide Stages; hide Described; hide Buffers; hide Flags; hide Encodes;
    BooksSizes(free, desc, ops, infoB, status, busy, bufs, reqs, pending, working, done, seen);
    CompleteStage(reqs, pending, working, done, seen, status, busy, h);
    Chain(free, desc, ops, infoB, reqs, bufs, h);
    RoomLeftDone(free, reqs, pending, working, done, seen, h);
  }

  lemma BooksChain(free: seq<bool>, desc: seq<Desc>, ops: seq<Op>, infoB: seq<nat>, status: seq<nat>, busy: set<nat>, bufs: set<nat>,
                   reqs: map<nat, Request>, pending: seq<nat>, working: set<nat>, done: seq<nat>, seen: set<nat>, h: nat)
    requires Books(free, desc, ops, infoB, status, busy, bufs, reqs, pending, working, done, seen) && h in seen
    ensures |free| == NUM && |desc| == NUM && |ops| == NUM && |infoB| == NUM && h in reqs
    ensures var r := reqs[h];
      && r.i0 == h && r.i0 < NUM && r.i1 < NUM && r.i2 < NUM && r.i0 != r.i1 && r.i0 != r.i2 && r.i1 != r.i2
      && !free[r.i0] && !free[r.i1] && !free[r.i2] && Encodes(desc, ops, r)
  {
    hide Partition; hide Described; hide Buffers; hide Flags; hide Encodes;
    BooksSizes(free, desc, ops, infoB, status, busy, bufs, reqs, pending, working, done, seen);
    Unfree(free, reqs, desc, ops, h);
  }

  lemma FinishBooks(free: seq<bool>, free': seq<bool>, desc: seq<Desc>, desc': seq<Desc>, ops: seq<Op>, infoB: seq<nat>, status: seq<nat>,
                    busy: set<nat>, bufs: set<nat>,
                    reqs: map<nat, Request>, pending: seq<nat>, working: set<nat>, done: seq<nat>, seen: set<nat>, h: nat)
    requires Books(free, desc, ops, infoB, status, busy, bufs, reqs, pending, working, done, seen) && h in seen && h in reqs
    requires var r := reqs[h]; |free| == NUM && r.i0 < NUM && r.i1 < NUM && r.i2 < NUM && free' == free[r.i0 := true][r.i1 := true][r.i2 := true]
    requires |desc| == NUM && |desc'| == NUM && forall k :: 0 <= k < NUM && !Uses(reqs[h], k) ==> desc'[k] == desc[k]
    ensures h < |infoB| && Books(free', desc', ops, infoB[h := 0], status, busy, bufs, reqs - {h}, pending, working, done, seen - {h})
  {
    hide Partition; hide Stages; hide Described; hide Buffers; hide Flags; hide Encodes;
    BooksSizes(free, desc, ops, infoB, status, busy, bufs, reqs, pending, working, done, seen);
    FinishStage(reqs, pending, working, done, seen, status, busy, infoB, bufs, h);
    DropRequest(free, free', reqs, h);
    DropDescribed(free, desc, desc', ops, reqs, h);
  }
}
