/**
  log.c: the in-memory log header, log_write, commit and recovery, run over the
  buffer cache.  Every method states exactly which block writes it performs, so
  the crash lemmas of RedoLog speak about this code: a crash is a prefix of the
  writes.
 */
module WriteAheadLog {
  import opened Blocks
  import opened Counting
  import opened RedoLog
  import opened BufferCache

  // How a log operation ends: normally, or in one of its panics.
  datatype Outcome = Ok | NoBuffers | TooBig | OutsideTransaction

  // A block is referenced once if it is pinned, and by others exactly if one of them holds it.
  predicate Counted(refs: nat, pinned: bool, held: bool) {
    var pin := if pinned then 1 else 0;
    refs >= pin && (refs > pin <==> held)
  }

  // Exactly the blocks in `pinned` are pinned, once each.  Other processes hold the buffers
  // of `held`, outside the log area, and those are clean unless pinned.  The log area is clean.
  ghost predicate Settled(start: nat, disk: Disk, view: Disk, refs: seq<nat>, held: set<nat>, pinned: seq<nat>) {
    && start + LOGBLOCKS < |disk| == |view| == |refs|
    && (forall b :: b in held ==> b < |refs| && !InLog(start, b) && (b in pinned || view[b] == disk[b]))
    && (forall b :: 0 <= b < |disk| && InLog(start, b) ==> view[b] == disk[b])
    && (forall b :: 0 <= b < |refs| ==> Counted(refs[b], b in pinned, b in held))
  }

  // Nobody else holds the buffers of these blocks; commit waits for them otherwise.
  ghost predicate Unlocked(lh: seq<nat>, held: set<nat>) {
    forall i :: 0 <= i < |lh| ==> lh[i] !in held
  }

  // Pinned and held blocks together.
  ghost function InUse(pinned: seq<nat>, held: set<nat>): set<nat> {
    Elements(pinned) + held
  }

  lemma InUseSize(pinned: seq<nat>, held: set<nat>)
    requires Distinct(pinned) && Unlocked(pinned, held)
    ensures |InUse(pinned, held)| == |pinned| + |held|
  {
    hide Elements;
    DistinctSize(pinned);
    assert Elements(pinned) !! held;
  }

  lemma InUseMost(pinned: seq<nat>, held: set<nat>, b: nat)
    requires Distinct(pinned)
    ensures |InUse(pinned, held)| >= |pinned| && (b in InUse(pinned, held) <==> b in pinned || b in held)
  {
    hide Elements;
    DistinctSize(pinned);
    SubsetSize(Elements(pinned), InUse(pinned, held));
  }

  // What Settled says of the sizes and of one block.
  lemma SettledAt(start: nat, disk: Disk, view: Disk, refs: seq<nat>, held: set<nat>, pinned: seq<nat>, b: nat)
    requires Settled(start, disk, view, refs, held, pinned) && b < |disk|
    ensures start + LOGBLOCKS < |disk| == |view| == |refs|
    ensures b !in held ==> refs[b] == if b in pinned then 1 else 0
    ensures InLog(start, b) ==> b !in held && view[b] == disk[b]
  {
    assert Counted(refs[b], b in pinned, b in held);
  }

  lemma SettledUse(start: nat, disk: Disk, view: Disk, refs: seq<nat>, held: set<nat>, pinned: seq<nat>)
    requires Settled(start, disk, view, refs, held, pinned) && GoodHeader(start, |disk|, pinned)
    ensures forall c :: c in InUse(pinned, held) ==> c < |refs|
    ensures forall c :: 0 <= c < |refs| ==> (refs[c] > 0 <==> c in InUse(pinned, held))
  {
    hide Elements; hide InLog;
    forall c | c in pinned ensures c < |refs| {
      var i :| 0 <= i < |pinned| && pinned[i] == c;
    }
    forall c | 0 <= c < |refs| ensures refs[c] > 0 <==> c in InUse(pinned, held) {
      assert Counted(refs[c], c in pinned, c in held);
    }
  }

  lemma NothingReferenced(start: nat, disk: Disk, view: Disk, refs: seq<nat>)
    requires Settled(start, disk, view, refs, {}, [])
    ensures forall b :: 0 <= b < |refs| ==> refs[b] == 0
  {
    forall b | 0 <= b < |refs| ensures refs[b] == 0 {
      assert Counted(refs[b], b in [], b in {});
    }
  }

  lemma SettledStore(start: nat, disk: Disk, view: Disk, refs: seq<nat>, held: set<nat>, lh: seq<nat>,
                     b: nat, data: Block, refs': seq<nat>)
    requires Settled(start, disk, view, refs, held, lh) && b < |disk| && !InLog(start, b) && b !in held
    requires refs' == if b in lh then refs else refs[b := refs[b] + 1]
    ensures Settled(start, disk, view[b := data], refs', held, if b in lh then lh else lh + [b])
  {
    hide InLog;
    var lh' := if b in lh then lh else lh + [b];
    forall c | 0 <= c < |refs'| ensures Counted(refs'[c], c in lh', c in held) {
      assert Counted(refs[c], c in lh, c in held);
    }
  }

  lemma SettledWrite(start: nat, disk: Disk, view: Disk, refs: seq<nat>, held: set<nat>, pinned: seq<nat>, b: nat, data: Block)
    requires Settled(start, disk, view, refs, held, pinned) && b < |disk|
    ensures Settled(start, disk[b := data], view[b := data], refs, held, pinned)
  {
    hide InLog; hide Counted;
  }

  lemma SettledUnpin(start: nat, disk: Disk, view: Disk, refs: seq<nat>, held: set<nat>, pinned: seq<nat>)
    requires Settled(start, disk, view, refs, held, pinned) && pinned != [] && Distinct(pinned) && pinned[0] < |refs| && pinned[0] !in held
    ensures Settled(start, disk, view, refs[pinned[0] := 0], held, pinned[1..])
  {
    hide InLog;
    assert pinned == [pinned[0]] + pinned[1..];
    forall c | 0 <= c < |refs| ensures Counted(refs[pinned[0] := 0][c], c in pinned[1..], c in held) {
      assert Counted(refs[c], c in pinned, c in held);
    }
  }

  // The block writes of write_log and of install_trans.
  ghost function SlotWrites(start: nat, lh: seq<nat>, view: Disk): (r: seq<Write>)
    requires forall i :: 0 <= i < |lh| ==> lh[i] < |view|
    ensures |r| == |lh|
  {
    seq(|lh|, k requires 0 <= k < |lh| => Write(start + 1 + k, view[lh[k]]))
  }

  ghost function HomeWrites(start: nat, lh: seq<nat>, view: Disk): (r: seq<Write>)
    requires start + |lh| < |view|
    ensures |r| == |lh|
  {
    seq(|lh|, k requires 0 <= k < |lh| => Write(lh[k], view[start + 1 + k]))
  }

  // The effect of logging the first k blocks of lh on what readers see.
  ghost predicate Logged(start: nat, lh: seq<nat>, before: Disk, after: Disk, k: nat) {
    && k <= |lh| && start + |lh| < |after| == |before|
    && (forall b :: 0 <= b < |after| && !(start < b <= start + k) ==> after[b] == before[b])
    && (forall j :: 0 <= j < k ==> lh[j] < |before| && after[start + 1 + j] == before[lh[j]])
  }

  lemma LoggedNone(start: nat, lh: seq<nat>, before: Disk)
    requires start + |lh| < |before|
    ensures Logged(start, lh, before, before, 0)
  {
  }

  lemma LoggedStep(start: nat, lh: seq<nat>, before: Disk, after: Disk, k: nat)
    requires GoodHeader(start, |before|, lh) && Logged(start, lh, before, after, k) && k < |lh|
    ensures lh[k] < |before| && after[lh[k]] == before[lh[k]]
    ensures Logged(start, lh, before, after[start + 1 + k := before[lh[k]]], k + 1)
  {
  }

  // The effect of installing the first k blocks of lh on what readers see.
  ghost predicate Installed(start: nat, lh: seq<nat>, before: Disk, after: Disk, k: nat) {
    && k <= |lh| && start + |lh| < |after| == |before|
    && (forall b :: 0 <= b < |after| && b !in lh ==> after[b] == before[b])
    && (forall j :: 0 <= j < k ==> lh[j] < |after| && after[lh[j]] == before[start + 1 + j])
  }

  lemma InstalledNone(start: nat, lh: seq<nat>, before: Disk)
    requires start + |lh| < |before|
    ensures Installed(start, lh, before, before, 0)
  {
  }

  lemma InstalledKeepsHead(start: nat, lh: seq<nat>, before: Disk, after: Disk, k: nat)
    requires GoodHeader(start, |before|, lh) && Installed(start, lh, before, after, k)
    ensures after[start] == before[start]
  {
  }

  lemma InstalledStep(start: nat, lh: seq<nat>, before: Disk, after: Disk, k: nat)
    requires GoodHeader(start, |before|, lh) && Installed(start, lh, before, after, k) && k < |lh|
    ensures after[start + 1 + k] == before[start + 1 + k]
    ensures Installed(start, lh, before, after[lh[k] := before[start + 1 + k]], k + 1)
  {
  }

  // Together the four parts of commit() perform the writes that RedoLog reasons about.
  lemma CommitPieces(start: nat, lh: seq<nat>, view0: Disk, view1: Disk, view2: Disk, view3: Disk)
    requires GoodHeader(start, |view0|, lh) && lh != [] && start + LOGBLOCKS < |view0|
    requires Logged(start, lh, view0, view1, |lh|)
    requires view2 == view1[start := HeaderBlock(view1[start], lh)]
    requires Installed(start, lh, view2, view3, |lh|)
    ensures SlotWrites(start, lh, view0) + [Write(start, HeaderBlock(view1[start], lh))]
            + HomeWrites(start, lh, view2) + [Write(start, HeaderBlock(view3[start], []))]
            == CommitWrites(start, lh, view0)
    ensures SameHome(start, view0, view3)
  {
    hide Header; hide Word; hide HeaderBlock; hide SameHome;
    CommitWritesAre(start, lh, view0, view1, view2, view3);
    CommitKeepsHome(start, lh, view0, view1, view2, view3);
  }

  lemma CommitWritesAre(start: nat, lh: seq<nat>, view0: Disk, view1: Disk, view2: Disk, view3: Disk)
    requires GoodHeader(start, |view0|, lh) && lh != [] && start + LOGBLOCKS < |view0|
    requires Logged(start, lh, view0, view1, |lh|)
    requires view2 == view1[start := HeaderBlock(view1[start], lh)]
    requires Installed(start, lh, view2, view3, |lh|)
    ensures SlotWrites(start, lh, view0) + [Write(start, HeaderBlock(view1[start], lh))]
            + HomeWrites(start, lh, view2) + [Write(start, HeaderBlock(view3[start], []))]
            == CommitWrites(start, lh, view0)
  {
    hide Header; hide Word; hide PutWords; hide HeaderBlock;
    var ws := SlotWrites(start, lh, view0) + [Write(start, HeaderBlock(view1[start], lh))]
              + HomeWrites(start, lh, view2) + [Write(start, HeaderBlock(view3[start], []))];
    var cs := CommitWrites(start, lh, view0);
    forall j | 0 <= j < |cs|
      ensures ws[j] == cs[j]
    {
      assert ws[j].blockno == CommitTarget(start, lh, j) && ws[j].data == CommitData(start, lh, view0, j);
    }
  }

  lemma CommitKeepsHome(start: nat, lh: seq<nat>, view0: Disk, view1: Disk, view2: Disk, view3: Disk)
    requires GoodHeader(start, |view0|, lh) && start + LOGBLOCKS < |view0|
    requires Logged(start, lh, view0, view1, |lh|)
    requires view2 == view1[start := HeaderBlock(view1[start], lh)]
    requires Installed(start, lh, view2, view3, |lh|)
    ensures SameHome(start, view0, view3)
  {
    hide Header; hide Word; hide HeaderBlock;
    forall b | 0 <= b < |view0| && !InLog(start, b)
      ensures view0[b] == view3[b]
    {
      if b in lh {
        var i :| 0 <= i < |lh| && lh[i] == b;
      }
    }
  }

  lemma Appended(ws: seq<Write>, a: seq<Write>, b: Write, c: seq<Write>, d: Write)
    ensures ws + a + [b] + c + [d] == ws + (a + [b] + c + [d])
  {
  }

  lemma MoreWrites(before: seq<Write>, ws: seq<Write>, k: nat)
    requires k < |ws|
    ensures before + ws[..k] + [ws[k]] == before + ws[..k + 1]
  {
  }

  lemma RecoveryPieces(start: nat, disk: Disk)
    requires GoodDisk(start, disk)
    ensures HomeWrites(start, Header(disk[start]), disk) + [Write(start, HeaderBlock(disk[start], []))]
            == RecoveryWrites(start, disk)
  {
  }

  class Log {
    const start: nat
    const cache: Bcache
    var n: nat
    const block: array<nat>  // lh.block; only the first n entries count
    var outstanding: nat

    constructor (start: nat, cache: Bcache)
      ensures this.start == start && this.cache == cache && n == 0 && outstanding == 0
      ensures fresh(block) && block.Length == LOGBLOCKS
    {
      this.start, this.cache := start, cache;
      block := new nat[LOGBLOCKS];
      n, outstanding := 0, 0;
    }

    ghost function Lh(): seq<nat>
      reads this, block
    {
      if n <= block.Length then block[..n] else []
    }

    ghost predicate Quiet(pinned: seq<nat>)
      reads this, block, cache, cache.buf
    {
      && cache.Valid() && block.Length == LOGBLOCKS && n <= LOGBLOCKS
      && Settled(start, cache.disk, cache.view, cache.refs, cache.held, pinned)
    }

    /**
      Between operations: the on-disk log is empty, exactly the logged blocks are
      pinned, and only they differ between cache and disk.  Other processes may hold
      buffers.
     */
    ghost predicate Valid()
      reads this, block, cache, cache.buf
    {
      && block.Length == LOGBLOCKS && n <= LOGBLOCKS
      && Quiet(Lh()) && Transaction(start, cache.disk, Lh(), cache.view)
    }

    // The absorption scan of log_write.
    method Find(b: nat) returns (i: nat)
      requires block.Length == LOGBLOCKS && n <= LOGBLOCKS
      ensures i <= n && (i == n <==> b !in Lh()) && (i < n ==> block[i] == b)
    {
      i := 0;
      while i < n && block[i] != b
        invariant 0 <= i <= n && forall j :: 0 <= j < i ==> block[j] != b
      {
        i := i + 1;
      }
    }

    /**
      log_write on a buffer the caller holds: record the block and pin it, or
      absorb the write if the block is already in the log.
     */
    method LogWrite(i: nat, b: nat) returns (o: Outcome)
      requires cache.Valid() && cache.Got(i, b) && block.Length == LOGBLOCKS && n <= LOGBLOCKS
      modifies this`n, block, cache`refs, cache`held, cache`view, cache.buf
      ensures cache.Valid() && cache.Got(i, b) && n <= LOGBLOCKS && cache.view == old(cache.view) && cache.held == old(cache.held)
      ensures o == if old(n) >= LOGBLOCKS then TooBig else if outstanding < 1 then OutsideTransaction else Ok
      ensures o != Ok ==> Lh() == old(Lh()) && cache.refs == old(cache.refs)
      ensures o == Ok && b in old(Lh()) ==> Lh() == old(Lh()) && cache.refs == old(cache.refs)
      ensures o == Ok && b !in old(Lh()) ==>
        Lh() == old(Lh()) + [b] && cache.refs == old(cache.refs)[b := old(cache.refs)[b] + 1]
    {
      hide Agree; hide Links;
      if n >= LOGBLOCKS {
        return TooBig;
      }
      if outstanding < 1 {
        return OutsideTransaction;
      }
      var k := Find(b);
      block[k] := b;
      if k == n {
        cache.Bpin(i, b);
        n := n + 1;
      }
      o := Ok;
    }

    /**
      The idiom of every file system update: bread, change the data, log_write,
      brelse.  It succeeds exactly when the log has a free slot, there is a buffer for
      the block and an operation is under way; then a reader sees the new data, and the
      disk is untouched.  The caller waits for a buffer that somebody else holds.
     */
    method Store(b: nat, data: Block) returns (o: Outcome)
      requires Valid() && b < |cache.disk| && b < UINT && !InLog(start, b) && b !in cache.held
      modifies this`n, block, cache`refs, cache`held, cache`view, cache`slot, cache`order, cache.buf
      ensures o == NoBuffers <==> old(b !in Lh() && |InUse(Lh(), cache.held)| >= NBUF)
      ensures o == TooBig <==> old(n) == LOGBLOCKS && b in old(Lh())
      ensures o == Ok <==> old(n) < LOGBLOCKS && outstanding >= 1 && old(b in Lh() || |InUse(Lh(), cache.held)| < NBUF)
      ensures o == Ok ==> Valid() && cache.view == old(cache.view)[b := data] && cache.held == old(cache.held)
      ensures o == Ok ==> Lh() == if b in old(Lh()) then old(Lh()) else old(Lh()) + [b]
    {
      hide Bcache.Valid; hide Bcache.Full; hide Bcache.OthersKept; hide Transaction; hide Settled; hide Bcache.Got; hide InUse;
      ghost var lh, disk, view, refs := Lh(), cache.disk, cache.view, cache.refs;
      ghost var refs' := BeforeStore(lh, b, data);
      var i := cache.Bread(b);
      if i == -1 {
        return NoBuffers;
      }
      o := Change(i, b, data);
      if o == Ok {
        assert cache.refs == refs';
        assert cache.held == old(cache.held);
      }
    }

    // Change the data of a held buffer, log_write it and release it.
    method Change(i: nat, b: nat, data: Block) returns (o: Outcome)
      requires cache.Valid() && cache.Got(i, b) && block.Length == LOGBLOCKS && n <= LOGBLOCKS
      requires b < |cache.refs| == |cache.view| && cache.refs[b] == if b in Lh() then 2 else 1
      modifies this`n, block, cache`refs, cache`held, cache`view, cache`order, cache.buf
      ensures o == if old(n) >= LOGBLOCKS then TooBig else if outstanding < 1 then OutsideTransaction else Ok
      ensures o == Ok ==> cache.Valid() && cache.view == old(cache.view)[b := data] && cache.held == old(cache.held) - {b} && n <= LOGBLOCKS
      ensures o == Ok ==> cache.refs == old(cache.refs)[b := 1]
      ensures o == Ok ==> Lh() == if b in old(Lh()) then old(Lh()) else old(Lh()) + [b]
    {
      hide Bcache.Valid; hide Bcache.OthersKept; hide Bcache.Got;
      cache.Modify(i, b, data);
      o := LogWrite(i, b);
      if o == Ok {
        cache.Brelse(i, b);
      }
    }

    lemma BeforeStore(lh: seq<nat>, b: nat, data: Block) returns (refs': seq<nat>)
      requires Valid() && lh == Lh() && b < |cache.disk| && b < UINT && !InLog(start, b) && b !in cache.held
      ensures |cache.refs| == |cache.view| == |cache.disk| && |lh| == n
      ensures cache.refs[b] == if b in lh then 1 else 0
      ensures refs' == if b in lh then cache.refs else cache.refs[b := cache.refs[b] + 1]
      ensures b !in cache.slot && cache.Full() <==> b !in lh && |InUse(lh, cache.held)| >= NBUF
      ensures n == LOGBLOCKS ==> |InUse(lh, cache.held)| >= NBUF
      ensures n < LOGBLOCKS ==> Settled(start, cache.disk, cache.view[b := data], refs', cache.held, if b in lh then lh else lh + [b])
      ensures n < LOGBLOCKS ==> Transaction(start, cache.disk, if b in lh then lh else lh + [b], cache.view[b := data])
    {
      hide Bcache.Valid; hide Bcache.Full; hide Transaction; hide Settled; hide InUse; hide InLog; hide Distinct;
      TransactionShape(start, cache.disk, lh, cache.view);
      SettledAt(start, cache.disk, cache.view, cache.refs, cache.held, lh, b);
      SettledUse(start, cache.disk, cache.view, cache.refs, cache.held, lh);
      cache.ReferencedFull(InUse(lh, cache.held), b);
      InUseMost(lh, cache.held, b);
      refs' := if b in lh then cache.refs else cache.refs[b := cache.refs[b] + 1];
      if n < LOGBLOCKS {
        TransactionExtends(start, cache.disk, lh, cache.view, b, data);
        SettledStore(start, cache.disk, cache.view, cache.refs, cache.held, lh, b, data, refs');
      }
    }

    // ---------------------------------------------------------------- commit and recovery

    // What holds before copying between slot `tail` and its home block.
    lemma BeforeCopy(lh: seq<nat>, pinned: seq<nat>, tail: nat)
      requires Quiet(pinned) && GoodHeader(start, |cache.disk|, lh) && GoodHeader(start, |cache.disk|, pinned) && tail < |lh|
      requires lh[tail] !in cache.held && Unlocked(pinned, cache.held)
      ensures var slot, home := start + 1 + tail, lh[tail];
        && |cache.refs| == |cache.view| == |cache.disk| && slot < |cache.disk| && home < |cache.disk| && slot != home
        && slot !in cache.held && cache.refs[slot] == 0 && cache.refs[home] == (if home in pinned then 1 else 0)
        && (home in pinned ==> home in cache.slot)
        && (slot !in cache.slot && cache.Full() <==> |pinned| + |cache.held| >= NBUF)
    {
      hide Bcache.Valid; hide Bcache.Full; hide Elements; hide Unlocked;
      var slot, home := start + 1 + tail, lh[tail];
      NoLogBlock(pinned, slot);
      NoLogBlock(pinned, home);
      SettledUse(start, cache.disk, cache.view, cache.refs, cache.held, pinned);
      InUseSize(pinned, cache.held);
      cache.ReferencedFull(InUse(pinned, cache.held), slot);
      if home in pinned {
        cache.ReferencedIsCached(home);
      }
    }

    // A block of the log area is neither pinned nor held, and how often another one is referenced.
    lemma NoLogBlock(pinned: seq<nat>, b: nat)
      requires Quiet(pinned) && GoodHeader(start, |cache.disk|, pinned) && b < |cache.disk|
      ensures Counted(cache.refs[b], b in pinned, b in cache.held)
      ensures InLog(start, b) ==> b !in pinned && b !in cache.held && cache.refs[b] == 0
    {
      hide Bcache.Valid; hide Distinct;
    }

    // Copy the data of one held buffer over that of another, and write that one to the disk.
    method CopyAndWrite(dst: nat, ghost d: nat, src: nat, ghost s: nat)
      requires cache.Valid() && cache.Got(dst, d) && cache.Got(src, s) && d != s
      modifies cache`refs, cache`held, cache`view, cache`disk, cache`writes, cache.buf
      ensures cache.Valid() && cache.Got(dst, d) && cache.Got(src, s)
      ensures d < |old(cache.view)| == |old(cache.disk)| && s < |old(cache.view)| && cache.view == old(cache.view)[d := old(cache.view)[s]]
      ensures cache.disk == old(cache.disk)[d := old(cache.view)[s]] && cache.refs == old(cache.refs) && cache.held == old(cache.held)
      ensures cache.writes == old(cache.writes) + [Write(d, old(cache.view)[s])]
    {
      hide Bcache.Valid; hide Bcache.Got;
      cache.GotApart(dst, d, src, s);
      cache.GotData(src, s);
      cache.GotData(dst, d);
      cache.Modify(dst, d, cache.buf[src].data);
      cache.Bwrite(dst, d);
    }

    // Release two held buffers.
    method ReleaseBoth(i: nat, ghost b: nat, j: nat, ghost c: nat)
      requires cache.Valid() && cache.Got(i, b) && cache.Got(j, c) && b != c
      requires b < |cache.refs| && c < |cache.refs| && |cache.refs| == |cache.view| == |cache.disk|
      requires (cache.refs[b] > 1 || cache.view[b] == cache.disk[b]) && (cache.refs[c] > 1 || cache.view[c] == cache.disk[c])
      requires cache.refs[b] > 0 && cache.refs[c] > 0
      modifies cache`refs, cache`held, cache`view, cache`order, cache.buf
      ensures cache.Valid() && cache.view == old(cache.view) && cache.held == old(cache.held) - {b, c}
      ensures cache.refs == old(cache.refs)[b := old(cache.refs)[b] - 1][c := old(cache.refs)[c] - 1]
    {
      hide Bcache.Valid; hide Bcache.Got;
      cache.GotApart(i, b, j, c);
      cache.Brelse(i, b);
      cache.Brelse(j, c);
    }

    // One turn of the loop of write_log: copy a home block from the cache to its slot.
    // It panics exactly when every buffer is pinned or held.
    method LogBlock(tail: nat) returns (ok: bool)
      requires Quiet(Lh()) && GoodHeader(start, |cache.disk|, Lh()) && tail < n && Unlocked(Lh(), cache.held)
      modifies cache`refs, cache`held, cache`view, cache`slot, cache`order, cache`disk, cache`writes, cache.buf
      ensures ok <==> n + |old(cache.held)| < NBUF
      ensures !ok ==> cache.writes == old(cache.writes) && cache.disk == old(cache.disk)
      ensures ok ==> Quiet(Lh()) && |cache.disk| == |old(cache.disk)| && cache.held == old(cache.held)
      ensures block[tail] < |old(cache.view)| && start + 1 + tail < |old(cache.view)|
      ensures ok ==> cache.view == old(cache.view)[start + 1 + tail := old(cache.view)[block[tail]]]
      ensures ok ==> cache.writes == old(cache.writes) + [Write(start + 1 + tail, old(cache.view)[block[tail]])]
    {
      hide Bcache.Valid; hide Bcache.Full; hide Bcache.Got; hide Settled; hide GoodHeader;
      var slot, home := start + 1 + tail, block[tail];
      assert Lh()[tail] == home;
      BeforeCopy(Lh(), Lh(), tail);
      SettledWrite(start, cache.disk, cache.view, cache.refs, cache.held, Lh(), slot, cache.view[home]);
      var to := cache.Bread(slot);
      if to == -1 {
        return false;
      }
      cache.ReferencedIsCached(home);
      var from := cache.Bread(home);
      CopyAndWrite(to, slot, from, home);
      ReleaseBoth(from, home, to, slot);
      assert cache.refs == old(cache.refs) && cache.held == old(cache.held);
      ok := true;
    }

    /** write_log: copy every logged block from the cache to its slot in the log. */
    method WriteLog() returns (ok: bool)
      requires Quiet(Lh()) && GoodHeader(start, |cache.disk|, Lh()) && start < |cache.view| && Unlocked(Lh(), cache.held)
      modifies cache`refs, cache`held, cache`view, cache`slot, cache`order, cache`disk, cache`writes, cache.buf
      ensures ok <==> n == 0 || n + |old(cache.held)| < NBUF
      ensures !ok ==> cache.writes == old(cache.writes)
      ensures ok ==> Quiet(Lh()) && cache.held == old(cache.held) && |cache.disk| == |old(cache.disk)| && |cache.view| == |old(cache.view)|
      ensures ok ==> Logged(start, Lh(), old(cache.view), cache.view, n)
      ensures ok ==> cache.writes == old(cache.writes) + SlotWrites(start, Lh(), old(cache.view))
    {
      hide Bcache.Valid; hide Settled; hide Distinct; hide Logged;
      QuietSizes(Lh());
      ghost var lh, view, before := Lh(), cache.view, cache.writes;
      ghost var ws := SlotWrites(start, lh, view);
      LoggedNone(start, lh, view);
      var tail := 0;
      while tail < n
        invariant tail <= n && (tail > 0 ==> n + |old(cache.held)| < NBUF) && cache.held == old(cache.held)
        invariant Quiet(lh) && Lh() == lh && |cache.disk| == |old(cache.disk)| == |cache.view|
        invariant Logged(start, lh, view, cache.view, tail)
        invariant cache.writes == before + ws[..tail]
      {
        LoggedStep(start, lh, view, cache.view, tail);
        ok := LogBlock(tail);
        if !ok {
          return;
        }
        MoreWrites(before, ws, tail);
        tail := tail + 1;
      }
      assert ws[..n] == ws;
      ok := true;
    }

    lemma QuietSizes(pinned: seq<nat>)
      requires Quiet(pinned)
      ensures start + LOGBLOCKS < |cache.view| == |cache.disk|
    {
    }

    /** write_head: the count and the block numbers, in one block write. */
    method WriteHead(ghost pinned: seq<nat>)
      requires Quiet(pinned) && GoodHeader(start, |cache.disk|, Lh())
      requires GoodHeader(start, |cache.disk|, pinned) && |pinned| + |cache.held| < NBUF && Unlocked(pinned, cache.held)
      modifies cache`refs, cache`held, cache`view, cache`slot, cache`order, cache`disk, cache`writes, cache.buf
      ensures Quiet(pinned) && |cache.disk| == |old(cache.disk)| && start < |old(cache.view)| && cache.held == old(cache.held)
      ensures cache.view == old(cache.view)[start := HeaderBlock(old(cache.view)[start], Lh())]
      ensures cache.writes == old(cache.writes) + [Write(start, HeaderBlock(old(cache.view)[start], Lh()))]
    {
      hide Bcache.Valid; hide Bcache.Full; hide Bcache.Got; hide Settled; hide Header; hide HeaderBlock; hide Word; hide Distinct;
      BeforeHead(pinned);
      SettledWrite(start, cache.disk, cache.view, cache.refs, cache.held, pinned, start, HeaderBlock(cache.view[start], Lh()));
      var i := cache.Bread(start);
      var data := PutHeader(cache.buf[i].data);
      cache.Modify(i, start, data);
      cache.Bwrite(i, start);
      cache.Brelse(i, start);
      assert cache.refs == old(cache.refs) && cache.held == old(cache.held);
    }

    lemma BeforeHead(pinned: seq<nat>)
      requires Quiet(pinned) && GoodHeader(start, |cache.disk|, pinned) && |pinned| + |cache.held| < NBUF && Unlocked(pinned, cache.held)
      ensures start < |cache.refs| == |cache.view| == |cache.disk| && start !in cache.held && cache.refs[start] == 0
      ensures start in cache.slot || !cache.Full()
    {
      hide Bcache.Valid; hide Bcache.Full; hide Elements; hide Unlocked;
      NoLogBlock(pinned, start);
      SettledUse(start, cache.disk, cache.view, cache.refs, cache.held, pinned);
      InUseSize(pinned, cache.held);
      cache.ReferencedFull(InUse(pinned, cache.held), start);
    }

    // The count and the block numbers go from memory to the header block.
    method PutHeader(stale: Block) returns (data: Block)
      requires n <= block.Length == LOGBLOCKS && forall i :: 0 <= i < n ==> block[i] < UINT
      ensures data == HeaderBlock(stale, Lh())
    {
      hide Word; hide SetWord; hide Header;
      data := SetWord(stale, 0, n);
      var i := 0;
      while i < n
        invariant 0 <= i <= n && data == PutWords(SetWord(stale, 0, n), 1, Lh()[..i])
      {
        data := SetWord(data, 1 + i, block[i]);
        assert Lh()[..i + 1][..i] == Lh()[..i];
        i := i + 1;
      }
      assert Lh()[..n] == Lh();
    }

    // The blocks still pinned when install_trans has done `tail` blocks.
    ghost function StillPinned(tail: nat, recovering: bool): seq<nat>
      reads this, block
    {
      if recovering || tail > |Lh()| then [] else Lh()[tail..]
    }

    lemma BeforeInstall(tail: nat, recovering: bool)
      requires Quiet(StillPinned(tail, recovering)) && GoodHeader(start, |cache.disk|, Lh()) && tail < n
      requires if recovering then cache.held == {} else n + |cache.held| < NBUF && Unlocked(Lh(), cache.held)
      ensures var slot, home := start + 1 + tail, block[tail];
        && |cache.refs| == |cache.view| == |cache.disk| && slot < |cache.disk| && home < |cache.disk| && slot != home
        && slot !in cache.held && home !in cache.held && cache.refs[slot] == 0 && cache.refs[home] == (if recovering then 0 else 1)
        && (slot in cache.slot || !cache.Full()) && cache.view[slot] == cache.disk[slot]
        && (!recovering ==> home in cache.slot)
        && (recovering ==> forall c :: 0 <= c < |cache.refs| ==> cache.refs[c] == 0)
        && var disk, view := cache.disk[home := cache.view[slot]], cache.view[home := cache.view[slot]];
          Settled(start, disk, view, cache.refs[home := 0], cache.held, StillPinned(tail + 1, recovering))
    {
      hide Bcache.Valid; hide Bcache.Full; hide Settled; hide InLog; hide Distinct;
      QuietSizes(StillPinned(tail, recovering));
      SettledAt(start, cache.disk, cache.view, cache.refs, cache.held, StillPinned(tail, recovering), start + 1 + tail);
      PinnedRest(tail, recovering);
      var pinned, home, data := StillPinned(tail, recovering), block[tail], cache.view[start + 1 + tail];
      BeforeCopy(Lh(), pinned, tail);
      SettledWrite(start, cache.disk, cache.view, cache.refs, cache.held, pinned, home, data);
      if recovering {
        NothingReferenced(start, cache.disk, cache.view, cache.refs);
        assert cache.refs[home := 0] == cache.refs;
      } else {
        assert pinned[1..] == StillPinned(tail + 1, false);
        SettledUnpin(start, cache.disk[home := data], cache.view[home := data], cache.refs, cache.held, pinned);
      }
    }

    lemma PinnedRest(tail: nat, recovering: bool)
      requires GoodHeader(start, |cache.disk|, Lh()) && tail < n <= block.Length
      requires recovering || Unlocked(Lh(), cache.held)
      ensures GoodHeader(start, |cache.disk|, StillPinned(tail, recovering)) && InLog(start, start + 1 + tail)
      ensures Lh()[tail] == block[tail] && (recovering || block[tail] !in cache.held) && Unlocked(StillPinned(tail, recovering), cache.held)
      ensures !recovering ==> |StillPinned(tail, recovering)| == n - tail && block[tail] in StillPinned(tail, recovering) && StillPinned(tail, recovering)[0] == block[tail]
    {
    }

    // Recovery starts with no block referenced: there is room for the second block.
    lemma SecondRead(slot: nat, home: nat)
      requires cache.Valid() && slot < |cache.refs| && home < |cache.refs| && slot != home
      requires forall c :: 0 <= c < |cache.refs| ==> (cache.refs[c] > 0 <==> c == slot)
      ensures home in cache.slot || !cache.Full()
    {
      hide Bcache.Valid; hide Bcache.Full;
      cache.PinnedFull([slot], home);
    }

    // bread the log block, then bread its home block.
    method ReadPair(tail: nat, recovering: bool) returns (lbuf: nat, dbuf: nat)
      requires Quiet(StillPinned(tail, recovering)) && GoodHeader(start, |cache.disk|, Lh()) && tail < n
      requires if recovering then cache.held == {} else n + |cache.held| < NBUF && Unlocked(Lh(), cache.held)
      modifies cache`refs, cache`held, cache`view, cache`slot, cache.buf
      ensures var slot, home := start + 1 + tail, block[tail];
        && cache.Valid() && lbuf < cache.buf.Length && cache.Got(lbuf, slot) && cache.Got(dbuf, home) && lbuf != dbuf
        && cache.view == old(cache.view) && cache.held == old(cache.held) + {slot, home}
        && slot < |old(cache.refs)| == |cache.view| && home < |old(cache.refs)|
        && cache.refs == old(cache.refs)[slot := 1][home := old(cache.refs)[home] + 1]
        && cache.buf[lbuf].data == cache.view[slot]
    {
      hide Bcache.Valid; hide Bcache.Full; hide Bcache.Got; hide Settled; hide GoodHeader; hide Unlocked;
      var slot, home := start + 1 + tail, block[tail];
      BeforeInstall(tail, recovering);
      lbuf, dbuf := ReadTwo(slot, home);
    }

    // bread two blocks; the second one is referenced already, or nothing was.
    method ReadTwo(b: nat, c: nat) returns (i: nat, j: nat)
      requires cache.Valid() && b != c && b < |cache.refs| && c < |cache.refs| && |cache.refs| == |cache.disk| && b !in cache.held && c !in cache.held
      requires b in cache.slot || !cache.Full()
      requires cache.refs[b] == 0 && (cache.refs[c] > 0 || forall x :: 0 <= x < |cache.refs| ==> cache.refs[x] == 0)
      modifies cache`refs, cache`held, cache`view, cache`slot, cache.buf
      ensures cache.Valid() && i < cache.buf.Length && cache.Got(i, b) && cache.Got(j, c) && i != j
      ensures cache.view == old(cache.view) && cache.held == old(cache.held) + {b, c}
      ensures cache.refs == old(cache.refs)[b := 1][c := old(cache.refs)[c] + 1]
      ensures b < |cache.view| && cache.buf[i].data == cache.view[b]
    {
      hide Bcache.Valid; hide Bcache.Full; hide Bcache.Got;
      i := cache.Bread(b);
      if cache.refs[c] == 0 { SecondRead(b, c); } else { cache.ReferencedIsCached(c); }
      j := cache.Bread(c);
      cache.GotApart(i, b, j, c);
      cache.GotData(i, b);
    }

    // Unpin the home block after a commit, and release both buffers.
    method ReleaseInstalled(lbuf: nat, ghost slot: nat, dbuf: nat, ghost home: nat, recovering: bool)
      requires cache.Valid() && cache.Got(lbuf, slot) && cache.Got(dbuf, home) && slot != home
      requires slot < |cache.refs| && home < |cache.refs| && |cache.refs| == |cache.view| == |cache.disk|
      requires cache.view[slot] == cache.disk[slot] && cache.view[home] == cache.disk[home]
      requires cache.refs[slot] == 1 && cache.refs[home] == (if recovering then 1 else 2)
      modifies cache`refs, cache`held, cache`view, cache`order, cache.buf
      ensures cache.Valid() && cache.view == old(cache.view) && cache.held == old(cache.held) - {slot, home}
      ensures cache.refs == old(cache.refs)[slot := 0][home := 0]
    {
      hide Bcache.Valid; hide Bcache.Got;
      cache.GotApart(lbuf, slot, dbuf, home);
      if !recovering {
        cache.Bunpin(dbuf, home);
      }
      ReleaseBoth(lbuf, slot, dbuf, home);
    }

    // One turn of the loop of install_trans: copy a slot to its home block.
    method InstallBlock(tail: nat, recovering: bool)
      requires Quiet(StillPinned(tail, recovering)) && GoodHeader(start, |cache.disk|, Lh()) && tail < n
      requires if recovering then cache.held == {} else n + |cache.held| < NBUF && Unlocked(Lh(), cache.held)
      modifies cache`refs, cache`held, cache`view, cache`slot, cache`order, cache`disk, cache`writes, cache.buf
      ensures Quiet(StillPinned(tail + 1, recovering)) && |cache.disk| == |old(cache.disk)| && cache.held == old(cache.held)
      ensures block[tail] < |old(cache.view)| && start + 1 + tail < |old(cache.view)|
      ensures cache.view == old(cache.view)[block[tail] := old(cache.view)[start + 1 + tail]]
      ensures cache.writes == old(cache.writes) + [Write(block[tail], old(cache.view)[start + 1 + tail])]
    {
      hide Bcache.Valid; hide Bcache.Full; hide Bcache.Got; hide Settled; hide GoodHeader;
      var slot, home := start + 1 + tail, block[tail];
      BeforeInstall(tail, recovering);
      var lbuf, dbuf := ReadPair(tail, recovering);
      CopyAndWrite(dbuf, home, lbuf, slot);
      ReleaseInstalled(lbuf, slot, dbuf, home, recovering);
      assert cache.refs == old(cache.refs)[home := 0] && cache.held == old(cache.held);
    }

    /** install_trans: copy every slot to its home block, unpinning it after a commit. */
    method InstallTrans(recovering: bool)
      requires Quiet(StillPinned(0, recovering)) && GoodHeader(start, |cache.disk|, Lh())
      requires if recovering then cache.held == {} else n + |cache.held| < NBUF && Unlocked(Lh(), cache.held)
      modifies cache`refs, cache`held, cache`view, cache`slot, cache`order, cache`disk, cache`writes, cache.buf
      ensures Quiet([]) && start + LOGBLOCKS < |cache.disk| == |old(cache.disk)| == |cache.view| == |old(cache.view)| && cache.held == old(cache.held)
      ensures Installed(start, Lh(), old(cache.view), cache.view, n)
      ensures cache.writes == old(cache.writes) + HomeWrites(start, Lh(), old(cache.view))
    {
      hide Bcache.Valid; hide Settled; hide GoodHeader; hide Installed; hide Unlocked;
      QuietSizes(StillPinned(0, recovering));
      ghost var lh, view, before := Lh(), cache.view, cache.writes;
      ghost var ws := HomeWrites(start, lh, view);
      InstalledNone(start, lh, view);
      var tail := 0;
      while tail < n
        invariant tail <= n && Quiet(StillPinned(tail, recovering)) && Lh() == lh && cache.held == old(cache.held)
        invariant |cache.disk| == |old(cache.disk)| == |cache.view|
        invariant Installed(start, lh, view, cache.view, tail)
        invariant cache.writes == before + ws[..tail]
      {
        InstalledStep(start, lh, view, cache.view, tail);
        InstallBlock(tail, recovering);
        MoreWrites(before, ws, tail);
        tail := tail + 1;
      }
      assert ws[..n] == ws && StillPinned(n, recovering) == [];
    }

    // A cache in which nothing is pinned agrees with the disk everywhere.
    lemma QuietClean()
      requires Quiet([])
      ensures cache.view == cache.disk
    {
      forall b | 0 <= b < |cache.disk| ensures cache.view[b] == cache.disk[b] {
        assert Counted(cache.refs[b], b in [], b in cache.held);
      }
    }

    // The first half of commit: fill the slots, then write the header, which is the commit point.
    method WriteLogAndHead() returns (ok: bool, ghost view1: Disk)
      requires Quiet(Lh()) && GoodHeader(start, |cache.disk|, Lh()) && start < |cache.view| && n > 0 && Unlocked(Lh(), cache.held)
      modifies cache`refs, cache`held, cache`view, cache`slot, cache`order, cache`disk, cache`writes, cache.buf
      ensures ok <==> n + |old(cache.held)| < NBUF
      ensures !ok ==> cache.writes == old(cache.writes)
      ensures ok ==> Quiet(Lh()) && cache.held == old(cache.held) && |cache.disk| == |old(cache.disk)| && start < |view1| == |old(cache.view)|
      ensures ok ==> Logged(start, Lh(), old(cache.view), view1, n) && cache.view == view1[start := HeaderBlock(view1[start], Lh())]
      ensures ok ==> cache.writes == old(cache.writes) + SlotWrites(start, Lh(), old(cache.view)) + [Write(start, HeaderBlock(view1[start], Lh()))]
    {
      hide Bcache.Valid; hide Settled; hide Header; hide HeaderBlock; hide Word; hide SlotWrites; hide Logged;
      ok := WriteLog();
      view1 := cache.view;
      if ok {
        WriteHead(Lh());
      }
    }

    // The second half of commit: install the blocks, then empty the header.
    method InstallAndErase() returns (ghost view3: Disk)
      requires n + |cache.held| < NBUF && Unlocked(Lh(), cache.held) && Quiet(Lh()) && GoodHeader(start, |cache.disk|, Lh())
      modifies this`n, cache`refs, cache`held, cache`view, cache`slot, cache`order, cache`disk, cache`writes, cache.buf
      ensures Quiet([]) && n == 0 && cache.held == old(cache.held) && start + LOGBLOCKS < |cache.disk| == |old(cache.disk)| == |view3| == |old(cache.view)|
      ensures Installed(start, old(Lh()), old(cache.view), view3, old(n))
      ensures cache.view == view3[start := HeaderBlock(view3[start], [])]
      ensures cache.writes == old(cache.writes) + HomeWrites(start, old(Lh()), old(cache.view)) + [Write(start, HeaderBlock(view3[start], []))]
    {
      hide Bcache.Valid; hide Settled; hide Header; hide HeaderBlock; hide Word; hide HomeWrites; hide Installed;
      assert StillPinned(0, false) == Lh();
      InstallTrans(false);
      view3 := cache.view;
      n := 0;
      WriteHead([]);
    }

    /**
      commit: log the blocks, write the header, install, erase the header.  The
      block writes are exactly CommitWrites, so CrashAtomicity applies to every
      prefix of them.  It panics, before any write, exactly when the blocks of the log
      and those that other processes hold take up all NBUF buffers.
     */
    method Commit() returns (ok: bool)
      requires Valid() && Unlocked(Lh(), cache.held)
      modifies this`n, cache`refs, cache`held, cache`view, cache`slot, cache`order, cache`disk, cache`writes, cache.buf
      ensures ok <==> old(n) == 0 || old(n) + |old(cache.held)| < NBUF
      ensures !ok ==> cache.writes == old(cache.writes)
      ensures ok ==> Valid() && n == 0 && cache.held == old(cache.held) && SameHome(start, old(cache.view), cache.view) && cache.view == cache.disk
      ensures ok ==> cache.writes == old(cache.writes) + CommitWrites(start, old(Lh()), old(cache.view))
    {
      hide Bcache.Valid; hide Settled; hide Header; hide HeaderBlock; hide Word; hide GoodDisk;
      hide CommitWrites; hide SlotWrites; hide HomeWrites; hide Logged; hide Installed; hide Transaction;
      ghost var lh, view0 := Lh(), cache.view;
      TransactionShape(start, cache.disk, lh, view0);
      if n > 0 {
        QuietSizes(Lh());
        ghost var writes0 := cache.writes;
        ghost var view1;
        ok, view1 := WriteLogAndHead();
        if !ok {
          return;
        }
        ghost var view2 := cache.view;
        ghost var view3 := InstallAndErase();
        Appended(writes0, SlotWrites(start, lh, view0), Write(start, HeaderBlock(view1[start], lh)),
                 HomeWrites(start, lh, view2), Write(start, HeaderBlock(view3[start], [])));
        CommitPieces(start, lh, view0, view1, view2, view3);
        QuietClean();
        ErasedLog(start, cache.disk, view3[start]);
      } else {
        QuietClean();
      }
      ok := true;
    }

    // The count and the block numbers go from the header block to memory.
    method GetHeader(data: Block)
      requires block.Length == LOGBLOCKS && Word(data, 0) <= LOGBLOCKS
      modifies this`n, block
      ensures n <= LOGBLOCKS && Lh() == Header(data)
    {
      hide Word;
      n := Word(data, 0);
      var k := 0;
      while k < n
        invariant 0 <= k <= n == Word(data, 0) && n <= LOGBLOCKS
        invariant forall j :: 0 <= j < k ==> block[j] == Word(data, 1 + j)
      {
        block[k] := Word(data, 1 + k);
        k := k + 1;
      }
    }

    /** read_head: the in-memory header becomes what the disk says. */
    method ReadHead()
      requires Quiet([]) && GoodDisk(start, cache.disk) && cache.held == {}
      modifies this`n, block, cache`refs, cache`held, cache`view, cache`slot, cache`order, cache.buf
      ensures Quiet([]) && cache.held == {} && cache.view == old(cache.view) && Lh() == Header(old(cache.view)[start])
    {
      hide Bcache.Valid; hide Bcache.Full; hide Bcache.Got; hide Settled; hide Word; hide Header;
      BeforeHead([]);
      QuietClean();
      var i := cache.Bread(start);
      GetHeader(cache.buf[i].data);
      cache.Brelse(i, start);
      assert cache.refs == old(cache.refs) && cache.held == {};
    }

    /**
      recover_from_log, at boot: replay what the header lists, then erase it.  The
      block writes are exactly RecoveryWrites, so the crash lemmas apply to it too,
      and the log starts empty.
     */
    method Recover()
      requires Quiet([]) && GoodDisk(start, cache.disk) && cache.held == {}
      modifies this`n, block, cache`refs, cache`held, cache`view, cache`slot, cache`order, cache`disk, cache`writes, cache.buf
      ensures Valid() && n == 0 && cache.view == cache.disk == Recovered(start, old(cache.disk))
      ensures cache.writes == old(cache.writes) + RecoveryWrites(start, old(cache.disk))
    {
      hide Bcache.Valid; hide Settled; hide Header; hide HeaderBlock; hide Word; hide Apply; hide HomeWrites; hide Installed;
      ghost var disk, writes := cache.disk, cache.writes;
      QuietClean();
      cache.DiskIsWrites(writes, []);
      ReadHead();
      InstallTrans(true);
      ghost var stale := cache.view[start];
      InstalledKeepsHead(start, Lh(), disk, cache.view, n);
      n := 0;
      WriteHead([]);
      QuietClean();
      ErasedLog(start, cache.disk, stale);
      RecoveryPieces(start, disk);
      cache.DiskIsWrites(writes, RecoveryWrites(start, disk));
    }
  }
}
