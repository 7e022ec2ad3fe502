/**
  The disk as the storage stack sees it, and the redo log that lives on it.

  A disk is a sequence of blocks.  Disk writes are atomic per block, so a run of
  the kernel is a sequence of block writes and a crash is a prefix of it.  This
  module defines what `commit` and `recover_from_log` write, and proves that
  recovery makes every such prefix all-or-nothing.
 */
module RedoLog {

  import opened Blocks

  type Disk = seq<Block>

  datatype Write = Write(blockno: nat, data: Block)

  /** The disk after the given block writes, in order; a write past its end is lost. */
  function Apply(d: Disk, ws: seq<Write>): (r: Disk)
    ensures |r| == |d|
  {
    if ws == [] then d
    else
      var last := ws[|ws| - 1];
      var e := Apply(d, ws[..|ws| - 1]);
      if last.blockno < |e| then e[last.blockno := last.data] else e
  }

  lemma {:induction false} ApplyConcat(d: Disk, xs: seq<Write>, ys: seq<Write>)
    ensures Apply(d, xs + ys) == Apply(Apply(d, xs), ys)
  {
    if ys == [] {
      assert xs + ys == xs;
    } else {
      var zs := xs + ys;
      assert zs[..|zs| - 1] == xs + ys[..|ys| - 1];
      ApplyConcat(d, xs, ys[..|ys| - 1]);
    }
  }

  /** A block that no write names keeps its contents. */
  lemma {:induction false} ApplyUntouched(d: Disk, ws: seq<Write>, b: nat)
    requires b < |d|
    requires forall j :: 0 <= j < |ws| ==> ws[j].blockno != b
    ensures Apply(d, ws)[b] == d[b]
  {
    if ws != [] {
      ApplyUntouched(d, ws[..|ws| - 1], b);
    }
  }

  /** The last write to a block is what it holds. */
  lemma {:induction false} ApplyTouched(d: Disk, ws: seq<Write>, k: nat)
    requires k < |ws| && ws[k].blockno < |d|
    requires forall j :: k < j < |ws| ==> ws[j].blockno != ws[k].blockno
    ensures Apply(d, ws)[ws[k].blockno] == ws[k].data
  {
    if k < |ws| - 1 {
      ApplyTouched(d, ws[..|ws| - 1], k);
    }
  }

  // ---------------------------------------------------------------- layout

  // The log occupies a header block at `start` and LOGBLOCKS slots after it.
  predicate InLog(start: nat, b: nat) {
    start <= b <= start + LOGBLOCKS
  }

  ghost predicate SameHome(start: nat, d: Disk, e: Disk) {
    |d| == |e| && forall b :: 0 <= b < |d| && !InLog(start, b) ==> d[b] == e[b]
  }

  // The block numbers recorded in a header block: a count, then as many numbers.
  function Header(b: Block): seq<nat> {
    if Word(b, 0) <= LOGBLOCKS then WordsAt(b, 1, Word(b, 0)) else []
  }

  // write_head: only the words up to n change, the rest of the block is stale.
  function HeaderBlock(stale: Block, lh: seq<nat>): (r: Block)
    requires |lh| <= LOGBLOCKS && forall i :: 0 <= i < |lh| ==> lh[i] < UINT
    ensures Word(r, 0) == |lh| && Header(r) == lh
  {
    PutWords(SetWord(stale, 0, |lh|), 1, lh)
  }

  ghost predicate Distinct(s: seq<nat>) {
    forall i, j :: 0 <= i < j < |s| ==> s[i] != s[j]
  }

  /** A header that commit may write: few, distinct, on the disk, outside the log. */
  ghost predicate GoodHeader(start: nat, size: nat, lh: seq<nat>) {
    && |lh| <= LOGBLOCKS
    && Distinct(lh)
    && forall i :: 0 <= i < |lh| ==> lh[i] < size && lh[i] < UINT && !InLog(start, lh[i])
  }

  /** A disk whose log header recovery can read. */
  ghost predicate GoodDisk(start: nat, d: Disk) {
    && start + LOGBLOCKS < |d|
    && Word(d[start], 0) <= LOGBLOCKS
    && GoodHeader(start, |d|, Header(d[start]))
  }

  // ---------------------------------------------------------------- what the code writes

  // The block that write number j of a commit of the blocks lh goes to.
  function CommitTarget(start: nat, lh: seq<nat>, j: nat): nat
    requires j < 2 * |lh| + 2
  {
    var n := |lh|;
    if j < n then start + 1 + j                   // write_log
    else if j == n then start                     // write_head: the commit point
    else if j < 2 * n + 1 then lh[j - n - 1]      // install_trans
    else start                                    // write_head: erase
  }

  // What it writes there, when the cached contents are view.
  function CommitData(start: nat, lh: seq<nat>, view: Disk, j: nat): Block
    requires GoodHeader(start, |view|, lh) && start < |view| && j < 2 * |lh| + 2
  {
    var n := |lh|;
    if j < n then view[lh[j]]
    else if j == n then HeaderBlock(view[start], lh)
    else if j < 2 * n + 1 then view[lh[j - n - 1]]
    else HeaderBlock(HeaderBlock(view[start], lh), [])
  }

  /** The block writes of one commit, in order. */
  function CommitWrites(start: nat, lh: seq<nat>, view: Disk): (r: seq<Write>)
    requires GoodHeader(start, |view|, lh) && start < |view|
    ensures |r| == if lh == [] then 0 else 2 * |lh| + 2
    ensures forall j :: 0 <= j < |r| ==>
      r[j].blockno == CommitTarget(start, lh, j) && r[j].data == CommitData(start, lh, view, j)
  {
    var n := if lh == [] then 0 else 2 * |lh| + 2;
    seq(n, j requires 0 <= j < n => Write(CommitTarget(start, lh, j), CommitData(start, lh, view, j)))
  }

  function InstallWrites(start: nat, d: Disk): (r: seq<Write>)
    requires GoodDisk(start, d)
    ensures |r| == |Header(d[start])|
  {
    var lh := Header(d[start]);
    seq(|lh|, k requires 0 <= k < |lh| => Write(lh[k], d[start + 1 + k]))
  }

  /** The writes of one complete recovery from disk d. */
  function RecoveryWrites(start: nat, d: Disk): (r: seq<Write>)
    requires GoodDisk(start, d)
    ensures |r| == |Header(d[start])| + 1
  {
    InstallWrites(start, d) + [Write(start, HeaderBlock(d[start], []))]
  }

  function Recovered(start: nat, d: Disk): (r: Disk)
    requires GoodDisk(start, d)
    ensures |r| == |d|
  {
    Apply(d, RecoveryWrites(start, d))
  }

  // ---------------------------------------------------------------- recovery

  /** What complete recovery leaves: logged blocks take their slot, the log is empty. */
  lemma {:induction false} RecoveredContents(start: nat, d: Disk)
    requires GoodDisk(start, d)
    ensures var lh := Header(d[start]); var r := Recovered(start, d);
      && (forall k :: 0 <= k < |lh| ==> r[lh[k]] == d[start + 1 + k])
      && (forall b :: 0 <= b < |d| && b != start && b !in lh ==> r[b] == d[b])
      && Header(r[start]) == [] && Word(r[start], 0) == 0
  {
    hide Word; hide WordsAt; hide PutWords; hide SetWord; hide Apply; hide Header;
    var lh, ws := Header(d[start]), RecoveryWrites(start, d);
    forall k | 0 <= k < |lh|
      ensures Recovered(start, d)[lh[k]] == d[start + 1 + k]
    {
      assert ws[k] == Write(lh[k], d[start + 1 + k]);
      ApplyTouched(d, ws, k);
    }
    forall b | 0 <= b < |d| && b != start && b !in lh
      ensures Recovered(start, d)[b] == d[b]
    {
      ApplyUntouched(d, ws, b);
    }
    ApplyTouched(d, ws, |lh|);
  }

  // Recovery from a disk with an empty log changes no home block.
  lemma {:induction false} RecoverEmpty(start: nat, c: Disk, d: Disk)
    requires GoodDisk(start, c) && Header(c[start]) == [] && SameHome(start, c, d)
    ensures SameHome(start, Recovered(start, c), d)
  {
    RecoveredContents(start, c);
  }

  /** A crash inside recovery, before the header is cleared, leaves the log as it was. */
  lemma {:induction false} PartialRecovery(start: nat, d: Disk, k: nat)
    requires GoodDisk(start, d) && k <= |Header(d[start])|
    ensures var e := Apply(d, RecoveryWrites(start, d)[..k]);
      && (forall b :: 0 <= b < |d| && InLog(start, b) ==> e[b] == d[b])
      && (forall b :: 0 <= b < |d| && b !in Header(d[start]) ==> e[b] == d[b])
  {
    hide Word; hide WordsAt; hide Header; hide Apply; hide HeaderBlock;
    var lh, ws := Header(d[start]), RecoveryWrites(start, d)[..k];
    assert forall j :: 0 <= j < k ==> ws[j].blockno == lh[j] && lh[j] in lh;
    forall b | 0 <= b < |d| && (InLog(start, b) || b !in lh)
      ensures Apply(d, ws)[b] == d[b]
    {
      ApplyUntouched(d, ws, b);
    }
  }

  // Recovery from a disk that an earlier recovery had begun to install.
  lemma {:induction false} RecoverAgain(start: nat, d: Disk, e: Disk)
    requires GoodDisk(start, d) && |e| == |d|
    requires forall b :: 0 <= b < |d| && InLog(start, b) ==> e[b] == d[b]
    requires forall b :: 0 <= b < |d| && b !in Header(d[start]) ==> e[b] == d[b]
    ensures GoodDisk(start, e) && SameHome(start, Recovered(start, e), Recovered(start, d))
  {
    hide Word; hide Header; hide Recovered;
    var lh := Header(d[start]);
    assert e[start] == d[start];
    RecoveredContents(start, d);
    RecoveredContents(start, e);
    forall b | 0 <= b < |d| && !InLog(start, b)
      ensures Recovered(start, e)[b] == Recovered(start, d)[b]
    {
      if b in lh {
        var j :| 0 <= j < |lh| && lh[j] == b;
        assert e[start + 1 + j] == d[start + 1 + j];
      }
    }
  }

  /**
    Recovery is idempotent under crashes: stop it after any number of its block
    writes, recover again from what is on the disk, and the home blocks are
    exactly what an undisturbed recovery would have produced.
   */
  lemma {:induction false} RecoveryAfterCrash(start: nat, d: Disk, k: nat)
    requires GoodDisk(start, d) && k <= |RecoveryWrites(start, d)|
    ensures var e := Apply(d, RecoveryWrites(start, d)[..k]);
      GoodDisk(start, e) && SameHome(start, Recovered(start, e), Recovered(start, d))
  {
    var ws := RecoveryWrites(start, d);
    var e := Apply(d, ws[..k]);
    if k == |ws| {
      assert ws[..k] == ws;
      RecoveredContents(start, d);
      RecoverEmpty(start, e, Recovered(start, d));
    } else {
      PartialRecovery(start, d, k);
      RecoverAgain(start, d, e);
    }
  }

  /** The disk after recovery was started and cut short once per entry of `crashes`. */
  ghost predicate CrashedRecoveries(start: nat, d: Disk, crashes: seq<nat>, e: Disk)
    decreases |crashes|
  {
    GoodDisk(start, d) &&
    if crashes == [] then e == d
    else
      crashes[0] <= |RecoveryWrites(start, d)| &&
      CrashedRecoveries(start, Apply(d, RecoveryWrites(start, d)[..crashes[0]]), crashes[1..], e)
  }

  /** Any number of crashes during recovery make no difference to the home blocks. */
  lemma {:induction false} RecoveryAfterManyCrashes(start: nat, d: Disk, crashes: seq<nat>, e: Disk)
    requires CrashedRecoveries(start, d, crashes, e)
    ensures GoodDisk(start, e) && SameHome(start, Recovered(start, e), Recovered(start, d))
    decreases |crashes|
  {
    if crashes != [] {
      RecoveryAfterCrash(start, d, crashes[0]);
      RecoveryAfterManyCrashes(start, Apply(d, RecoveryWrites(start, d)[..crashes[0]]), crashes[1..], e);
    }
  }

  // ---------------------------------------------------------------- commit

  /** A transaction: the disk before it and what its blocks hold in the cache. */
  ghost predicate Transaction(start: nat, d: Disk, lh: seq<nat>, view: Disk) {
    && |view| == |d| && GoodDisk(start, d) && Header(d[start]) == [] && view[start] == d[start]
    && GoodHeader(start, |d|, lh)
    && forall b :: 0 <= b < |d| && !InLog(start, b) && b !in lh ==> view[b] == d[b]
  }

  /** A disk whose log header has just been erased starts a new, empty transaction. */
  lemma ErasedLog(start: nat, d: Disk, stale: Block)
    requires start + LOGBLOCKS < |d| && d[start] == HeaderBlock(stale, [])
    ensures Transaction(start, d, [], d)
  {
  }

  lemma TransactionShape(start: nat, d: Disk, lh: seq<nat>, view: Disk)
    requires Transaction(start, d, lh, view)
    ensures GoodHeader(start, |d|, lh)
  {
  }

  /** Logging a write to one more block, or absorbing it, keeps the transaction good. */
  lemma TransactionExtends(start: nat, d: Disk, lh: seq<nat>, view: Disk, b: nat, data: Block)
    requires Transaction(start, d, lh, view) && b < |d| && b < UINT && !InLog(start, b)
    requires b in lh || |lh| < LOGBLOCKS
    ensures Transaction(start, d, if b in lh then lh else lh + [b], view[b := data])
  {
  }

  /** The disk that a crash after k of the writes of a commit leaves behind. */
  ghost function CrashDisk(start: nat, d: Disk, lh: seq<nat>, view: Disk, k: nat): (r: Disk)
    requires Transaction(start, d, lh, view) && k <= |CommitWrites(start, lh, view)|
    ensures |r| == |d|
  {
    Apply(d, CommitWrites(start, lh, view)[..k])
  }

  // Before the header is written only log slots have changed.
  lemma {:induction false} CrashBeforeHeader(start: nat, d: Disk, lh: seq<nat>, view: Disk, k: nat)
    requires Transaction(start, d, lh, view) && k <= |lh|
    requires k <= |CommitWrites(start, lh, view)|
    ensures var c := CrashDisk(start, d, lh, view, k);
      GoodDisk(start, c) && Header(c[start]) == [] && SameHome(start, c, d)
  {
    hide Word; hide Header; hide Apply;
    var ws := CommitWrites(start, lh, view)[..k];
    assert forall j :: 0 <= j < k ==> ws[j].blockno == start + 1 + j;
    forall b | 0 <= b < |d| && (b == start || !InLog(start, b))
      ensures Apply(d, ws)[b] == d[b]
    {
      ApplyUntouched(d, ws, b);
    }
  }

  // Once the header is written, and until it is cleared, the log holds the transaction.
  ghost predicate Committed(start: nat, d: Disk, lh: seq<nat>, view: Disk, c: Disk) {
    && |c| == |d| == |view| && GoodDisk(start, c) && GoodHeader(start, |d|, lh) && Header(c[start]) == lh
    && (forall i :: 0 <= i < |lh| ==> c[start + 1 + i] == view[lh[i]])
    && (forall b :: 0 <= b < |d| && !InLog(start, b) && b !in lh ==> c[b] == d[b])
  }

  // The header and the slots are written once before the commit point and not after it.
  lemma {:induction false} CrashAfterHeaderLog(start: nat, d: Disk, lh: seq<nat>, view: Disk, k: nat, i: nat)
    requires Transaction(start, d, lh, view) && lh != [] && i <= |lh| < k < 2 * |lh| + 2
    ensures CrashDisk(start, d, lh, view, k)[CommitTarget(start, lh, i)] == CommitData(start, lh, view, i)
  {
    hide Word; hide Header; hide HeaderBlock; hide Apply; hide CommitData;
    var ws := CommitWrites(start, lh, view)[..k];
    forall j | i < j < k
      ensures ws[j].blockno != ws[i].blockno
    {
      assert CommitTarget(start, lh, i) != CommitTarget(start, lh, j);
    }
    ApplyTouched(d, ws, i);
  }

  lemma {:induction false} CrashAfterHeader(start: nat, d: Disk, lh: seq<nat>, view: Disk, k: nat)
    requires Transaction(start, d, lh, view) && lh != [] && |lh| < k < 2 * |lh| + 2
    ensures Committed(start, d, lh, view, CrashDisk(start, d, lh, view, k))
  {
    hide Word; hide Header; hide HeaderBlock; hide Apply;
    var c := CrashDisk(start, d, lh, view, k);
    forall i | 0 <= i < |lh|
      ensures c[start + 1 + i] == view[lh[i]]
    {
      CrashAfterHeaderLog(start, d, lh, view, k, i);
    }
    forall b | 0 <= b < |d| && !InLog(start, b) && b !in lh
      ensures c[b] == d[b]
    {
      ApplyUntouched(d, CommitWrites(start, lh, view)[..k], b);
    }
    CrashAfterHeaderLog(start, d, lh, view, k, |lh|);
  }

  /** Recovery from a disk that holds a committed transaction completes the transaction. */
  lemma {:induction false} RecoverCommitted(start: nat, d: Disk, lh: seq<nat>, view: Disk, c: Disk)
    requires Transaction(start, d, lh, view) && Committed(start, d, lh, view, c)
    ensures SameHome(start, Recovered(start, c), view)
  {
    hide Word; hide Header; hide Recovered;
    RecoveredContents(start, c);
    forall b | 0 <= b < |d| && !InLog(start, b)
      ensures Recovered(start, c)[b] == view[b]
    {
      if b in lh {
        var j :| 0 <= j < |lh| && lh[j] == b;
      }
    }
  }

  // After the last write everything is installed and the log is empty.
  lemma {:induction false} CommitInstalls(start: nat, d: Disk, lh: seq<nat>, view: Disk, i: nat)
    requires Transaction(start, d, lh, view) && i < |lh|
    ensures Apply(d, CommitWrites(start, lh, view))[lh[i]] == view[lh[i]]
  {
    hide Word; hide Header; hide HeaderBlock; hide Apply;
    var k, ws := |lh| + 1 + i, CommitWrites(start, lh, view);
    forall j | k < j < |ws|
      ensures ws[j].blockno != ws[k].blockno
    {
      assert CommitTarget(start, lh, k) != CommitTarget(start, lh, j);
    }
    ApplyTouched(d, ws, k);
  }

  lemma {:induction false} CommitSpares(start: nat, d: Disk, lh: seq<nat>, view: Disk, b: nat)
    requires Transaction(start, d, lh, view) && b < |d| && !InLog(start, b) && b !in lh
    ensures Apply(d, CommitWrites(start, lh, view))[b] == view[b]
  {
    hide Word; hide Header; hide HeaderBlock; hide Apply;
    var ws := CommitWrites(start, lh, view);
    forall j | 0 <= j < |ws|
      ensures ws[j].blockno != b
    {
      assert CommitTarget(start, lh, j) != b;
    }
    ApplyUntouched(d, ws, b);
  }

  lemma {:induction false} CommitComplete(start: nat, d: Disk, lh: seq<nat>, view: Disk)
    requires Transaction(start, d, lh, view)
    ensures var c := CrashDisk(start, d, lh, view, |CommitWrites(start, lh, view)|);
      && GoodDisk(start, c) && Header(c[start]) == [] && SameHome(start, c, view)
  {
    hide Word; hide Header; hide HeaderBlock;
    var n, ws := |lh|, CommitWrites(start, lh, view);
    assert ws[..|ws|] == ws;
    forall b | 0 <= b < |d| && !InLog(start, b)
      ensures Apply(d, ws)[b] == view[b]
    {
      if b in lh {
        var i :| 0 <= i < n && lh[i] == b;
        CommitInstalls(start, d, lh, view, i);
      } else {
        CommitSpares(start, d, lh, view, b);
      }
    }
    if n > 0 {
      ApplyTouched(d, ws, 2 * n + 1);
    }
  }

  /** One crash in a commit: recovery finds the state before or after the transaction. */
  lemma {:induction false} CrashInCommit(start: nat, d: Disk, lh: seq<nat>, view: Disk, k: nat, c: Disk)
    requires Transaction(start, d, lh, view) && k <= |CommitWrites(start, lh, view)|
    requires c == CrashDisk(start, d, lh, view, k)
    ensures GoodDisk(start, c)
    ensures k <= |lh| ==> SameHome(start, Recovered(start, c), d)
    ensures k > |lh| ==> SameHome(start, Recovered(start, c), view)
  {
    hide Word; hide Header; hide Apply; hide GoodHeader; hide Recovered;
    if k <= |lh| {
      CrashBeforeHeader(start, d, lh, view, k);
      RecoverEmpty(start, c, d);
    } else if k == |CommitWrites(start, lh, view)| {
      CommitComplete(start, d, lh, view);
      RecoverEmpty(start, c, view);
    } else {
      CrashAfterHeader(start, d, lh, view, k);
      assert Committed(start, d, lh, view, c);
      RecoverCommitted(start, d, lh, view, c);
    }
  }

  /**
    Crash atomicity.  Crash after any number k of the block writes of a commit,
    let recovery itself crash any number of times, and then run to completion:
    the home blocks are exactly those before the transaction, or exactly those
    after it; after it exactly when the write of the non-empty header, which is
    number |lh|, had reached the disk.
   */
  lemma {:induction false} CrashAtomicity(start: nat, d: Disk, lh: seq<nat>, view: Disk,
                                         k: nat, crashes: seq<nat>, e: Disk)
    requires Transaction(start, d, lh, view) && k <= |CommitWrites(start, lh, view)|
    requires CrashedRecoveries(start, CrashDisk(start, d, lh, view, k), crashes, e)
    ensures GoodDisk(start, e)
    ensures SameHome(start, Recovered(start, e), if k > |lh| then view else d)
    ensures Header(Recovered(start, e)[start]) == []
  {
    hide Header;
    CrashInCommit(start, d, lh, view, k, CrashDisk(start, d, lh, view, k));
    RecoveryAfterManyCrashes(start, CrashDisk(start, d, lh, view, k), crashes, e);
    RecoveredContents(start, e);
  }
}
