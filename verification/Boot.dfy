/**
  Booting: fsinit replays the log and then reclaims orphans.  A crash at any block
  write of either leaves a disk from which the next boot ends in the same place.
 */
module Boot {
  import opened Blocks
  import opened Counting
  import opened RedoLog
  import opened CrashProtocol
  import opened Layout
  import opened Ownership
  import opened FileLayer
  import opened Reclaim
  import opened Mkfs

  // ---------------------------------------------------------------- the file system does not look at the log

  lemma HomeBlocks(sb: Superblock, view: Image, view': Image)
    requires sb.Valid() && |view| == sb.size && SameHome(sb.logstart, view, view')
    ensures |view'| == |view| && forall b :: sb.inodestart <= b < |view| ==> view'[b] == view[b]
    ensures forall b :: 0 <= b < sb.size ==> (InUse(sb, view', b) <==> InUse(sb, view, b))
    ensures forall i :: 0 <= i < sb.ninodes ==> DinodeAt(sb, view', i) == DinodeAt(sb, view, i)
  {
    hide BitIn; hide DinodeIn;
    forall b | 0 <= b < sb.size
      ensures InUse(sb, view', b) <==> InUse(sb, view, b)
    {
      assert b / BPB <= (sb.size - 1) / BPB;
    }
    forall i | 0 <= i < sb.ninodes
      ensures DinodeAt(sb, view', i) == DinodeAt(sb, view, i)
    {
      assert i / IPB <= (sb.ninodes - 1) / IPB;
    }
  }

  /** A consistent file system stays one, with the same files, on any disk with the same home blocks. */
  lemma HomeConsistent(sb: Superblock, view: Image, view': Image, table: Table, owner: Owner, loose: set<nat>, dirty: set<nat>)
    requires Consistent(sb, view, table, owner, loose, dirty) && SameHome(sb.logstart, view, view')
    ensures Consistent(sb, view', table, owner, loose, dirty) && FilesKept(view, view', table)
  {
    hide InUse; hide DinodeAt; hide SameHome; hide Addr;
    HomeBlocks(sb, view, view');
    forall i | 0 <= i < |table|
      ensures SameFile(view, view', table[i])
    {
      OtherFileKept(sb, view, view', table, owner, i);
    }
    SameSlotsOwn(sb, view, view', table, owner);
  }

  lemma SameHomeTrans(start: nat, a: Disk, b: Disk, c: Disk)
    requires SameHome(start, a, b) && SameHome(start, b, c)
    ensures SameHome(start, a, c) && SameHome(start, c, a)
  {
  }

  // ---------------------------------------------------------------- a crash inside a transaction

  /**
    A transaction takes one consistent file system to another.  Crash after any number
    of its block writes, let recovery crash any number of times: the disk recovers to
    one of the two, with every file of that one intact.
   */
  lemma CrashInTransaction(sb: Superblock, view: Image, table: Table, owner: Owner, view': Image, table': Table, owner': Owner,
                           d: Disk, lh: seq<nat>, v: Disk, k: nat, crashes: seq<nat>, e: Disk)
    requires Consistent(sb, view, table, owner, {}, {}) && Consistent(sb, view', table', owner', {}, {})
    requires Transaction(sb.logstart, d, lh, v) && SameHome(sb.logstart, d, view) && SameHome(sb.logstart, v, view')
    requires k <= |CommitWrites(sb.logstart, lh, v)| && CrashedRecoveries(sb.logstart, CrashDisk(sb.logstart, d, lh, v, k), crashes, e)
    ensures GoodDisk(sb.logstart, e)
    ensures var r := Recovered(sb.logstart, e);
      if k > |lh| then Consistent(sb, r, table', owner', {}, {}) && FilesKept(view', r, table')
      else Consistent(sb, r, table, owner, {}, {}) && FilesKept(view, r, table)
  {
    hide Consistent; hide SameHome; hide GoodDisk; hide Recovered; hide Transaction; hide FilesKept; hide CommitWrites; hide CrashedRecoveries;
    CrashAtomicity(sb.logstart, d, lh, v, k, crashes, e);
    var r := Recovered(sb.logstart, e);
    if k > |lh| {
      SameHomeTrans(sb.logstart, r, v, view');
      HomeConsistent(sb, view', r, table', owner', {}, {});
    } else {
      SameHomeTrans(sb.logstart, r, d, view);
      HomeConsistent(sb, view, r, table, owner, {}, {});
    }
  }

  // ---------------------------------------------------------------- a crash inside ireclaim

  // What the cache holds over disk d when operations see view: the log blocks are still d's.
  ghost function Cached(start: nat, d: Disk, view: Image): (r: Disk)
    requires |view| == |d|
    ensures |r| == |d| && SameHome(start, r, view)
    ensures forall b :: 0 <= b < |d| && InLog(start, b) ==> r[b] == d[b]
  {
    seq(|d|, b requires 0 <= b < |d| => if InLog(start, b) then d[b] else view[b])
  }

  ghost predicate Lists(lh: seq<nat>, logged: set<nat>) {
    Distinct(lh) && Elements(lh) == logged
  }

  // A disk between two transactions that holds what operations see at moment m.
  ghost predicate Holds(start: nat, d: Disk, m: Moment) {
    GoodDisk(start, d) && Header(d[start]) == [] && SameHome(start, d, m.view)
  }

  // log_write accepts all that the turn writes.  It tests for room before it looks for the
  // block, and the last write of a turn, the inode's second, is to a block already logged.
  ghost predicate Fits(m: Moment) {
    |m.logged| < LOGBLOCKS
  }

  /** A turn that fits is a transaction over any disk that holds the moment before it. */
  lemma TurnIsTransaction(sb: Superblock, m: Moment, m': Moment, table: Table, owner: Owner, d: Disk, lh: seq<nat>)
    requires GoodMoment(sb, m, table, owner) && Turned(sb, m, m', table, owner) && Fits(m')
    requires Holds(sb.logstart, d, m) && Lists(lh, m'.logged)
    ensures |m'.view| == |d| && Transaction(sb.logstart, d, lh, Cached(sb.logstart, d, m'.view))
  {
    hide Consistent; hide Header; hide Cached; hide Freeing; hide Keeping;
    TouchedHome(sb, m, table, owner);
    DistinctSize(lh);
    forall i | 0 <= i < |lh|
      ensures lh[i] < |d| && lh[i] < UINT && !InLog(sb.logstart, lh[i])
    {
      assert lh[i] in Elements(lh);
    }
    forall b | 0 <= b < |d| && !InLog(sb.logstart, b) && b !in lh
      ensures Cached(sb.logstart, d, m'.view)[b] == d[b]
    {
      assert b !in Elements(lh);
    }
  }

  lemma TouchedHome(sb: Superblock, m: Moment, table: Table, owner: Owner)
    requires GoodMoment(sb, m, table, owner) && m.n < |table|
    ensures sb.Valid() && |m.view| == sb.size
    ensures forall b :: b in Touched(sb, owner, m.n) ==> sb.logstart + LOGBLOCKS < b < sb.size
  {
    hide Marks; hide Synced; hide Addr; hide Freeing;
    OwnsUnfolds(sb, m.view, Freeing(table, m.n), Keeping(table, owner, m.n));
    TouchedKept(sb, table, owner, m.n);
    var o := Keeping(table, owner, m.n);
    forall b | b in OwnedBy(o, m.n)
      ensures sb.logstart + LOGBLOCKS < sb.BBlock(b) < sb.size
    {
      assert b / BPB <= (sb.size - 1) / BPB;
    }
    assert m.n / IPB <= (sb.ninodes - 1) / IPB;
  }

  /** Every turn fits on an image of at most 28 bitmap blocks. */
  lemma EveryTurnFits(sb: Superblock, ms: seq<Moment>, table: Table, owner: Owner, i: nat)
    requires Reclaims(sb, ms, table, owner) && i < |ms| && (i == 0 ==> ms[0].logged == {})
    requires sb.size <= (LOGBLOCKS - 2) * BPB
    ensures Fits(ms[i])
  {
    hide Owns; hide Marks; hide Synced; hide Touched; hide SurvivorsKept; hide Freeing; hide Keeping;
    if i > 0 {
      var m := ms[i - 1];
      assert GoodMoment(sb, m, table, owner) && Turned(sb, m, ms[i], table, owner);
      OwnsUnfolds(sb, m.view, Freeing(table, m.n), Keeping(table, owner, m.n));
      TouchedSize(sb, m.view, Freeing(table, m.n), Keeping(table, owner, m.n), m.n);
      TouchedKept(sb, table, owner, m.n);
    }
  }

  /**
    Disk e is what a crash in the turn from m to m' leaves: k block writes of its commit
    done, and then any number of recoveries cut short.  A turn that does not fit panics
    before its commit, with nothing written.
   */
  ghost predicate CrashInTurn(sb: Superblock, m: Moment, m': Moment, d: Disk, lh: seq<nat>, k: nat, crashes: seq<nat>, e: Disk) {
    Holds(sb.logstart, d, m) &&
    if Fits(m') then
      && Lists(lh, m'.logged) && |m'.view| == |d| && Transaction(sb.logstart, d, lh, Cached(sb.logstart, d, m'.view))
      && k <= |CommitWrites(sb.logstart, lh, Cached(sb.logstart, d, m'.view))|
      && CrashedRecoveries(sb.logstart, CrashDisk(sb.logstart, d, lh, Cached(sb.logstart, d, m'.view), k), crashes, e)
    else CrashedRecoveries(sb.logstart, d, crashes, e)
  }

  // The inodes below this number are done with after the crash.
  ghost function Reached(m: Moment, m': Moment, lh: seq<nat>, k: nat): nat {
    if Fits(m') && k > |lh| then m'.n else m.n
  }

  /**
    A disk on its way from contents v0 with inode table `table`: once replayed it is a
    consistent file system in which the orphans below n have been freed, nothing is
    half done, and the files of all other inodes are as they were.
   */
  ghost predicate Halfway(sb: Superblock, v0: Image, table: Table, owner: Owner, n: nat, disk: Disk) {
    && n <= |table| && GoodDisk(sb.logstart, disk)
    && Consistent(sb, Recovered(sb.logstart, disk), Freeing(table, n), Keeping(table, owner, n), {}, {})
    && SurvivorsKept(v0, Recovered(sb.logstart, disk), table, n)
  }

  lemma SurvivorsTrans(u: Image, v: Image, w: Image, table: Table, k: nat, n: nat)
    requires SurvivorsKept(u, v, table, k) && SurvivorsKept(v, w, Freeing(table, k), n)
    ensures SurvivorsKept(u, w, table, Max(k, n))
  {
    hide Addr;
    forall i | 0 <= i < |table| && !Doomed(table, i, Max(k, n))
      ensures SameFile(u, w, table[i])
    {
      assert SameFile(u, v, table[i]);
      assert SameFile(v, w, Freeing(table, k)[i]);
    }
  }

  // A disk that recovers to the home blocks of a moment is halfway.
  lemma MomentHalfway(sb: Superblock, v0: Image, m: Moment, table: Table, owner: Owner, e: Disk)
    requires GoodMoment(sb, m, table, owner) && SurvivorsKept(v0, m.view, table, m.n)
    requires GoodDisk(sb.logstart, e) && SameHome(sb.logstart, m.view, Recovered(sb.logstart, e))
    ensures Halfway(sb, v0, table, owner, m.n, e)
  {
    hide Consistent; hide SameHome; hide GoodDisk; hide Recovered; hide SameFile; hide Keeping;
    var t := Freeing(table, m.n);
    HomeConsistent(sb, m.view, Recovered(sb.logstart, e), t, Keeping(table, owner, m.n), {}, {});
    assert SurvivorsKept(m.view, Recovered(sb.logstart, e), t, m.n);
    SurvivorsTrans(v0, m.view, Recovered(sb.logstart, e), table, m.n, m.n);
  }

  /** Whatever block write of ireclaim is the last, the disk is halfway. */
  lemma CrashInReclaim(sb: Superblock, ms: seq<Moment>, table: Table, owner: Owner, i: nat, d: Disk, lh: seq<nat>, k: nat,
                       crashes: seq<nat>, e: Disk)
    requires Reclaims(sb, ms, table, owner) && 0 < i < |ms| && CrashInTurn(sb, ms[i - 1], ms[i], d, lh, k, crashes, e)
    ensures Halfway(sb, ms[0].view, table, owner, Reached(ms[i - 1], ms[i], lh, k), e)
  {
    hide GoodMoment; hide SurvivorsKept; hide Turned; hide Halfway; hide SameHome; hide GoodDisk; hide Recovered; hide CommitWrites;
    hide CrashedRecoveries; hide Transaction; hide Header; hide Lists; hide Cached;
    var m, m' := ms[i - 1], ms[i];
    var r := if Fits(m') && k > |lh| then m' else m;
    if Fits(m') {
      var v := Cached(sb.logstart, d, m'.view);
      CrashAtomicity(sb.logstart, d, lh, v, k, crashes, e);
      SameHomeTrans(sb.logstart, Recovered(sb.logstart, e), if k > |lh| then v else d, r.view);
    } else {
      RecoveryAfterManyCrashes(sb.logstart, d, crashes, e);
      SameHomeRefl(sb.logstart, d);
      RecoverEmpty(sb.logstart, d, d);
      SameHomeTrans(sb.logstart, Recovered(sb.logstart, e), Recovered(sb.logstart, d), d);
      SameHomeTrans(sb.logstart, Recovered(sb.logstart, e), d, m.view);
    }
    MomentHalfway(sb, ms[0].view, r, table, owner, e);
  }

  lemma SameHomeRefl(start: nat, d: Disk)
    ensures SameHome(start, d, d)
  {
  }

  // ---------------------------------------------------------------- any number of boots

  /** A boot cut short, in the replay or in a turn of ireclaim, and the disk it leaves. */
  datatype Attempt =
    | InReplay(crashes: seq<nat>, left: Disk)
    | InTurn(ms: seq<Moment>, i: nat, d: Disk, lh: seq<nat>, k: nat, crashes: seq<nat>, left: Disk)

  ghost predicate CutShort(sb: Superblock, table: Table, owner: Owner, disk: Disk, a: Attempt) {
    GoodDisk(sb.logstart, disk) &&
    match a
    case InReplay(crashes, left) => CrashedRecoveries(sb.logstart, disk, crashes, left)
    case InTurn(ms, i, d, lh, k, crashes, left) =>
      && Reclaims(sb, ms, table, owner) && ms[0].view == Recovered(sb.logstart, disk)
      && 0 < i < |ms| && CrashInTurn(sb, ms[i - 1], ms[i], d, lh, k, crashes, left)
  }

  ghost function Progress(a: Attempt): nat
    requires a.InTurn? ==> 0 < a.i < |a.ms|
  {
    match a
    case InReplay(_, _) => 1
    case InTurn(ms, i, _, lh, k, _, _) => Reached(ms[i - 1], ms[i], lh, k)
  }

  /** Boots one after the other, each from the disk and the inode table that the one before left. */
  ghost predicate CutShortBoots(sb: Superblock, table: Table, owner: Owner, disk: Disk, tries: seq<Attempt>, e: Disk)
    decreases |tries|
  {
    if tries == [] then e == disk
    else
      var a := tries[0];
      && CutShort(sb, table, owner, disk, a)
      && CutShortBoots(sb, Freeing(table, Progress(a)), Keeping(table, owner, Progress(a)), a.left, tries[1..], e)
  }

  lemma FirstBoot(sb: Superblock, table: Table, owner: Owner, disk: Disk)
    requires GoodDisk(sb.logstart, disk) && Consistent(sb, Recovered(sb.logstart, disk), table, owner, {}, {})
    ensures Halfway(sb, Recovered(sb.logstart, disk), table, owner, 1, disk)
  {
    hide Marks; hide Synced; hide Addr; hide Freeing; hide Keeping; hide Recovered; hide GoodDisk;
    FreeingNone(table, owner);
    SurvivorsRefl(Recovered(sb.logstart, disk), table);
  }

  lemma OneAttempt(sb: Superblock, table: Table, owner: Owner, disk: Disk, a: Attempt)
    requires CutShort(sb, table, owner, disk, a) && Consistent(sb, Recovered(sb.logstart, disk), table, owner, {}, {})
    ensures Halfway(sb, Recovered(sb.logstart, disk), table, owner, Progress(a), a.left)
  {
    hide Consistent; hide Reclaims; hide CrashInTurn; hide Halfway; hide Recovered; hide GoodDisk; hide SameHome;
    var v0 := Recovered(sb.logstart, disk);
    match a {
      case InTurn(ms, i, d, lh, k, crashes, left) => CrashInReclaim(sb, ms, table, owner, i, d, lh, k, crashes, left);
      case InReplay(crashes, left) =>
        RecoveryAfterManyCrashes(sb.logstart, disk, crashes, left);
        SameHomeRefl(sb.logstart, v0);
        SameHomeTrans(sb.logstart, Recovered(sb.logstart, left), v0, v0);
        BeforeReclaim(sb, v0, table, owner);
        MomentHalfway(sb, v0, Moment(v0, 1, {}), table, owner, left);
    }
  }

  lemma BeforeReclaim(sb: Superblock, view: Image, table: Table, owner: Owner)
    requires Consistent(sb, view, table, owner, {}, {})
    ensures GoodMoment(sb, Moment(view, 1, {}), table, owner) && SurvivorsKept(view, view, table, 1)
  {
    ReclaimsStart(sb, view, table, owner);
  }

  lemma HalfwayAgain(sb: Superblock, v0: Image, table: Table, owner: Owner, n: nat, disk: Disk, n': nat, e: Disk)
    requires Halfway(sb, v0, table, owner, n, disk)
    requires Halfway(sb, Recovered(sb.logstart, disk), Freeing(table, n), Keeping(table, owner, n), n', e)
    ensures Halfway(sb, v0, table, owner, Max(n, n'), e)
  {
    hide Consistent; hide SurvivorsKept; hide GoodDisk; hide Recovered; hide Freeing; hide Keeping;
    FreeingResumes(table, owner, n, n');
    SurvivorsTrans(v0, Recovered(sb.logstart, disk), Recovered(sb.logstart, e), table, n, n');
  }

  /**
    After any number of boots cut short at any block write, the disk is halfway: it
    replays to a consistent file system from which ireclaim can go on.
   */
  lemma {:induction false} AnyNumberOfBoots(sb: Superblock, table: Table, owner: Owner, disk: Disk, tries: seq<Attempt>, e: Disk) returns (n: nat)
    requires GoodDisk(sb.logstart, disk) && Consistent(sb, Recovered(sb.logstart, disk), table, owner, {}, {})
    requires CutShortBoots(sb, table, owner, disk, tries, e)
    ensures Halfway(sb, Recovered(sb.logstart, disk), table, owner, n, e)
    decreases |tries|
  {
    hide Consistent; hide Reclaims; hide CrashInTurn; hide CrashedRecoveries; hide Recovered; hide GoodDisk; hide SurvivorsKept;
    hide Freeing; hide Keeping;
    if tries == [] {
      FirstBoot(sb, table, owner, disk);
      n := 1;
    } else {
      var a := tries[0];
      OneAttempt(sb, table, owner, disk, a);
      var n1 := Progress(a);
      var n2 := AnyNumberOfBoots(sb, Freeing(table, n1), Keeping(table, owner, n1), a.left, tries[1..], e);
      n := Max(n1, n2);
      HalfwayAgain(sb, Recovered(sb.logstart, disk), table, owner, n1, a.left, n2, e);
    }
  }

  /**
    fsinit: replay the log, then ireclaim.  From any disk that is halfway the result is
    the one an undisturbed boot reaches: every orphan freed, every other inode and its
    file untouched.
   */
  method Fsinit(sb: Superblock, disk: Disk, ghost v0: Image, ghost table: Table, ghost owner: Owner, ghost n: nat)
    returns (fs: Fs, ghost ms: seq<Moment>)
    requires Halfway(sb, v0, table, owner, n, disk)
    ensures fresh(fs) && fs.sb == sb && fs.Valid() && fs.dirty == {} && fs.loose == {}
    ensures fs.table == Freeing(table, |table|) && fs.owner == Keeping(table, owner, |table|)
    ensures SurvivorsKept(v0, fs.view, table, |table|)
    ensures Reclaims(sb, ms, Freeing(table, n), Keeping(table, owner, n)) && |ms| == |table|
    ensures ms[0].view == Recovered(sb.logstart, disk) && ms[|ms| - 1].view == fs.view
  {
    hide Consistent; hide Freeing; hide Keeping; hide SurvivorsKept; hide Recovered; hide GoodDisk; hide Reclaims;
    var image := Recovered(sb.logstart, disk);
    fs := new Fs(sb, image, Freeing(table, n), Keeping(table, owner, n));
    ms := Ireclaim(fs);
    FreeingResumes(table, owner, n, |table|);
    SurvivorsTrans(v0, image, fs.view, table, n, |table|);
  }

  // ---------------------------------------------------------------- every crash of every run

  ghost predicate Sound(sb: Superblock, view: Image) {
    exists table: Table, owner: Owner :: Consistent(sb, view, table, owner, {}, {})
  }

  // The operations of a transaction together take a sound file system to a sound one.
  // While operations run, the durable contents are those the transaction started from.
  ghost predicate OperationsSound(sb: Superblock, states: seq<State>, specs: seq<Spec>, steps: seq<Step>)
    requires |states| == |specs| == |steps| + 1
  {
    forall i :: 0 <= i < |steps| ==> OperationSound(sb, specs[i], steps[i], states[i + 1])
  }

  ghost predicate OperationSound(sb: Superblock, spec: Spec, step: Step, s': State) {
    step.EndOp? && s'.phase.Committing? && Sound(sb, spec.durable) ==> Sound(sb, spec.current)
  }

  lemma SoundHome(sb: Superblock, view: Image, view': Image)
    requires Sound(sb, view) && SameHome(sb.logstart, view, view')
    ensures Sound(sb, view')
  {
    hide Consistent; hide SameHome;
    var table: Table, owner: Owner :| Consistent(sb, view, table, owner, {}, {});
    HomeConsistent(sb, view, view', table, owner, {}, {});
  }

  lemma SoundStep(sb: Superblock, s: State, spec: Spec, step: Step, s': State, spec': Spec)
    requires Related(sb.logstart, s, spec, step, s', spec') && OperationSound(sb, spec, step, s')
    requires Sound(sb, spec.durable) && (s.phase.Committing? ==> Sound(sb, spec.current))
    ensures Sound(sb, spec'.durable) && (s'.phase.Committing? ==> Sound(sb, spec'.current))
  {
    hide Sound; hide GoodHeader; hide GoodDisk; hide CommitWrites; hide RecoveryWrites; hide InLog; hide Panics; hide Put;
  }

  /**
    Every run, with concurrent operations, commits, crashes and crashed recoveries: as
    long as the operations keep the file system sound, the disk at every moment replays
    to a sound one, with no block half allocated and no inode half written.
   */
  lemma {:induction false} EveryCrashIsSound(sb: Superblock, states: seq<State>, specs: seq<Spec>, steps: seq<Step>, i: nat)
    requires Run(sb.logstart, states, specs, steps) && Sound(sb, specs[0].durable)
    requires OperationsSound(sb, states, specs, steps) && i <= |steps|
    ensures Sound(sb, specs[i].durable) && (states[i].phase.Committing? ==> Sound(sb, specs[i].current))
    ensures GoodDisk(sb.logstart, states[i].disk) && Sound(sb, Recovered(sb.logstart, states[i].disk))
  {
    hide Sound; hide Related; hide OperationSound; hide SameHome; hide GoodDisk; hide Recovered; hide Transaction;
    if i > 0 {
      EveryCrashIsSound(sb, states, specs, steps, i - 1);
      assert Related(sb.logstart, states[i - 1], specs[i - 1], steps[i - 1], states[i], specs[i]);
      assert OperationSound(sb, specs[i - 1], steps[i - 1], states[i]);
      SoundStep(sb, states[i - 1], specs[i - 1], steps[i - 1], states[i], specs[i]);
    }
    EveryRunIsAtomic(sb.logstart, states, specs, steps, i);
    SameHomeRefl(sb.logstart, specs[i].durable);
    SameHomeTrans(sb.logstart, Recovered(sb.logstart, states[i].disk), specs[i].durable, specs[i].durable);
    SoundHome(sb, specs[i].durable, Recovered(sb.logstart, states[i].disk));
  }

  // ---------------------------------------------------------------- which images can run out of buffers

  /**
    On an image of at most three bitmap blocks no run panics, as long as no operation
    writes more blocks than filewrite can there (freeing an inode writes fewer) and
    processes hold fewer blocks outside the log than two reservations leave unused.
   */
  lemma SmallImagesNeverPanic(sb: Superblock, states: seq<State>, specs: seq<Spec>, steps: seq<Step>, h: nat, i: nat)
    requires sb.Valid() && sb.size <= 3 * BPB && h < 2 * (MAXOPBLOCKS - WriteBound(sb))
    requires Run(sb.logstart, states, specs, steps) && Modest(steps, WriteBound(sb)) && AllPolite(states, steps, h) && i < |steps|
    requires !states[i].phase.Down? && !steps[i].Crash?
    ensures !states[i + 1].phase.Down? && sb.Bitmaps() + 1 < WriteBound(sb)
  {
    NothingPanics(sb.logstart, states, specs, steps, WriteBound(sb), h, i);
  }

  /**
    The image that mkfs makes is one: seven blocks for a write, two to free an inode.  Up
    to five blocks may be held outside the log; with six there is a run in which the
    commit panics.
   */
  lemma MkfsImageBounds(d: Disk) returns (r: History)
    requires Transaction(SB.logstart, d, [], d) && |d| == SB.size
    ensures SB.Valid() && SB.size <= 3 * BPB && WriteBound(SB) == 7 && SB.Bitmaps() + 1 == 2
    ensures RunOf(SB.logstart, r) && Modest(r.steps, WriteBound(SB)) && AllPolite(r.states, r.steps, 6)
    ensures Enabled(SB.logstart, Last(r), CommitRead) && Panics(SB.logstart, Last(r), CommitRead)
  {
    hide Transaction;
    r := ReadersPanicCommit(SB.logstart, d, 7);
  }
}
