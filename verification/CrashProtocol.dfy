/**
  The log over whole runs: concurrent file system operations, commits, crashes
  at any point and recoveries that may crash again, one block write per step.

  The specification beside it is two plain disks.  `current` is what operations
  read and write; `durable` is what a crash falls back to.  It becomes `current`
  in one step, and only when no operation is under way.

  The log pins the buffers of its blocks, and processes hold others, readers outside
  any operation among them.  A read panics when its block is not among the referenced
  ones and they take up all NBUF buffers.  Waiting for a locked buffer is not part of
  this: a step may come earlier here than in the kernel.
 */
module CrashProtocol {
  import opened Blocks
  import opened Counting
  import opened RedoLog

  type OpId = nat

  datatype Phase =
    | Running
    | Committing(base: Disk, k: nat, got: bool)  // k block writes of the commit done, from disk base;
                                                 // got: it has the log block of the next one
    | Down                                       // crashed or panicked: memory is gone
    | Recovering(found: Disk, k: nat)            // k block writes of recovery done, from disk found

  // `left` bounds the blocks that each operation in progress may still add to the log; `held`
  // are the references that processes have beside the pins of the log, by block.
  datatype State = State(disk: Disk, view: Disk, lh: seq<nat>, left: map<OpId, nat>, held: multiset<nat>, phase: Phase)
  datatype Spec = Spec(current: Disk, durable: Disk)

  datatype Step =
    | BeginOp(op: OpId)
    | Store(op: OpId, b: nat, data: Block)
    | EndOp(op: OpId)
    | Take(b: nat)  // bread, by a reader or by an operation that keeps the buffer
    | Drop(b: nat)  // brelse
    | CommitRead
    | CommitStep
    | Crash
    | Reboot
    | RecoverStep

  // begin_op lets an operation in: no commit is running and its reservation fits.
  predicate Admits(s: State) {
    s.phase.Running? && |s.lh| + (|s.left| + 1) * MAXOPBLOCKS <= LOGBLOCKS
  }

  ghost predicate Enabled(start: nat, s: State, step: Step) {
    match step
    case BeginOp(op) => Admits(s) && op !in s.left
    case Store(op, b, data) =>
      && s.phase.Running? && op in s.left && b < |s.disk| && b < UINT && !InLog(start, b)
      && (b in s.lh || s.left[op] > 0)
    case EndOp(op) => s.phase.Running? && op in s.left
    case Take(b) => (s.phase.Running? || s.phase.Committing?) && b < |s.disk| && !InLog(start, b)
    case Drop(b) => (s.phase.Running? || s.phase.Committing?) && b in s.held
    case CommitRead => s.phase.Committing? && !s.phase.got && s.phase.k < CommitLength(s.lh)
    case CommitStep => s.phase.Committing? && (s.phase.got || s.phase.k >= CommitLength(s.lh))
    case Crash => true
    case Reboot => s.phase.Down? && GoodDisk(start, s.disk)
    case RecoverStep => s.phase.Recovering?
  }

  function Halt(s: State): State {
    s.(view := [], lh := [], left := map[], held := multiset{}, phase := Down)
  }

  // The number of block writes of a commit.
  function CommitLength(lh: seq<nat>): nat {
    if lh == [] then 0 else 2 * |lh| + 2
  }

  // ---------------------------------------------------------------- buffers

  // The blocks that the log pins.  Each install unpins its block.
  ghost function Pins(s: State): set<nat> {
    match s.phase
    case Running => Elements(s.lh)
    case Committing(_, k, _) =>
      if k <= |s.lh| + 1 then Elements(s.lh) else if k <= 2 * |s.lh| + 1 then Elements(s.lh[k - |s.lh| - 1..]) else {}
    case _ => {}
  }

  // The block of the log area that write number k of a commit of n blocks needs.
  function LogBlock(start: nat, n: nat, k: nat): nat {
    if k < n then start + 1 + k
    else if n < k <= 2 * n then start + k - n
    else start
  }

  ghost function Held(s: State): set<nat> {
    set b | b in s.held
  }

  ghost function Referenced(start: nat, s: State): set<nat> {
    Pins(s) + Held(s) + (if s.phase.Committing? && s.phase.got then {LogBlock(start, |s.lh|, s.phase.k)} else {})
  }

  // bget: "no buffers".  A referenced block is in the cache; if NBUF others are, b is not.
  ghost predicate Exhausted(start: nat, s: State, b: nat) {
    b !in Referenced(start, s) && |Referenced(start, s)| >= NBUF
  }

  /** The steps that panic. */
  ghost predicate Panics(start: nat, s: State, step: Step) {
    match step
    case Store(_, b, _) => Exhausted(start, s, b) || |s.lh| >= LOGBLOCKS  // log_write: "too big a transaction"
    case Take(b) => Exhausted(start, s, b)
    case CommitRead => s.phase.Committing? && Exhausted(start, s, LogBlock(start, |s.lh|, s.phase.k))
    case _ => false
  }

  // ---------------------------------------------------------------- steps

  // The log header that a commit writes, or recovery reads, is a good one.
  ghost predicate Defined(start: nat, s: State) {
    && (s.phase.Committing? ==> GoodHeader(start, |s.view|, s.lh) && start < |s.view|)
    && (s.phase.Recovering? ==> GoodDisk(start, s.phase.found))
  }

  ghost function ImplNext(start: nat, s: State, step: Step): State
    requires Enabled(start, s, step) && Defined(start, s)
  {
    if Panics(start, s, step) then Halt(s)
    else match step
    case BeginOp(op) => s.(left := s.left[op := MAXOPBLOCKS])
    case Store(op, b, data) =>
      if b in s.lh then s.(view := Put(s.view, b, data))
      else s.(view := Put(s.view, b, data), lh := s.lh + [b], left := s.left[op := s.left[op] - 1])
    case EndOp(op) =>
      var left := s.left - {op};
      if |left| == 0 then s.(left := left, phase := Committing(s.disk, 0, false)) else s.(left := left)
    case Take(b) => s.(held := s.held + multiset{b})
    case Drop(b) => s.(held := s.held - multiset{b})
    case CommitRead => s.(phase := s.phase.(got := true))
    case CommitStep =>
      var ws := CommitWrites(start, s.lh, s.view);
      if s.phase.k >= |ws| then s.(view := s.disk, lh := [], phase := Running)
      else
        var w := ws[s.phase.k];
        s.(disk := Put(s.disk, w.blockno, w.data), phase := Committing(s.phase.base, s.phase.k + 1, false))
    case Crash => Halt(s)
    case Reboot => s.(phase := Recovering(s.disk, 0))
    case RecoverStep =>
      var ws := RecoveryWrites(start, s.phase.found);
      if s.phase.k >= |ws| then s.(view := s.disk, lh := [], left := map[], phase := Running)
      else
        var w := ws[s.phase.k];
        s.(disk := Put(s.disk, w.blockno, w.data), phase := Recovering(s.phase.found, s.phase.k + 1))
  }

  function Put(d: Disk, b: nat, data: Block): (r: Disk)
    ensures |r| == |d|
  {
    if b < |d| then d[b := data] else d
  }

  // ---------------------------------------------------------------- specification

  datatype Event = Silent | Update(b: nat, data: Block) | MakeDurable | FallBack

  function SpecNext(spec: Spec, e: Event): Spec {
    match e
    case Silent => spec
    case Update(b, data) => spec.(current := Put(spec.current, b, data))
    case MakeDurable => spec.(durable := spec.current)
    case FallBack => spec.(current := spec.durable)
  }

  // What each step means to the specification.  The one step that makes a
  // transaction durable is the write of its header, write number |lh|.
  ghost function Meaning(start: nat, s: State, step: Step): Event {
    if Panics(start, s, step) then FallBack
    else match step
    case Store(op, b, data) => Update(b, data)
    case CommitStep =>
      if !s.phase.Committing? || s.lh == [] || s.phase.k >= 2 * |s.lh| + 2 then Silent
      else if s.phase.k == |s.lh| then MakeDurable
      else Silent
    case Crash => FallBack
    case _ => Silent
  }

  // ---------------------------------------------------------------- invariant

  ghost predicate Inv(start: nat, s: State, spec: Spec) {
    && start + LOGBLOCKS < |s.disk| == |spec.current| == |spec.durable|
    && match s.phase
       case Running =>
         && Transaction(start, s.disk, s.lh, s.view)
         && SameHome(start, s.view, spec.current) && SameHome(start, s.disk, spec.durable)
       case Committing(base, k, got) =>
         && s.left == map[] && |base| == |s.disk|
         && Transaction(start, base, s.lh, s.view) && SameHome(start, s.view, spec.current)
         && k <= |CommitWrites(start, s.lh, s.view)| && s.disk == CrashDisk(start, base, s.lh, s.view, k)
         && SameHome(start, if k > |s.lh| then s.view else base, spec.durable)
       case Down =>
         && GoodDisk(start, s.disk) && SameHome(start, Recovered(start, s.disk), spec.durable)
         && spec.current == spec.durable
       case Recovering(found, k) =>
         && |found| == |s.disk| && GoodDisk(start, found) && k <= |RecoveryWrites(start, found)|
         && s.disk == Apply(found, RecoveryWrites(start, found)[..k])
         && SameHome(start, Recovered(start, found), spec.durable) && spec.current == spec.durable
  }

  lemma NextDefined(start: nat, s: State, spec: Spec)
    requires Inv(start, s, spec)
    ensures Defined(start, s)
  {
  }

  /** Whatever the state, recovery from the disk as it is now yields the durable contents. */
  lemma {:induction false} Recoverable(start: nat, s: State, spec: Spec)
    requires Inv(start, s, spec)
    ensures GoodDisk(start, s.disk) && SameHome(start, Recovered(start, s.disk), spec.durable)
  {
    hide Header; hide Apply; hide CommitWrites; hide RecoveryWrites;
    match s.phase {
      case Running => RecoverEmpty(start, s.disk, spec.durable);
      case Committing(base, k, _) => CrashInCommit(start, base, s.lh, s.view, k, s.disk);
      case Down =>
      case Recovering(found, k) => RecoveryAfterCrash(start, found, k);
    }
  }

  // ---------------------------------------------------------------- every step keeps the invariant

  ghost predicate Kept(start: nat, s: State, spec: Spec, step: Step)
    requires Enabled(start, s, step) && Defined(start, s)
  {
    Inv(start, ImplNext(start, s, step), SpecNext(spec, Meaning(start, s, step)))
  }

  lemma {:induction false} StoreKeepsInv(start: nat, s: State, spec: Spec, op: OpId, b: nat, data: Block)
    requires Inv(start, s, spec) && Enabled(start, s, Store(op, b, data)) && !Panics(start, s, Store(op, b, data))
    ensures Inv(start, ImplNext(start, s, Store(op, b, data)), SpecNext(spec, Update(b, data)))
  {
    hide Header; hide GoodDisk; hide Transaction; hide Exhausted;
    TransactionShape(start, s.disk, s.lh, s.view);
    TransactionExtends(start, s.disk, s.lh, s.view, b, data);
  }

  lemma {:induction false} EndOpKeepsInv(start: nat, s: State, spec: Spec, op: OpId)
    requires Inv(start, s, spec) && Enabled(start, s, EndOp(op))
    ensures Inv(start, ImplNext(start, s, EndOp(op)), spec)
  {
    hide Header; hide GoodDisk;
    assert s.disk == CrashDisk(start, s.disk, s.lh, s.view, 0);
  }

  // One more block write of a sequence takes the disk one prefix further.
  lemma ApplyOneMore(d: Disk, ws: seq<Write>, k: nat)
    requires k < |ws|
    ensures Put(Apply(d, ws[..k]), ws[k].blockno, ws[k].data) == Apply(d, ws[..k + 1])
  {
    assert ws[..k + 1][..k] == ws[..k];
  }

  lemma {:induction false} CommitWriteKeepsInv(start: nat, s: State, spec: Spec)
    requires Inv(start, s, spec) && Enabled(start, s, CommitStep) && Defined(start, s) && s.phase.k < CommitLength(s.lh)
    ensures Kept(start, s, spec, CommitStep)
  {
    hide Header; hide GoodDisk; hide Transaction; hide Apply; hide GoodHeader; hide SameHome; hide Recovered;
    ApplyOneMore(s.phase.base, CommitWrites(start, s.lh, s.view), s.phase.k);
  }

  lemma {:induction false} CommitEndKeepsInv(start: nat, s: State, spec: Spec)
    requires Inv(start, s, spec) && Enabled(start, s, CommitStep) && Defined(start, s) && s.phase.k >= CommitLength(s.lh)
    ensures Kept(start, s, spec, CommitStep)
  {
    hide Header; hide GoodDisk; hide Transaction; hide Apply; hide GoodHeader;
    var base := s.phase.base;
    CommitComplete(start, base, s.lh, s.view);
    if s.lh == [] { CrashBeforeHeader(start, base, s.lh, s.view, 0); }
    FreshTransaction(start, s.disk);
  }

  lemma FreshTransaction(start: nat, d: Disk)
    requires GoodDisk(start, d) && Header(d[start]) == []
    ensures Transaction(start, d, [], d)
  {
  }

  lemma {:induction false} RecoverStepKeepsInv(start: nat, s: State, spec: Spec)
    requires Inv(start, s, spec) && Enabled(start, s, RecoverStep) && Defined(start, s)
    ensures Kept(start, s, spec, RecoverStep)
  {
    hide Header; hide GoodDisk; hide Transaction; hide Apply; hide GoodHeader;
    var found, k := s.phase.found, s.phase.k;
    var ws := RecoveryWrites(start, found);
    if k < |ws| {
      ApplyOneMore(found, ws, k);
    } else {
      assert ws[..k] == ws;
      RecoveredContents(start, found);
      Recoverable(start, s, spec);
      FreshTransaction(start, s.disk);
    }
  }

  /** Every step of every operation, commit, crash and recovery keeps the invariant. */
  lemma {:induction false} StepKeepsInv(start: nat, s: State, spec: Spec, step: Step)
    requires Inv(start, s, spec) && Enabled(start, s, step) && Defined(start, s)
    ensures Inv(start, ImplNext(start, s, step), SpecNext(spec, Meaning(start, s, step)))
  {
    hide Header; hide GoodDisk; hide Transaction; hide GoodHeader; hide Recovered; hide CommitWrites; hide Panics;
    Recoverable(start, s, spec);
    match step {
      case BeginOp(op) =>
      case Store(op, b, data) => if !Panics(start, s, step) { StoreKeepsInv(start, s, spec, op, b, data); }
      case Take(b) =>
      case Drop(b) =>
      case CommitRead =>
      case EndOp(op) => EndOpKeepsInv(start, s, spec, op);
      case CommitStep =>
        if s.phase.k < CommitLength(s.lh) { CommitWriteKeepsInv(start, s, spec); } else { CommitEndKeepsInv(start, s, spec); }
      case Crash =>
      case Reboot =>
      case RecoverStep => RecoverStepKeepsInv(start, s, spec);
    }
  }

  // ---------------------------------------------------------------- whole runs

  // A run: the states passed through and the step taken between neighbours.
  ghost predicate Run(start: nat, states: seq<State>, specs: seq<Spec>, steps: seq<Step>) {
    && |states| == |specs| == |steps| + 1
    && Initial(start, states[0], specs[0])
    && forall i :: 0 <= i < |steps| ==> Related(start, states[i], specs[i], steps[i], states[i + 1], specs[i + 1])
  }

  ghost predicate Initial(start: nat, s: State, spec: Spec) {
    && Transaction(start, s.disk, [], s.disk)
    && s == State(s.disk, s.disk, [], map[], multiset{}, Running) && spec == Spec(s.disk, s.disk)
  }

  ghost predicate Related(start: nat, s: State, spec: Spec, step: Step, s': State, spec': Spec) {
    && Enabled(start, s, step) && Defined(start, s)
    && s' == ImplNext(start, s, step) && spec' == SpecNext(spec, Meaning(start, s, step))
  }

  lemma InitialInv(start: nat, s: State, spec: Spec)
    requires Initial(start, s, spec)
    ensures Inv(start, s, spec)
  {
  }

  lemma {:induction false} RunKeepsInv(start: nat, states: seq<State>, specs: seq<Spec>, steps: seq<Step>, i: nat)
    requires Run(start, states, specs, steps) && i <= |steps|
    ensures Inv(start, states[i], specs[i])
  {
    hide Header; hide GoodDisk; hide ImplNext; hide Meaning; hide Enabled; hide SpecNext;
    if i == 0 {
      InitialInv(start, states[0], specs[0]);
    } else {
      RunKeepsInv(start, states, specs, steps, i - 1);
      assert Related(start, states[i - 1], specs[i - 1], steps[i - 1], states[i], specs[i]);
      StepKeepsInv(start, states[i - 1], specs[i - 1], steps[i - 1]);
    }
  }

  // What operations see, and when the durable contents may change.
  lemma InvMeans(start: nat, s: State, spec: Spec)
    requires Inv(start, s, spec)
    ensures s.phase.Running? ==> SameHome(start, s.view, spec.current)
    ensures s.phase.Running? && s.lh == [] ==> SameHome(start, spec.current, spec.durable)
    ensures s.phase.Committing? ==> s.left == map[]
  {
    hide Header; hide GoodDisk; hide CommitWrites; hide RecoveryWrites; hide Apply; hide Recovered;
  }

  /**
    All-or-nothing over every run, with any number of crashes and of crashes during
    recovery: at each moment the disk recovers exactly to the durable contents of the
    specification, operations see exactly its current contents, and the durable
    contents change only in one step, to the current ones, when no operation is under way.
   */
  lemma {:induction false} EveryRunIsAtomic(start: nat, states: seq<State>, specs: seq<Spec>, steps: seq<Step>, i: nat)
    requires Run(start, states, specs, steps) && i <= |steps|
    ensures GoodDisk(start, states[i].disk)
    ensures SameHome(start, Recovered(start, states[i].disk), specs[i].durable)
    ensures states[i].phase.Running? ==> SameHome(start, states[i].view, specs[i].current)
    ensures states[i].phase.Running? && states[i].lh == [] ==> SameHome(start, specs[i].current, specs[i].durable)
    ensures i < |steps| && specs[i + 1].durable != specs[i].durable ==>
      specs[i + 1].durable == specs[i].current && states[i].left == map[]
  {
    hide Inv; hide GoodDisk; hide SameHome; hide ImplNext; hide Recovered; hide GoodHeader; hide Transaction;
    RunKeepsInv(start, states, specs, steps, i);
    Recoverable(start, states[i], specs[i]);
    InvMeans(start, states[i], specs[i]);
    if i < |steps| {
      assert Related(start, states[i], specs[i], steps[i], states[i + 1], specs[i + 1]);
    }
  }

  // ---------------------------------------------------------------- log space

  /** What begin_op reserves: entries in the log plus those still promised fit in it. */
  ghost predicate Reserved(s: State) {
    && s.phase.Running? ==> |s.lh| + Sum(s.left) <= LOGBLOCKS && forall op :: op in s.left ==> s.left[op] <= MAXOPBLOCKS
  }

  lemma ReserveBegin(lh: seq<nat>, left: map<OpId, nat>, op: OpId)
    requires |lh| + (|left| + 1) * MAXOPBLOCKS <= LOGBLOCKS && op !in left
    requires forall o :: o in left ==> left[o] <= MAXOPBLOCKS
    ensures |lh| + Sum(left[op := MAXOPBLOCKS]) <= LOGBLOCKS
  {
    hide Sum;
    SumBound(left, MAXOPBLOCKS);
    SumUpdate(left, op, MAXOPBLOCKS);
    assert left - {op} == left;
  }

  lemma ReserveUse(left: map<OpId, nat>, op: OpId)
    requires op in left && left[op] > 0
    ensures Sum(left[op := left[op] - 1]) == Sum(left) - 1
  {
    hide Sum;
    SumRemove(left, op);
    SumUpdate(left, op, left[op] - 1);
  }

  lemma {:induction false} StepKeepsReserved(start: nat, s: State, step: Step)
    requires Enabled(start, s, step) && Defined(start, s) && Reserved(s) && (s.phase.Committing? ==> s.left == map[])
    ensures Reserved(ImplNext(start, s, step))
  {
    hide GoodDisk; hide GoodHeader; hide Sum; hide CommitWrites; hide RecoveryWrites; hide Panics; hide Put; hide InLog;
    match step {
      case BeginOp(op) => ReserveBegin(s.lh, s.left, op);
      case Store(op, b, data) => if b !in s.lh { ReserveUse(s.left, op); }
      case EndOp(op) => SumRemove(s.left, op);
      case _ => SumNone();
    }
  }

  /**
    Log space never runs out: a store of a block not yet logged always finds a slot.
    A store panics exactly when its block is already in the log and the log is full,
    since log_write tests for space before it looks for the block, or when its block
    has no buffer and all of them are referenced.
   */
  lemma {:induction false} StorePanicsExactly(start: nat, states: seq<State>, specs: seq<Spec>, steps: seq<Step>, i: nat)
    requires Run(start, states, specs, steps) && i < |steps| && steps[i].Store?
    ensures steps[i].b !in states[i].lh ==> |states[i].lh| < LOGBLOCKS
    ensures states[i + 1].phase.Down? <==>
      || (steps[i].b in states[i].lh && |states[i].lh| == LOGBLOCKS)
      || Exhausted(start, states[i], steps[i].b)
  {
    hide Exhausted;
    RunKeepsReserved(start, states, specs, steps, i);
    assert Related(start, states[i], specs[i], steps[i], states[i + 1], specs[i + 1]);
    SumRemove(states[i].left, steps[i].op);
  }

  lemma {:induction false} RunKeepsReserved(start: nat, states: seq<State>, specs: seq<Spec>, steps: seq<Step>, i: nat)
    requires Run(start, states, specs, steps) && i <= |steps|
    ensures Reserved(states[i])
  {
    hide Header; hide GoodDisk; hide ImplNext; hide Meaning; hide Enabled; hide SpecNext; hide Inv; hide Transaction;
    if i > 0 {
      RunKeepsReserved(start, states, specs, steps, i - 1);
      RunKeepsInv(start, states, specs, steps, i - 1);
      assert Related(start, states[i - 1], specs[i - 1], steps[i - 1], states[i], specs[i]);
      InvMeans(start, states[i - 1], specs[i - 1]);
      StepKeepsReserved(start, states[i - 1], steps[i - 1]);
    }
  }

  // ---------------------------------------------------------------- operations that write fewer blocks

  /** The blocks that operation op has stored since it began, in the first i steps. */
  ghost function Stored(steps: seq<Step>, i: nat, op: OpId): set<nat>
    requires i <= |steps|
  {
    if i == 0 then {}
    else match steps[i - 1]
      case BeginOp(o) => if o == op then {} else Stored(steps, i - 1, op)
      case Store(o, b, _) => if o == op then Stored(steps, i - 1, op) + {b} else Stored(steps, i - 1, op)
      case _ => Stored(steps, i - 1, op)
  }

  ghost predicate Modest(steps: seq<Step>, m: nat) {
    forall i, op :: 0 <= i <= |steps| ==> |Stored(steps, i, op)| <= m
  }

  // What an operation has used up of its reservation is at most the blocks it has stored.
  ghost predicate Accounted(s: State, stored: set<nat>, op: OpId) {
    op in s.left ==> (forall b :: b in stored ==> b in s.lh) && MAXOPBLOCKS <= s.left[op] + |stored|
  }

  lemma StoreAccounted(start: nat, s: State, spec: Spec, step: Step, s': State, spec': Spec, stored: set<nat>, op: OpId)
    requires Related(start, s, spec, step, s', spec') && Accounted(s, stored, op)
    requires s.phase.Committing? ==> s.left == map[]
    ensures Accounted(s', if step == BeginOp(op) then {} else if step.Store? && step.op == op then stored + {step.b} else stored, op)
  {
    hide GoodDisk; hide GoodHeader; hide CommitWrites; hide RecoveryWrites; hide InLog; hide SpecNext; hide Meaning; hide Panics; hide Put;
    if step.Store? && step.op == op && step.b in stored {
      assert stored + {step.b} == stored;
    }
  }

  lemma NoneAccounted(s: State, op: OpId)
    requires s.left == map[]
    ensures Accounted(s, {}, op)
  {
  }

  lemma {:induction false} RunAccounted(start: nat, states: seq<State>, specs: seq<Spec>, steps: seq<Step>, i: nat, op: OpId)
    requires Run(start, states, specs, steps) && i <= |steps|
    ensures Accounted(states[i], Stored(steps, i, op), op)
  {
    hide Related; hide Inv; hide Transaction; hide Accounted;
    if i == 0 {
      NoneAccounted(states[0], op);
    } else {
      RunAccounted(start, states, specs, steps, i - 1, op);
      RunKeepsInv(start, states, specs, steps, i - 1);
      InvMeans(start, states[i - 1], specs[i - 1]);
      assert Related(start, states[i - 1], specs[i - 1], steps[i - 1], states[i], specs[i]);
      StoreAccounted(start, states[i - 1], specs[i - 1], steps[i - 1], states[i], specs[i], Stored(steps, i - 1, op), op);
    }
  }

  /**
    Two reservations are never used up: while operations run, the log and what they may
    still add to it leave MAXOPBLOCKS - m slots free for each of two.  begin_op lets a
    second operation in only beside a full reservation of the first, and a lone operation
    starts with an empty log.
   */
  ghost predicate Spread(s: State, m: nat)
    requires m <= MAXOPBLOCKS
  {
    && (s.phase.Running? && s.left == map[] ==> s.lh == [])
    && (s.phase.Running? && s.left != map[] ==> |s.lh| + Sum(s.left) <= LOGBLOCKS + Slack(|s.left|, MAXOPBLOCKS - m))
    && (s.phase.Committing? ==> |s.lh| <= LOGBLOCKS - 2 * (MAXOPBLOCKS - m))
    && (s.phase.Down? || s.phase.Recovering? ==> s.lh == [])
  }

  function Slack(a: nat, c: nat): int {
    (a - 2) * c
  }

  lemma SlackMore(a: nat, c: nat)
    ensures Slack(a + 1, c) == Slack(a, c) + c && Slack(1, c) == 0 - c && Slack(0, c) == 0 - 2 * c && (a >= 2 ==> Slack(a, c) >= 0)
  {
  }

  lemma SpreadBegin(s: State, op: OpId, m: nat)
    requires m <= MAXOPBLOCKS && Spread(s, m) && Reserved(s) && Admits(s) && op !in s.left
    ensures |s.lh| + Sum(s.left[op := MAXOPBLOCKS]) <= LOGBLOCKS + Slack(|s.left[op := MAXOPBLOCKS]|, MAXOPBLOCKS - m)
  {
    hide Sum; hide Slack;
    ReserveBegin(s.lh, s.left, op);
    assert |s.left[op := MAXOPBLOCKS]| == |s.left| + 1;
    SlackMore(|s.left| + 1, MAXOPBLOCKS - m);
    if s.left == map[] {
      SumNone();
      SumUpdate(s.left, op, MAXOPBLOCKS);
      assert s.left - {op} == s.left;
    }
  }

  lemma SpreadEnd(s: State, op: OpId, m: nat)
    requires m <= MAXOPBLOCKS && Spread(s, m) && s.phase.Running? && op in s.left && s.left[op] >= MAXOPBLOCKS - m
    ensures var left := s.left - {op};
      && |s.lh| + Sum(left) <= LOGBLOCKS + Slack(|left|, MAXOPBLOCKS - m)
      && (|left| == 0 ==> |s.lh| <= LOGBLOCKS - 2 * (MAXOPBLOCKS - m))
  {
    hide Sum; hide Slack;
    var left := s.left - {op};
    SumRemove(s.left, op);
    assert s.left.Keys - {op} == left.Keys;
    SlackMore(|left|, MAXOPBLOCKS - m);
    if |left| == 0 {
      assert left == map[];
      SumNone();
    }
  }

  lemma {:induction false} StepKeepsSpread(start: nat, s: State, step: Step, m: nat)
    requires Enabled(start, s, step) && Defined(start, s) && Reserved(s) && m <= MAXOPBLOCKS && Spread(s, m)
    requires s.phase.Committing? ==> s.left == map[]
    requires step.EndOp? ==> s.left[step.op] >= MAXOPBLOCKS - m
    ensures Spread(ImplNext(start, s, step), m)
  {
    hide GoodDisk; hide GoodHeader; hide Sum; hide CommitWrites; hide RecoveryWrites; hide Panics; hide Put; hide InLog; hide Reserved; hide Slack;
    match step {
      case BeginOp(op) => SpreadBegin(s, op, m);
      case Store(op, b, data) => if b !in s.lh { ReserveUse(s.left, op); }
      case EndOp(op) => SpreadEnd(s, op, m);
      case _ =>
    }
  }

  lemma {:induction false} RunKeepsSpread(start: nat, states: seq<State>, specs: seq<Spec>, steps: seq<Step>, m: nat, i: nat)
    requires Run(start, states, specs, steps) && i <= |steps| && Modest(steps, m) && m <= MAXOPBLOCKS
    ensures Spread(states[i], m)
  {
    hide Header; hide GoodDisk; hide ImplNext; hide Meaning; hide SpecNext; hide Inv; hide Transaction; hide Stored; hide Reserved;
    if i > 0 {
      var s, step := states[i - 1], steps[i - 1];
      RunKeepsSpread(start, states, specs, steps, m, i - 1);
      RunKeepsReserved(start, states, specs, steps, i - 1);
      RunKeepsInv(start, states, specs, steps, i - 1);
      assert Related(start, s, specs[i - 1], step, states[i], specs[i]);
      InvMeans(start, s, specs[i - 1]);
      if step.EndOp? {
        RunAccounted(start, states, specs, steps, i - 1, step.op);
        assert |Stored(steps, i - 1, step.op)| <= m;
      }
      StepKeepsSpread(start, s, step, m);
    }
  }

  /**
    If no operation writes more than m distinct blocks, at least 2 * (MAXOPBLOCKS - m)
    slots of the log stay unused, at every moment of every run.
   */
  lemma {:induction false} UnusedSlots(start: nat, states: seq<State>, specs: seq<Spec>, steps: seq<Step>, m: nat, i: nat)
    requires Run(start, states, specs, steps) && i <= |steps| && Modest(steps, m) && m <= MAXOPBLOCKS
    ensures |states[i].lh| <= LOGBLOCKS - 2 * (MAXOPBLOCKS - m)
  {
    hide Related; hide Inv; hide Transaction; hide Stored; hide Sum;
    var s, c: nat := states[i], MAXOPBLOCKS - m;
    RunKeepsSpread(start, states, specs, steps, m, i);
    if s.phase.Running? && s.left != map[] {
      forall op | op in s.left
        ensures s.left[op] >= c
      {
        RunAccounted(start, states, specs, steps, i, op);
        assert |Stored(steps, i, op)| <= m;
      }
      SumAtLeast(s.left, c);
      assert (|s.left| - 2) * c == c * |s.left| - 2 * c;
    }
  }

  lemma {:induction false} SumAtLeast(left: map<OpId, nat>, c: nat)
    requires forall op :: op in left ==> left[op] >= c
    ensures Sum(left) >= c * |left|
    decreases |left|
  {
    hide Sum;
    SumNone();
    if left != map[] {
      var k :| k in left;
      SumRemove(left, k);
      SumAtLeast(left - {k}, c);
      assert left.Keys - {k} == (left - {k}).Keys;
      assert c * |left| == c * (|left| - 1) + c;
    }
  }

  // ---------------------------------------------------------------- when nothing panics

  // The blocks that processes hold outside the log.
  ghost function Outside(s: State): set<nat> {
    set b | b in s.held && b !in s.lh
  }

  // Processes hold, or are about to read, at most h blocks outside the log.
  ghost predicate Polite(s: State, step: Step, h: nat) {
    |Outside(s) + (if step.Take? && step.b !in s.lh then {step.b} else {})| <= h
  }

  ghost predicate AllPolite(states: seq<State>, steps: seq<Step>, h: nat) {
    |states| == |steps| + 1 && forall i :: 0 <= i < |steps| ==> Polite(states[i], steps[i], h)
  }

  // The referenced blocks are in the log, outside it, or the commit's own.
  lemma ReferencedSize(start: nat, s: State, x: set<nat>)
    requires x <= Elements(s.lh) + Outside(s) && x !! Referenced(start, s)
    ensures |Referenced(start, s)| + |x| <= |s.lh| + |Outside(s)| + (if s.phase.Committing? && s.phase.got then 1 else 0)
  {
    hide Elements;
    var own := if s.phase.Committing? && s.phase.got then {LogBlock(start, |s.lh|, s.phase.k)} else {};
    var all := Elements(s.lh) + Outside(s);
    PinsInLog(s);
    assert Pins(s) + Held(s) <= all;
    SubsetSize(Pins(s) + Held(s) + x, all);
    assert |Pins(s) + Held(s) + x| == |Pins(s) + Held(s)| + |x|;
    ElementsSize(s.lh);
    UnionSize(Elements(s.lh), Outside(s));
    UnionSize(Pins(s) + Held(s), own);
  }

  lemma PinsInLog(s: State)
    ensures Pins(s) <= Elements(s.lh)
  {
    hide Elements;
  }

  lemma {:induction false} NoPanic(start: nat, s: State, step: Step, h: nat)
    requires Enabled(start, s, step) && Polite(s, step, h) && |s.lh| + h < NBUF
    ensures !Panics(start, s, step)
  {
    hide Elements; hide Referenced; hide Held; hide InLog;
    match step {
      case Take(b) =>
        if Exhausted(start, s, b) {
          if b in s.lh {
            ReferencedSize(start, s, {b});
            SubsetSize(Outside(s), Outside(s) + {});
          } else {
            ReferencedSize(start, s, {});
            NotHeld(start, s, b);
          }
        }
      case Store(op, b, data) => ReferencedSize(start, s, {});
      case CommitRead => ReferencedSize(start, s, {});
      case _ =>
    }
  }

  lemma NotHeld(start: nat, s: State, b: nat)
    requires b !in Referenced(start, s)
    ensures b !in Outside(s) && |Outside(s) + {b}| == |Outside(s)| + 1
  {
    hide Pins;
    assert b !in Held(s);
  }

  /**
    With at most m distinct blocks per operation, nothing panics as long as processes hold
    fewer than 2 * (MAXOPBLOCKS - m) blocks outside the log: only a crash stops the machine.
   */
  lemma {:induction false} NothingPanics(start: nat, states: seq<State>, specs: seq<Spec>, steps: seq<Step>, m: nat, h: nat, i: nat)
    requires Run(start, states, specs, steps) && i < |steps| && Modest(steps, m) && AllPolite(states, steps, h)
    requires m <= MAXOPBLOCKS && h < 2 * (MAXOPBLOCKS - m)
    ensures !Panics(start, states[i], steps[i])
    ensures !states[i].phase.Down? && !steps[i].Crash? ==> !states[i + 1].phase.Down?
  {
    hide GoodDisk; hide GoodHeader; hide CommitWrites; hide RecoveryWrites; hide SpecNext; hide Meaning; hide Modest; hide Transaction;
    hide Polite; hide Panics;
    UnusedSlots(start, states, specs, steps, m, i);
    assert Related(start, states[i], specs[i], steps[i], states[i + 1], specs[i + 1]);
    NoPanic(start, states[i], steps[i], h);
  }

  // ---------------------------------------------------------------- and when something does

  datatype History = History(states: seq<State>, specs: seq<Spec>, steps: seq<Step>)

  ghost predicate RunOf(start: nat, h: History) {
    Run(start, h.states, h.specs, h.steps)
  }

  ghost function Last(h: History): State
    requires |h.states| > 0
  {
    h.states[|h.states| - 1]
  }

  ghost function Extended(start: nat, h: History, step: Step): (r: History)
    requires RunOf(start, h) && Enabled(start, Last(h), step) && Last(h).phase.Running?
    ensures RunOf(start, r) && Last(r) == ImplNext(start, Last(h), step)
    ensures r.states == h.states + [Last(r)] && r.steps == h.steps + [step]
  {
    var s, spec := Last(h), h.specs[|h.specs| - 1];
    var s', spec' := ImplNext(start, s, step), SpecNext(spec, Meaning(start, s, step));
    var r := History(h.states + [s'], h.specs + [spec'], h.steps + [step]);
    assert forall i :: 0 <= i < |r.steps| ==> Related(start, r.states[i], r.specs[i], r.steps[i], r.states[i + 1], r.specs[i + 1]) by {
      hide ImplNext; hide SpecNext; hide Meaning; hide Enabled;
      forall i | 0 <= i < |r.steps|
        ensures Related(start, r.states[i], r.specs[i], r.steps[i], r.states[i + 1], r.specs[i + 1])
      {
        if i < |h.steps| {
          assert Related(start, h.states[i], h.specs[i], h.steps[i], h.states[i + 1], h.specs[i + 1]);
        }
      }
    }
    r
  }

  lemma {:induction false} StoredPrefix(steps: seq<Step>, step: Step, i: nat, op: OpId)
    requires i <= |steps|
    ensures Stored(steps + [step], i, op) == Stored(steps, i, op)
  {
    if i > 0 {
      StoredPrefix(steps, step, i - 1, op);
    }
  }

  // A run within m blocks per operation and h blocks held, and the reservations show it.
  ghost predicate Fair(start: nat, r: History, m: nat, h: nat) {
    && RunOf(start, r) && Modest(r.steps, m) && AllPolite(r.states, r.steps, h)
    && forall op :: op in Last(r).left ==> |Stored(r.steps, |r.steps|, op)| + Last(r).left[op] <= MAXOPBLOCKS
  }

  lemma Grow(start: nat, r: History, step: Step, m: nat, h: nat) returns (r': History)
    requires Fair(start, r, m, h) && Last(r).phase.Running? && Enabled(start, Last(r), step) && !Panics(start, Last(r), step)
    requires Polite(Last(r), step, h)
    requires step.Store? ==> step.b !in Last(r).lh && Last(r).left[step.op] + m > MAXOPBLOCKS
    ensures Fair(start, r', m, h) && Last(r') == ImplNext(start, Last(r), step)
  {
    hide Run; hide Panics; hide Polite; hide InLog; hide Put; hide Modest; hide AllPolite; hide Stored;
    r' := Extended(start, r, step);
    GrowPolite(r, step, r', h);
    var n := |r.steps|;
    GrowModest(r.steps, step, m);
    forall op | op in Last(r').left
      ensures |Stored(r'.steps, n + 1, op)| + Last(r').left[op] <= MAXOPBLOCKS
    {
      StoredNow(r.steps, step, op);
    }
  }

  lemma StoredNow(steps: seq<Step>, step: Step, op: OpId)
    ensures Stored(steps + [step], |steps| + 1, op) ==
      var was := Stored(steps, |steps|, op);
      if step == BeginOp(op) then {} else if step.Store? && step.op == op then was + {step.b} else was
  {
    StoredPrefix(steps, step, |steps|, op);
  }

  lemma GrowModest(steps: seq<Step>, step: Step, m: nat)
    requires Modest(steps, m) && (step.Store? ==> |Stored(steps, |steps|, step.op)| < m)
    ensures Modest(steps + [step], m)
  {
    hide Stored;
    forall i, op | 0 <= i <= |steps| + 1
      ensures |Stored(steps + [step], i, op)| <= m
    {
      if i <= |steps| {
        StoredPrefix(steps, step, i, op);
      } else {
        StoredNow(steps, step, op);
        assert |Stored(steps, |steps|, op)| <= m;
      }
    }
  }

  lemma GrowPolite(r: History, step: Step, r': History, h: nat)
    requires AllPolite(r.states, r.steps, h) && Polite(Last(r), step, h) && |r'.states| > 0
    requires r'.states == r.states + [Last(r')] && r'.steps == r.steps + [step]
    ensures AllPolite(r'.states, r'.steps, h)
  {
    hide Polite;
  }

  // Blocks just past the log, in order.
  function Past(start: nat, n: nat): (r: seq<nat>)
    ensures |r| == n && forall i :: 0 <= i < n ==> r[i] == start + LOGBLOCKS + 1 + i
  {
    seq(n, i => start + LOGBLOCKS + 1 + i)
  }

  lemma PastMore(start: nat, n: nat)
    ensures Past(start, n + 1) == Past(start, n) + [start + LOGBLOCKS + 1 + n]
    ensures start + LOGBLOCKS + 1 + n !in Past(start, n) && |Elements(Past(start, n))| == n
  {
    hide Past; hide Elements;
    DistinctSize(Past(start, n));
  }

  lemma PastElements(start: nat, n: nat)
    ensures Elements(Past(start, n)) == Range(start + LOGBLOCKS + 1, n)
  {
    hide Past; hide Elements; hide Range;
    forall x: nat | start + LOGBLOCKS + 1 <= x < start + LOGBLOCKS + 1 + n
      ensures x in Past(start, n)
    {
      assert Past(start, n)[x - (start + LOGBLOCKS + 1)] == x;
    }
  }

  // Between steps of the run: n blocks logged, nobody holds any.
  ghost predicate At(start: nat, d: Disk, s: State, n: nat, left: map<OpId, nat>) {
    && s.phase.Running? && s.lh == Past(start, n) && s.left == left && s.held == multiset{} && |s.disk| == |d|
    && start + 2 * LOGBLOCKS < |d| <= UINT
  }

  lemma AtPolite(start: nat, d: Disk, s: State, n: nat, left: map<OpId, nat>, step: Step)
    requires At(start, d, s, n, left) && n <= LOGBLOCKS && !step.Take?
    ensures Polite(s, step, 0) && |Referenced(start, s)| == n
  {
    hide Past; hide Elements;
    PastMore(start, n);
    assert Outside(s) == {} && Held(s) == {};
  }

  lemma AtBegin(start: nat, d: Disk, r: History, n: nat, left: map<OpId, nat>, op: OpId, m: nat, h: nat) returns (r': History)
    requires Fair(start, r, m, h) && At(start, d, Last(r), n, left)
    requires op !in left && n + (|left| + 1) * MAXOPBLOCKS <= LOGBLOCKS
    ensures Fair(start, r', m, h) && At(start, d, Last(r'), n, left[op := MAXOPBLOCKS])
  {
    hide Fair; hide Polite;
    FairRun(start, r, m, h);
    AtPolite(start, d, Last(r), n, left, BeginOp(op));
    MorePolite(Last(r), BeginOp(op), h);
    r' := Grow(start, r, BeginOp(op), m, h);
  }

  lemma FairRun(start: nat, r: History, m: nat, h: nat)
    requires Fair(start, r, m, h)
    ensures RunOf(start, r) && |r.states| > 0
  {
  }

  lemma MorePolite(s: State, step: Step, h: nat)
    requires Polite(s, step, 0)
    ensures Polite(s, step, h)
  {
  }

  lemma AtStore(start: nat, d: Disk, r: History, n: nat, left: map<OpId, nat>, op: OpId, m: nat, h: nat) returns (r': History)
    requires Fair(start, r, m, h) && At(start, d, Last(r), n, left) && n < LOGBLOCKS
    requires op in left && left[op] > 0 && left[op] + m > MAXOPBLOCKS
    ensures Fair(start, r', m, h) && At(start, d, Last(r'), n + 1, left[op := left[op] - 1])
  {
    hide Fair; hide Polite; hide Referenced; hide Past; hide Elements;
    var step := Store(op, start + LOGBLOCKS + 1 + n, Zeroes);
    FairRun(start, r, m, h);
    PastMore(start, n);
    AtPolite(start, d, Last(r), n, left, step);
    MorePolite(Last(r), step, h);
    r' := Grow(start, r, step, m, h);
  }

  lemma AtEnd(start: nat, d: Disk, r: History, n: nat, left: map<OpId, nat>, op: OpId, m: nat, h: nat) returns (r': History)
    requires Fair(start, r, m, h) && At(start, d, Last(r), n, left) && n <= LOGBLOCKS
    requires op in left && |left| > 1
    ensures Fair(start, r', m, h) && At(start, d, Last(r'), n, left - {op})
  {
    hide Fair; hide Polite;
    FairRun(start, r, m, h);
    AtPolite(start, d, Last(r), n, left, EndOp(op));
    MorePolite(Last(r), EndOp(op), h);
    assert left.Keys - {op} == (left - {op}).Keys;
    r' := Grow(start, r, EndOp(op), m, h);
  }

  // Beside operation 0, which has not written yet, others write a block each, one after the other.
  lemma {:induction false} OneByOne(start: nat, d: Disk, m: nat, n: nat) returns (r: History)
    requires Transaction(start, d, [], d) && start + 2 * LOGBLOCKS < |d| <= UINT && 1 <= m <= MAXOPBLOCKS && n <= MAXOPBLOCKS
    ensures Fair(start, r, m, 2 * (MAXOPBLOCKS - m)) && At(start, d, Last(r), n, map[0 := MAXOPBLOCKS])
  {
    hide Fair; hide At; hide Transaction;
    if n == 0 {
      r := Start(start, d, m);
      r := AtBegin(start, d, r, 0, map[], 0, m, 2 * (MAXOPBLOCKS - m));
    } else {
      r := OneByOne(start, d, m, n - 1);
      r := AtBegin(start, d, r, n - 1, map[0 := MAXOPBLOCKS], 2, m, 2 * (MAXOPBLOCKS - m));
      r := AtStore(start, d, r, n - 1, map[0 := MAXOPBLOCKS][2 := MAXOPBLOCKS], 2, m, 2 * (MAXOPBLOCKS - m));
      r := AtEnd(start, d, r, n, map[0 := MAXOPBLOCKS][2 := MAXOPBLOCKS][2 := MAXOPBLOCKS - 1], 2, m, 2 * (MAXOPBLOCKS - m));
      assert map[0 := MAXOPBLOCKS][2 := MAXOPBLOCKS][2 := MAXOPBLOCKS - 1] - {2} == map[0 := MAXOPBLOCKS];
    }
  }

  lemma Start(start: nat, d: Disk, m: nat) returns (r: History)
    requires Transaction(start, d, [], d) && start + 2 * LOGBLOCKS < |d| <= UINT && m <= MAXOPBLOCKS
    ensures Fair(start, r, m, 2 * (MAXOPBLOCKS - m)) && At(start, d, Last(r), 0, map[])
  {
    r := History([State(d, d, [], map[], multiset{}, Running)], [Spec(d, d)], []);
  }

  // What is left to operations 0 and 1 when t blocks have been written, m by each in turn.
  function Two(m: nat, t: nat): map<OpId, nat>
    requires m <= MAXOPBLOCKS && t <= 2 * m
  {
    if t <= m then map[0 := MAXOPBLOCKS - t, 1 := MAXOPBLOCKS] else map[0 := MAXOPBLOCKS - m, 1 := MAXOPBLOCKS - (t - m)]
  }

  lemma {:induction false} TwoTogether(start: nat, d: Disk, m: nat, t: nat) returns (r: History)
    requires Transaction(start, d, [], d) && start + 2 * LOGBLOCKS < |d| <= UINT && 1 <= m <= MAXOPBLOCKS && t <= 2 * m
    ensures Fair(start, r, m, 2 * (MAXOPBLOCKS - m)) && At(start, d, Last(r), MAXOPBLOCKS + t, Two(m, t))
  {
    hide Fair; hide At; hide Transaction;
    if t == 0 {
      r := OneByOne(start, d, m, MAXOPBLOCKS);
      r := AtBegin(start, d, r, MAXOPBLOCKS, map[0 := MAXOPBLOCKS], 1, m, 2 * (MAXOPBLOCKS - m));
      assert map[0 := MAXOPBLOCKS][1 := MAXOPBLOCKS] == Two(m, 0);
    } else {
      r := TwoTogether(start, d, m, t - 1);
      var op := if t <= m then 0 else 1;
      r := AtStore(start, d, r, MAXOPBLOCKS + t - 1, Two(m, t - 1), op, m, 2 * (MAXOPBLOCKS - m));
      assert Two(m, t - 1)[op := Two(m, t - 1)[op] - 1] == Two(m, t);
    }
  }

  // Readers hold k more blocks, next to the n logged ones.
  ghost predicate Reading(start: nat, d: Disk, s: State, n: nat, k: nat, left: map<OpId, nat>) {
    && s.phase.Running? && s.lh == Past(start, n) && s.left == left && |s.disk| == |d| && start + 2 * LOGBLOCKS < |d| <= UINT
    && Outside(s) == Range(start + LOGBLOCKS + 1 + n, k) && Held(s) == Outside(s)
  }

  lemma ReadingSize(start: nat, d: Disk, s: State, n: nat, k: nat, left: map<OpId, nat>)
    requires Reading(start, d, s, n, k, left) && n + k <= LOGBLOCKS
    ensures Referenced(start, s) == Range(start + LOGBLOCKS + 1, n + k) && |Referenced(start, s)| == n + k && |Outside(s)| == k
  {
    hide Past; hide Elements; hide Range;
    PastElements(start, n);
    assert Referenced(start, s) == Range(start + LOGBLOCKS + 1, n) + Range(start + LOGBLOCKS + 1 + n, k);
  }

  lemma {:induction false} Readers(start: nat, d: Disk, m: nat, k: nat) returns (r: History)
    requires Transaction(start, d, [], d) && start + 2 * LOGBLOCKS < |d| <= UINT && 1 <= m <= MAXOPBLOCKS && k <= 2 * (MAXOPBLOCKS - m)
    ensures Fair(start, r, m, 2 * (MAXOPBLOCKS - m)) && Reading(start, d, Last(r), MAXOPBLOCKS + 2 * m, k, Two(m, 2 * m))
  {
    hide Fair; hide Transaction; hide Reading; hide Past; hide Panics; hide Polite; hide Enabled; hide ImplNext; hide Defined;
    var n := MAXOPBLOCKS + 2 * m;
    if k == 0 {
      r := TwoTogether(start, d, m, 2 * m);
      FairRun(start, r, m, 2 * (MAXOPBLOCKS - m));
      NobodyReads(start, d, Last(r), n, Two(m, 2 * m));
    } else {
      r := Readers(start, d, m, k - 1);
      FairRun(start, r, m, 2 * (MAXOPBLOCKS - m));
      OneMoreReader(start, d, Last(r), n, k - 1, Two(m, 2 * m), 2 * (MAXOPBLOCKS - m));
      IsRunning(start, d, Last(r), n, k - 1, Two(m, 2 * m));
      r := Grow(start, r, Take(start + LOGBLOCKS + n + k), m, 2 * (MAXOPBLOCKS - m));
    }
  }

  lemma IsRunning(start: nat, d: Disk, s: State, n: nat, k: nat, left: map<OpId, nat>)
    requires Reading(start, d, s, n, k, left)
    ensures s.phase.Running? && |s.lh| == n && |s.disk| == |d| && start + 2 * LOGBLOCKS < |d|
  {
  }

  lemma NobodyReads(start: nat, d: Disk, s: State, n: nat, left: map<OpId, nat>)
    requires At(start, d, s, n, left)
    ensures Reading(start, d, s, n, 0, left)
  {
    assert Outside(s) == {} && Held(s) == {};
  }

  lemma OneMoreReader(start: nat, d: Disk, s: State, n: nat, k: nat, left: map<OpId, nat>, h: nat)
    requires Reading(start, d, s, n, k, left) && n + k < LOGBLOCKS && k < h
    ensures var step := Take(start + LOGBLOCKS + 1 + n + k);
      && Enabled(start, s, step) && Defined(start, s) && !Panics(start, s, step) && Polite(s, step, h)
      && Reading(start, d, ImplNext(start, s, step), n, k + 1, left)
  {
    hide Elements; hide Past; hide Range; hide Referenced; hide Reading; hide Outside;
    IsRunning(start, d, s, n, k, left);
    ReadingSize(start, d, s, n, k, left);
    UnionSize(Outside(s), {start + LOGBLOCKS + 1 + n + k});
    ReadingMore(start, d, s, n, k, left);
  }

  lemma ReadingMore(start: nat, d: Disk, s: State, n: nat, k: nat, left: map<OpId, nat>)
    requires Reading(start, d, s, n, k, left)
    ensures Reading(start, d, s.(held := s.held + multiset{start + LOGBLOCKS + 1 + n + k}), n, k + 1, left)
  {
    hide Elements; hide Past; hide Range;
    var b := start + LOGBLOCKS + 1 + n + k;
    var s' := s.(held := s.held + multiset{b});
    assert b !in s.lh;
    assert Outside(s') == Outside(s) + {b} && Held(s') == Held(s) + {b};
  }

  /**
    The bound of NothingPanics is sharp.  For every m there is a run of operations that
    write at most m blocks each, with 2 * (MAXOPBLOCKS - m) blocks held outside the log, in
    which the commit panics before its first write: log and readers leave it no buffer.
   */
  lemma {:induction false} ReadersPanicCommit(start: nat, d: Disk, m: nat) returns (r: History)
    requires Transaction(start, d, [], d) && start + 2 * LOGBLOCKS < |d| <= UINT && 1 <= m <= MAXOPBLOCKS
    ensures RunOf(start, r) && Modest(r.steps, m) && AllPolite(r.states, r.steps, 2 * (MAXOPBLOCKS - m))
    ensures var s := Last(r);
      && s.phase.Committing? && s.phase.k == 0 && |s.lh| == LOGBLOCKS - 2 * (MAXOPBLOCKS - m) && |Outside(s)| == 2 * (MAXOPBLOCKS - m)
      && Enabled(start, s, CommitRead) && Panics(start, s, CommitRead)
  {
    hide Transaction; hide Elements; hide Fair; hide Referenced; hide Polite; hide Past; hide Range; hide Outside; hide Panics; hide Modest; hide Run;
    hide AllPolite; hide Reading;
    var n, k, left := MAXOPBLOCKS + 2 * m, 2 * (MAXOPBLOCKS - m), Two(m, 2 * m);
    r := Readers(start, d, m, k);
    FairRun(start, r, m, k);
    ReadingSize(start, d, Last(r), n, k, left);
    IsRunning(start, d, Last(r), n, k, left);
    assert left - {0} == map[1 := MAXOPBLOCKS - m] && (left - {0}) - {1} == map[];
    var s := Last(r);
    r := Leave(start, d, r, EndOp(0), n, m, k, left, left - {0});
    r := Leave(start, d, r, EndOp(1), n, m, k, left - {0}, map[]);
    FairMeans(start, r, m, k);
    Exhausting(start, d, s, Last(r), n, k, left);
  }

  lemma FairMeans(start: nat, r: History, m: nat, h: nat)
    requires Fair(start, r, m, h)
    ensures RunOf(start, r) && Modest(r.steps, m) && AllPolite(r.states, r.steps, h)
  {
  }

  lemma Leave(start: nat, d: Disk, r: History, step: Step, n: nat, m: nat, k: nat, left: map<OpId, nat>, left': map<OpId, nat>) returns (r': History)
    requires Fair(start, r, m, k) && Reading(start, d, Last(r), n, k, left) && n + k <= LOGBLOCKS
    requires step.EndOp? && step.op in left && left' == left - {step.op}
    ensures Fair(start, r', m, k) && |r'.states| > 0
    ensures var s, s' := Last(r), Last(r'); s'.lh == s.lh && s'.held == s.held && s'.disk == s.disk && s'.left == left'
    ensures if left' == map[] then Last(r').phase == Committing(Last(r).disk, 0, false) else Reading(start, d, Last(r'), n, k, left')
  {
    hide Fair; hide Range; hide Elements;
    FairRun(start, r, m, k);
    ReadingSize(start, d, Last(r), n, k, left);
    assert Polite(Last(r), step, k) by { assert Outside(Last(r)) + {} == Outside(Last(r)); }
    assert |left'| == 0 <==> left' == map[];
    r' := Grow(start, r, step, m, k);
    FairRun(start, r', m, k);
    assert Outside(Last(r')) == Outside(Last(r)) && Held(Last(r')) == Held(Last(r));
  }

  lemma Exhausting(start: nat, d: Disk, s: State, s': State, n: nat, k: nat, left: map<OpId, nat>)
    requires Reading(start, d, s, n, k, left) && n + k == LOGBLOCKS && n > 0
    requires s'.lh == s.lh && s'.held == s.held && s'.phase.Committing? && s'.phase.k == 0 && !s'.phase.got
    ensures Outside(s') == Outside(s) && Enabled(start, s', CommitRead) && Panics(start, s', CommitRead)
  {
    hide Elements; hide Past; hide Range;
    ReadingSize(start, d, s, n, k, left);
    assert Held(s') == Held(s) && Pins(s') == Pins(s);
    assert Referenced(start, s') == Referenced(start, s);
    assert LogBlock(start, |s'.lh|, 0) == start + 1;
    hide Referenced;
  }

  /**
    With MAXOPBLOCKS blocks per operation the log alone takes up all buffers.  While it is
    full, a store of a block that is already logged panics in log_write.
   */
  lemma {:induction false} FullLogPanics(start: nat, d: Disk) returns (r: History)
    requires Transaction(start, d, [], d) && start + 2 * LOGBLOCKS < |d| <= UINT
    ensures RunOf(start, r) && Modest(r.steps, MAXOPBLOCKS) && AllPolite(r.states, r.steps, 0)
    ensures var s := Last(r);
      && s.phase.Running? && |s.lh| == LOGBLOCKS && 0 in s.left && Enabled(start, s, Store(0, s.lh[0], Zeroes))
      && !Exhausted(start, s, s.lh[0]) && Panics(start, s, Store(0, s.lh[0], Zeroes))
  {
    hide Transaction; hide Fair;
    r := TwoTogether(start, d, MAXOPBLOCKS, 2 * MAXOPBLOCKS);
    FairMeans(start, r, MAXOPBLOCKS, 0);
    assert Last(r).lh[0] in Elements(Last(r).lh);
  }
}
