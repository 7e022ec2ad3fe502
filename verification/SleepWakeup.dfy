/**
  sleep and wakeup (proc.c) under a semaphore (sysproc.c) or a sleep lock (sleeplock.c).

  Every process runs its own code; each step is one acquire, one release or one access
  to shared memory, and steps of different processes interleave in any order.  The
  scheduler takes part: a process that calls sched hands its p->lock to it, and gets the
  lock back when it is chosen again.
 */
module SleepWakeup {
  import opened Spinlock

  datatype PState = Running | Runnable | Sleeping

  /** Where a process is: what it does next. */
  datatype Pc =
    | Idle
    | WAcquire | WTest | WTake | WRelease                               // sem_wait, acquiresleep
    | SAcquire | SRelease | SChan | SState | SSched                     // sleep, going to sleep
    | Asleep                                                            // in sched
    | STidy | SUnlock | SReacquire                                      // sleep, waking up
    | PAcquire | PGive | PRelease                                       // sem_post, releasesleep
    | KAcquire(i: nat) | KCheck(i: nat) | KRelease(i: nat)              // wakeup, at process i

  /** What lk protects: a semaphore's count, or 1 for an unlocked sleep lock and 0 for a locked one. */
  datatype Kind = Semaphore | SleepLock

  datatype State = State(
    kind: Kind, initial: int,
    value: int, lk: Owner,
    pc: seq<Pc>, plock: seq<Owner>, pstate: seq<PState>, chan: seq<bool>,  // chan: p->chan is this channel
    has: seq<bool>,                                                        // took a sleep lock and has not given it back
    posts: nat, takes: nat)

  datatype Action = Run(p: nat) | StartWait(p: nat) | StartPost(p: nat)
                  | CpuAcquire(p: nat) | CpuRun(p: nat) | CpuRelease(p: nat) | Kill(p: nat)

  predicate Shaped(s: State) {
    |s.plock| == |s.pc| && |s.pstate| == |s.pc| && |s.chan| == |s.pc| && |s.has| == |s.pc|
  }

  // ---------------------------------------------------------------- steps

  /** What one step writes: process p moves to c; lk; the lock and state of process i; the rest. */
  datatype Change = Change(p: nat, c: Pc, lk: Owner, i: nat, o: Owner, t: PState, chan: bool, value: int, has: bool, posts: nat, takes: nat)

  function Apply(s: State, ch: Change): State
    requires Shaped(s) && ch.p < |s.pc| && ch.i < |s.pc|
  {
    s.(pc := s.pc[ch.p := ch.c], lk := ch.lk, plock := s.plock[ch.i := ch.o], pstate := s.pstate[ch.i := ch.t],
       chan := s.chan[ch.p := ch.chan], value := ch.value, has := s.has[ch.p := ch.has], posts := ch.posts, takes := ch.takes)
  }

  // p moves to c and writes nothing else; i says whose lock and state a change may go on to set.
  function Move(s: State, p: nat, i: nat, c: Pc): Change
    requires Shaped(s) && p < |s.pc| && i < |s.pc|
  {
    Change(p, c, s.lk, i, s.plock[i], s.pstate[i], s.chan[p], s.value, s.has[p], s.posts, s.takes)
  }

  // What follows process i - 1 in the loop of wakeup, which skips the caller p.
  function Pick(p: nat, i: nat, n: nat): Pc {
    if i >= n then PRelease else if i != p then KAcquire(i) else if i + 1 < n then KAcquire(i + 1) else PRelease
  }

  /** One step of process p; None if it cannot move. */
  function Next(s: State, p: nat): Option<Change>
    requires Shaped(s) && p < |s.pc|
  {
    match s.pc[p]
    case Idle => None
    case WAcquire => if s.lk == Free then Some(Move(s, p, p, WTest).(lk := By(p))) else None
    case WTest => Some(Move(s, p, p, if s.value <= 0 then SAcquire else WTake))
    case WTake => Some(Move(s, p, p, WRelease).(value := s.value - 1, takes := s.takes + 1, has := true))
    case WRelease => Some(Move(s, p, p, Idle).(lk := Free))
    case SAcquire => if s.plock[p] == Free then Some(Move(s, p, p, SRelease).(o := By(p))) else None
    case SRelease => Some(Move(s, p, p, SChan).(lk := Free))
    case SChan => Some(Move(s, p, p, SState).(chan := true))
    case SState => Some(Move(s, p, p, SSched).(t := Sleeping))
    case SSched => Some(Move(s, p, p, Asleep).(o := Cpu))
    case Asleep => None
    case STidy => Some(Move(s, p, p, SUnlock).(chan := false))
    case SUnlock => Some(Move(s, p, p, SReacquire).(o := Free))
    case SReacquire => if s.lk == Free then Some(Move(s, p, p, WTest).(lk := By(p))) else None
    case PAcquire => if s.lk == Free then Some(Move(s, p, p, PGive).(lk := By(p))) else None
    case PGive =>
      Some(Move(s, p, p, Pick(p, 0, |s.pc|)).(value := if s.kind.Semaphore? then s.value + 1 else 1, posts := s.posts + 1, has := false))
    case KAcquire(i) => if i < |s.pc| && s.plock[i] == Free then Some(Move(s, p, i, KCheck(i)).(o := By(p))) else None
    case KCheck(i) =>
      if i >= |s.pc| then None
      else if s.pstate[i] == Sleeping && s.chan[i] then Some(Move(s, p, i, KRelease(i)).(t := Runnable))
      else Some(Move(s, p, i, KRelease(i)))
    case KRelease(i) => if i < |s.pc| then Some(Move(s, p, i, Pick(p, i + 1, |s.pc|)).(o := Free)) else None
    case PRelease => Some(Move(s, p, p, Idle).(lk := Free))
  }

  /** One step of the system. */
  function Step(s: State, a: Action): Option<Change>
    requires Shaped(s)
  {
    if a.p >= |s.pc| then None
    else match a
      case Run(p) => Next(s, p)
      case StartWait(p) => if s.pc[p] == Idle && (s.kind.SleepLock? ==> !s.has[p]) then Some(Move(s, p, p, WAcquire)) else None
      case StartPost(p) => if s.pc[p] == Idle && (s.kind.SleepLock? ==> s.has[p]) then Some(Move(s, p, p, PAcquire)) else None
      case CpuAcquire(p) => if s.plock[p] == Free then Some(Move(s, p, p, s.pc[p]).(o := Cpu)) else None
      case CpuRun(p) =>
        if s.plock[p] == Cpu && s.pc[p] == Asleep && s.pstate[p] == Runnable
        then Some(Move(s, p, p, STidy).(o := By(p), t := Running))
        else None
      case CpuRelease(p) => if s.plock[p] == Cpu then Some(Move(s, p, p, s.pc[p]).(o := Free)) else None
      case Kill(p) => if s.plock[p] == Free && s.pstate[p] == Sleeping then Some(Move(s, p, p, s.pc[p]).(t := Runnable)) else None
  }

  // ---------------------------------------------------------------- invariant

  predicate HoldsLk(pc: Pc) {
    pc.WTest? || pc.WTake? || pc.WRelease? || pc.SAcquire? || pc.SRelease? || pc.PGive? || pc.PRelease?
    || pc.KAcquire? || pc.KCheck? || pc.KRelease?
  }

  // Process q, at pc, holds the p->lock of process i.
  predicate HoldsP(pc: Pc, q: nat, i: nat) {
    if q == i then pc.SRelease? || pc.SChan? || pc.SState? || pc.SSched? || pc.STidy? || pc.SUnlock?
    else (pc.KCheck? || pc.KRelease?) && pc.i == i
  }

  /** p has decided to sleep, and a wakeup is still to reach it. */
  predicate Sleepy(s: State, p: nat)
    requires Shaped(s) && p < |s.pc|
  {
    s.pc[p].SChan? || s.pc[p].SState? || s.pstate[p] == Sleeping
  }

  // How many processes the wakeup at this pc has dealt with.
  function Woken(pc: Pc, n: nat): nat {
    match pc
    case KAcquire(i) => i
    case KCheck(i) => i
    case KRelease(i) => i + 1
    case PRelease => n
    case _ => 0
  }

  predicate InLoop(pc: Pc) { pc.KAcquire? || pc.KCheck? || pc.KRelease? }

  ghost predicate Locks(s: State)
    requires Shaped(s)
  {
    && (forall p :: 0 <= p < |s.pc| ==> (s.lk == By(p) <==> HoldsLk(s.pc[p])))
    && (s.lk.By? ==> s.lk.p < |s.pc|) && s.lk != Cpu
    && (forall q, i :: 0 <= q < |s.pc| && 0 <= i < |s.pc| ==> (s.plock[i] == By(q) <==> HoldsP(s.pc[q], q, i)))
    && (forall i :: 0 <= i < |s.pc| ==> s.plock[i].By? ==> s.plock[i].p < |s.pc|)
  }

  ghost predicate Sleepers(s: State)
    requires Shaped(s)
  {
    && (forall p :: 0 <= p < |s.pc| ==> (s.pstate[p] == Sleeping ==> s.pc[p].SSched? || s.pc[p].Asleep?))
    && (forall p :: 0 <= p < |s.pc| ==> (s.pc[p].SSched? ==> s.pstate[p] == Sleeping))
    && (forall p :: 0 <= p < |s.pc| ==> (s.chan[p] <==> s.pc[p].SState? || s.pc[p].SSched? || s.pc[p].Asleep? || s.pc[p].STidy?))
  }

  /** A wakeup in progress has left nobody asleep behind it. */
  ghost predicate Wakeups(s: State)
    requires Shaped(s)
  {
    forall q, p :: 0 <= q < |s.pc| && 0 <= p < Woken(s.pc[q], |s.pc|) && p < |s.pc| ==> !Sleepy(s, p)
  }

  ghost predicate Loops(s: State)
    requires Shaped(s)
  {
    forall q :: 0 <= q < |s.pc| && InLoop(s.pc[q]) ==> s.pc[q].i < |s.pc| && s.pc[q].i != q
  }

  /** A process may be asleep although the value is positive only while a wakeup is under way. */
  ghost predicate NoLostWakeup(s: State)
    requires Shaped(s)
  {
    s.value > 0 ==> (forall p :: 0 <= p < |s.pc| && Sleepy(s, p) ==> s.lk.By? && s.lk.p < |s.pc| && InLoop(s.pc[s.lk.p]))
  }

  ghost predicate Tested(s: State)
    requires Shaped(s)
  {
    && (forall p :: 0 <= p < |s.pc| ==> (s.pc[p].SAcquire? || s.pc[p].SRelease? ==> s.value <= 0))
    && (forall p :: 0 <= p < |s.pc| ==> (s.pc[p].WTake? ==> s.value > 0))
  }

  ghost predicate Counts(s: State)
    requires Shaped(s)
  {
    && s.value >= 0
    && (s.kind.Semaphore? ==> s.value == s.initial + s.posts - s.takes)
  }

  /** A sleep lock is locked exactly if one process has it, and never more than one has. */
  ghost predicate Exclusive(s: State)
    requires Shaped(s)
  {
    s.kind.SleepLock? ==>
      && s.value <= 1
      && (forall p, q :: 0 <= p < |s.pc| && 0 <= q < |s.pc| && s.has[p] && s.has[q] ==> p == q)
      && (forall p :: 0 <= p < |s.pc| ==> (s.has[p] ==> s.value == 0))
      && (s.value == 0 ==> exists p :: 0 <= p < |s.pc| && s.has[p])
      && (forall p :: 0 <= p < |s.pc| ==> (s.pc[p].PAcquire? || s.pc[p].PGive? ==> s.has[p]))
  }

  ghost predicate Inv(s: State) {
    Shaped(s) && Locks(s) && Sleepers(s) && Loops(s) && Wakeups(s) && NoLostWakeup(s) && Tested(s) && Counts(s) && Exclusive(s)
  }

  predicate Init(s: State) {
    && Shaped(s) && s.lk == Free && s.value == s.initial >= 0 && s.posts == 0 && s.takes == 0
    && (s.kind.SleepLock? ==> s.initial == 1)
    && (forall p :: 0 <= p < |s.pc| ==> s.pc[p] == Idle && s.plock[p] == Free && s.pstate[p] != Sleeping && !s.chan[p] && !s.has[p])
  }

  lemma InitInv(s: State)
    requires Init(s)
    ensures Inv(s)
  {
  }

  // ---------------------------------------------------------------- every step keeps it

  ghost predicate Fit(s: State, ch: Change) { Shaped(s) && ch.p < |s.pc| && ch.i < |s.pc| }

  // The state of p, and whether it is on its way to sleep, after the change.
  function StateOf(s: State, ch: Change): PState
    requires Shaped(s) && ch.p < |s.pc| && ch.i < |s.pc|
  {
    if ch.i == ch.p then ch.t else s.pstate[ch.p]
  }

  predicate SleepyAfter(s: State, ch: Change)
    requires Shaped(s) && ch.p < |s.pc| && ch.i < |s.pc|
  {
    ch.c.SChan? || ch.c.SState? || StateOf(s, ch) == Sleeping
  }

  // What a change must satisfy, for each part of the invariant; all of it speaks of p and i only.

  predicate LkLocal(s: State, ch: Change)
    requires Shaped(s) && ch.p < |s.pc| && ch.i < |s.pc|
  {
    || (ch.lk == s.lk && (HoldsLk(ch.c) <==> HoldsLk(s.pc[ch.p])))
    || (s.lk == Free && ch.lk == By(ch.p) && HoldsLk(ch.c))
    || (s.lk == By(ch.p) && ch.lk == Free && !HoldsLk(ch.c) && !InLoop(s.pc[ch.p]))
  }

  predicate Mine(o: Owner, p: nat) { o == Free || o == Cpu || o == By(p) }

  ghost predicate PlLocal(s: State, ch: Change)
    requires Shaped(s) && ch.p < |s.pc| && ch.i < |s.pc|
  {
    && ((ch.o == s.plock[ch.i] && (HoldsP(ch.c, ch.p, ch.i) <==> HoldsP(s.pc[ch.p], ch.p, ch.i)))
        || (Mine(s.plock[ch.i], ch.p) && Mine(ch.o, ch.p) && (ch.o == By(ch.p) <==> HoldsP(ch.c, ch.p, ch.i))))
    && (forall j :: 0 <= j < |s.pc| && j != ch.i ==> (HoldsP(ch.c, ch.p, j) <==> HoldsP(s.pc[ch.p], ch.p, j)))
  }

  predicate SlLocal(s: State, ch: Change)
    requires Shaped(s) && ch.p < |s.pc| && ch.i < |s.pc|
  {
    && (StateOf(s, ch) == Sleeping ==> ch.c.SSched? || ch.c.Asleep?)
    && (ch.c.SSched? ==> StateOf(s, ch) == Sleeping)
    && (ch.chan <==> ch.c.SState? || ch.c.SSched? || ch.c.Asleep? || ch.c.STidy?)
    && (ch.i != ch.p ==> ch.t == s.pstate[ch.i] || (ch.t != Sleeping && !s.pc[ch.i].SSched?))
    && (InLoop(ch.c) ==> ch.c.i < |s.pc| && ch.c.i != ch.p)
  }

  ghost predicate WkLocal(s: State, ch: Change)
    requires Shaped(s) && ch.p < |s.pc| && ch.i < |s.pc|
  {
    && (SleepyAfter(s, ch) && !Sleepy(s, ch.p) ==> s.lk == By(ch.p) && Woken(ch.c, |s.pc|) == 0)
    && (forall x :: Woken(s.pc[ch.p], |s.pc|) <= x < Woken(ch.c, |s.pc|) ==> DealtWith(s, ch, x))
  }

  // Process x is not asleep after the change, and the change is about x.
  predicate DealtWith(s: State, ch: Change, x: int)
    requires Shaped(s) && ch.p < |s.pc| && ch.i < |s.pc|
  {
    || (x == ch.p && !SleepyAfter(s, ch))
    || (x == ch.i && x != ch.p && ch.t != Sleeping && !s.pc[x].SChan? && !s.pc[x].SState?)
  }

  predicate NlLocal(s: State, ch: Change)
    requires Shaped(s) && ch.p < |s.pc| && ch.i < |s.pc|
  {
    && (SleepyAfter(s, ch) && !Sleepy(s, ch.p) ==> ch.value <= 0)
    && (s.value <= 0 && ch.value > 0 ==> ch.lk == By(ch.p) && (InLoop(ch.c) || ch.c == PRelease))
    && (InLoop(s.pc[ch.p]) && !InLoop(ch.c) ==> ch.c == PRelease)
  }

  predicate CtLocal(s: State, ch: Change)
    requires Shaped(s) && ch.p < |s.pc| && ch.i < |s.pc|
  {
    && (ch.c.SAcquire? || ch.c.SRelease? ==> ch.value <= 0)
    && (ch.c.WTake? ==> ch.value > 0)
    && (ch.value != s.value ==> s.lk == By(ch.p))
    && ch.value >= 0 && (s.kind.Semaphore? ==> ch.value == s.initial + ch.posts - ch.takes)
  }

  predicate ExLocal(s: State, ch: Change)
    requires Shaped(s) && ch.p < |s.pc| && ch.i < |s.pc|
  {
    s.kind.SleepLock? ==>
      || (ch.has == s.has[ch.p] && ch.value == s.value && (ch.c.PAcquire? || ch.c.PGive? ==> ch.has))
      || (s.value > 0 && ch.value == s.value - 1 && ch.has && ch.c.WRelease?)
      || (s.has[ch.p] && !ch.has && ch.value == 1 && !ch.c.PAcquire? && !ch.c.PGive?)
  }

  ghost predicate Local(s: State, ch: Change)
    requires Shaped(s) && ch.p < |s.pc| && ch.i < |s.pc|
  {
    LkLocal(s, ch) && PlLocal(s, ch) && SlLocal(s, ch) && WkLocal(s, ch) && NlLocal(s, ch) && CtLocal(s, ch) && ExLocal(s, ch)
  }

  lemma KeepLocks(s: State, ch: Change)
    requires Fit(s, ch) && Locks(s) && LkLocal(s, ch) && PlLocal(s, ch)
    ensures Locks(Apply(s, ch))
  {
    hide HoldsLk; hide HoldsP;
  }

  lemma KeepSleepers(s: State, ch: Change)
    requires Fit(s, ch) && Sleepers(s) && Loops(s) && SlLocal(s, ch)
    ensures Sleepers(Apply(s, ch)) && Loops(Apply(s, ch))
  {
  }

  lemma KeepWakeups(s: State, ch: Change)
    requires Fit(s, ch) && Locks(s) && Wakeups(s) && WkLocal(s, ch)
    requires ch.i != ch.p ==> ch.t == Sleeping ==> s.pstate[ch.i] == Sleeping
    ensures Wakeups(Apply(s, ch))
  {
    var s' := Apply(s, ch);
    var n := |s.pc|;
    forall q, x | 0 <= q < n && 0 <= x < Woken(s'.pc[q], n) && x < n ensures !Sleepy(s', x) {
      if q != ch.p {
        assert HoldsLk(s.pc[q]) && s.lk == By(q);
        assert !Sleepy(s, x);
      } else if x < Woken(s.pc[q], n) {
        assert HoldsLk(s.pc[q]) && !Sleepy(s, x);
      } else {
        assert DealtWith(s, ch, x);
      }
    }
  }

  lemma KeepNoLostWakeup(s: State, ch: Change)
    requires Fit(s, ch) && NoLostWakeup(s) && NlLocal(s, ch) && LkLocal(s, ch) && Wakeups(Apply(s, ch))
    requires ch.i != ch.p ==> ch.t == Sleeping ==> s.pstate[ch.i] == Sleeping
    ensures NoLostWakeup(Apply(s, ch))
  {
    hide HoldsLk;
    var s' := Apply(s, ch);
    if s'.value > 0 {
      forall x | 0 <= x < |s.pc| && Sleepy(s', x) ensures s'.lk.By? && s'.lk.p < |s.pc| && InLoop(s'.pc[s'.lk.p]) {
        assert Sleepy(s, x) && Woken(PRelease, |s.pc|) == |s.pc|;
      }
    }
  }

  lemma KeepCounts(s: State, ch: Change)
    requires Fit(s, ch) && Locks(s) && Tested(s) && Counts(s) && CtLocal(s, ch)
    ensures Tested(Apply(s, ch)) && Counts(Apply(s, ch))
  {
    hide HoldsP;
  }

  lemma KeepExclusive(s: State, ch: Change)
    requires Fit(s, ch) && Exclusive(s) && ExLocal(s, ch)
    ensures Exclusive(Apply(s, ch))
  {
    var s' := Apply(s, ch);
    if s.kind.SleepLock? && s'.value == 0 {
      if ch.value == s.value {
        var p :| 0 <= p < |s.pc| && s.has[p];
        assert s'.has[p];
      } else {
        assert s'.has[ch.p];
      }
    }
  }

  lemma OwnLocks(s: State, p: nat, i: nat)
    requires Shaped(s) && Locks(s) && p < |s.pc| && i < |s.pc|
    ensures s.lk == By(p) <==> HoldsLk(s.pc[p])
    ensures s.plock[i] == By(p) <==> HoldsP(s.pc[p], p, i)
  {
  }

  predicate Waiting(pc: Pc) { pc.WAcquire? || pc.WTest? || pc.WTake? || pc.WRelease? }

  predicate Going(pc: Pc) { pc.SAcquire? || pc.SRelease? || pc.SChan? || pc.SState? || pc.SSched? }

  predicate Coming(pc: Pc) { pc.STidy? || pc.SUnlock? || pc.SReacquire? }

  // What the invariant says about process p.
  lemma About(s: State, p: nat)
    requires Inv(s) && p < |s.pc|
    ensures s.pstate[p] == Sleeping ==> s.pc[p].SSched? || s.pc[p].Asleep?
    ensures s.pc[p].SSched? ==> s.pstate[p] == Sleeping
    ensures s.chan[p] <==> s.pc[p].SState? || s.pc[p].SSched? || s.pc[p].Asleep? || s.pc[p].STidy?
    ensures InLoop(s.pc[p]) ==> s.pc[p].i < |s.pc| && s.pc[p].i != p
    ensures s.pc[p].SAcquire? || s.pc[p].SRelease? ==> s.value <= 0
    ensures s.pc[p].WTake? ==> s.value > 0
    ensures s.value >= 0 && (s.kind.Semaphore? ==> s.value == s.initial + s.posts - s.takes)
    ensures s.kind.SleepLock? && (s.pc[p].PAcquire? || s.pc[p].PGive?) ==> s.has[p]
  {
    hide Locks; hide Wakeups; hide NoLostWakeup;
  }

  lemma LocalWait(s: State, p: nat)
    requires Inv(s) && p < |s.pc| && Waiting(s.pc[p]) && Next(s, p).Some?
    ensures Local(s, Next(s, p).value)
  {
    hide Inv;
    InvParts(s);
    OwnLocks(s, p, p);
    About(s, p);
  }

  lemma LocalSleep(s: State, p: nat)
    requires Inv(s) && p < |s.pc| && Going(s.pc[p]) && Next(s, p).Some?
    ensures Local(s, Next(s, p).value)
  {
    hide Inv; hide Locks;
    InvParts(s);
    OwnLocks(s, p, p);
    About(s, p);
  }

  lemma LocalWake(s: State, p: nat)
    requires Inv(s) && p < |s.pc| && Coming(s.pc[p]) && Next(s, p).Some?
    ensures Local(s, Next(s, p).value)
  {
    hide Inv; hide Locks;
    InvParts(s);
    OwnLocks(s, p, p);
    About(s, p);
  }

  lemma LocalPost(s: State, p: nat)
    requires Inv(s) && p < |s.pc| && (s.pc[p].PAcquire? || s.pc[p].PGive? || s.pc[p].PRelease?) && Next(s, p).Some?
    ensures Fit(s, Next(s, p).value) && Local(s, Next(s, p).value)
  {
    hide Inv; hide Locks;
    InvParts(s);
    About(s, p);
    OwnLocks(s, p, p);
    var ch, n := Next(s, p).value, |s.pc|;
    forall x | Woken(s.pc[p], n) <= x < Woken(ch.c, n) ensures DealtWith(s, ch, x) {
      assert x == p;
    }
  }

  lemma LocalCheck(s: State, p: nat)
    requires Inv(s) && p < |s.pc| && s.pc[p].KCheck? && Next(s, p).Some?
    ensures Fit(s, Next(s, p).value) && Local(s, Next(s, p).value)
  {
    hide Inv; hide Locks;
    InvParts(s);
    var i := s.pc[p].i;
    About(s, p);
    OwnLocks(s, p, p);
    OwnLocks(s, p, i);
    OwnLocks(s, i, i);
    About(s, i);
    var ch, n := Next(s, p).value, |s.pc|;
    forall x | Woken(s.pc[p], n) <= x < Woken(ch.c, n) ensures DealtWith(s, ch, x) {
      assert x == i;
    }
  }

  lemma LocalLoop(s: State, p: nat)
    requires Inv(s) && p < |s.pc| && (s.pc[p].KAcquire? || s.pc[p].KRelease?) && Next(s, p).Some?
    ensures Fit(s, Next(s, p).value) && Local(s, Next(s, p).value)
  {
    hide Inv; hide Locks;
    InvParts(s);
    var i := s.pc[p].i;
    About(s, p);
    OwnLocks(s, p, p);
    OwnLocks(s, p, i);
    var ch, n := Next(s, p).value, |s.pc|;
    forall x | Woken(s.pc[p], n) <= x < Woken(ch.c, n) ensures DealtWith(s, ch, x) {
      assert x == p;
    }
  }

  lemma LocalOther(s: State, a: Action)
    requires Inv(s) && Step(s, a).Some? && !a.Run?
    ensures Fit(s, Step(s, a).value) && Local(s, Step(s, a).value)
  {
    hide Inv; hide Locks; hide Next;
    InvParts(s);
    OwnLocks(s, a.p, a.p);
    About(s, a.p);
  }

  lemma InvParts(s: State)
    requires Inv(s)
    ensures Shaped(s) && Locks(s)
  {
  }

  /** Every step keeps the invariant. */
  lemma StepKeepsInv(s: State, a: Action)
    requires Inv(s) && Step(s, a).Some?
    ensures Fit(s, Step(s, a).value) && Inv(Apply(s, Step(s, a).value))
  {
    hide LkLocal; hide PlLocal; hide WkLocal; hide NlLocal; hide CtLocal; hide ExLocal; hide Apply; hide Next;
    hide Locks; hide Sleepers; hide Loops; hide Wakeups; hide NoLostWakeup; hide Tested; hide Counts; hide Exclusive;
    StepLocal(s, a);
    var ch := Step(s, a).value;
    NotSleeping(s, ch);
    KeepLocks(s, ch);
    KeepSleepers(s, ch);
    KeepWakeups(s, ch);
    KeepNoLostWakeup(s, ch);
    KeepCounts(s, ch);
    KeepExclusive(s, ch);
    ApplyShaped(s, ch);
  }

  lemma StepLocal(s: State, a: Action)
    requires Inv(s) && Step(s, a).Some?
    ensures Fit(s, Step(s, a).value) && Local(s, Step(s, a).value)
  {
    hide Inv; hide Local; hide Next;
    InvParts(s);
    if a.Run? {
      var pc := s.pc[a.p];
      CanMove(s, a.p);
      if Waiting(pc) { LocalWait(s, a.p); }
      else if Going(pc) { LocalSleep(s, a.p); }
      else if Coming(pc) { LocalWake(s, a.p); }
      else if pc.KCheck? { LocalCheck(s, a.p); }
      else if InLoop(pc) { LocalLoop(s, a.p); }
      else { LocalPost(s, a.p); }
    } else {
      LocalOther(s, a);
    }
  }

  lemma CanMove(s: State, p: nat)
    requires Shaped(s) && p < |s.pc| && Next(s, p).Some?
    ensures !s.pc[p].Idle? && !s.pc[p].Asleep? && Fit(s, Next(s, p).value)
  {
  }

  lemma NotSleeping(s: State, ch: Change)
    requires Fit(s, ch) && Local(s, ch)
    ensures ch.i != ch.p ==> ch.t == Sleeping ==> s.pstate[ch.i] == Sleeping
  {
    hide LkLocal; hide PlLocal; hide WkLocal; hide NlLocal; hide CtLocal; hide ExLocal;
  }

  lemma ApplyShaped(s: State, ch: Change)
    requires Fit(s, ch)
    ensures Shaped(Apply(s, ch))
  {
  }

  // ---------------------------------------------------------------- whole runs

  /** The state after a run of the system; None if one of the steps is not possible. */
  ghost function Runs(s: State, acts: seq<Action>): Option<State>
    requires Inv(s)
    decreases |acts|
  {
    if acts == [] then Some(s)
    else if Step(s, acts[0]).None? then None
    else StepKeepsInv(s, acts[0]); Runs(Apply(s, Step(s, acts[0]).value), acts[1..])
  }

  lemma {:induction false} RunKeepsInv(s: State, acts: seq<Action>)
    requires Inv(s) && Runs(s, acts).Some?
    ensures Inv(Runs(s, acts).value)
    decreases |acts|
  {
    hide Inv;
    if acts != [] {
      StepKeepsInv(s, acts[0]);
      RunKeepsInv(Apply(s, Step(s, acts[0]).value), acts[1..]);
    }
  }

  /**
    No lost wakeup: in every run, when a wakeup under lk has gone through the table,
    no process is asleep on the channel or on its way to sleep; and while lk is free and
    the value is positive nobody is.
   */
  lemma NobodyLeftAsleep(s0: State, acts: seq<Action>, p: nat)
    requires Init(s0)
    ensures Inv(s0)
    ensures Runs(s0, acts).Some? ==> var s := Runs(s0, acts).value;
      && Shaped(s)
      && (p < |s.pc| && s.lk.By? && s.lk.p < |s.pc| && s.pc[s.lk.p] == PRelease ==> !Sleepy(s, p))
      && (p < |s.pc| && s.lk == Free && s.value > 0 ==> !Sleepy(s, p))
  {
    hide Runs;
    InitInv(s0);
    if Runs(s0, acts).Some? {
      RunKeepsInv(s0, acts);
    }
  }

  /** The count of a semaphore is what was posted and not taken yet, and is never negative. */
  lemma SemaphoreCount(s0: State, acts: seq<Action>)
    requires Init(s0) && s0.kind.Semaphore?
    ensures Inv(s0)
    ensures Runs(s0, acts).Some? ==> var s := Runs(s0, acts).value;
      0 <= s.value == s0.initial + s.posts - s.takes
  {
    hide Runs; hide Locks; hide Wakeups;
    InitInv(s0);
    if Runs(s0, acts).Some? {
      RunKeepsInv(s0, acts);
      RunKeepsKind(s0, acts);
    }
  }

  /** At most one process has a sleep lock, and it is locked exactly while one has. */
  lemma OneHolder(s0: State, acts: seq<Action>, p: nat, q: nat)
    requires Init(s0) && s0.kind.SleepLock?
    ensures Inv(s0)
    ensures Runs(s0, acts).Some? ==> var s := Runs(s0, acts).value;
      && Shaped(s)
      && (p < |s.pc| && q < |s.pc| && s.has[p] && s.has[q] ==> p == q)
      && (s.value == 0 <==> exists r :: 0 <= r < |s.pc| && s.has[r])
  {
    hide Runs; hide Locks; hide Wakeups;
    InitInv(s0);
    if Runs(s0, acts).Some? {
      RunKeepsInv(s0, acts);
      RunKeepsKind(s0, acts);
    }
  }

  lemma {:induction false} RunKeepsKind(s: State, acts: seq<Action>)
    requires Inv(s) && Runs(s, acts).Some?
    ensures Runs(s, acts).value.kind == s.kind && Runs(s, acts).value.initial == s.initial
    decreases |acts|
  {
    hide Inv;
    if acts != [] {
      StepKeepsInv(s, acts[0]);
      RunKeepsKind(Apply(s, Step(s, acts[0]).value), acts[1..]);
    }
  }

  /** A process in sched holds its p->lock and no other lock; nobody acquires a lock it holds. */
  lemma LockDiscipline(s0: State, acts: seq<Action>, p: nat, i: nat)
    requires Init(s0)
    ensures Inv(s0)
    ensures Runs(s0, acts).Some? ==> var s := Runs(s0, acts).value;
      && Shaped(s)
      && (p < |s.pc| && i < |s.pc| ==>
          && (s.pc[p] == SSched ==> s.lk != By(p) && (s.plock[i] == By(p) <==> i == p))
          && (s.pc[p].WAcquire? || s.pc[p].SReacquire? || s.pc[p].PAcquire? ==> s.lk != By(p))
          && (s.pc[p].SAcquire? ==> s.plock[p] != By(p))
          && (s.pc[p] == KAcquire(i) ==> s.plock[i] != By(p)))
  {
    hide Runs; hide Wakeups; hide NoLostWakeup; hide Exclusive; hide Locks;
    InitInv(s0);
    if Runs(s0, acts).Some? {
      RunKeepsInv(s0, acts);
      var s := Runs(s0, acts).value;
      if p < |s.pc| && i < |s.pc| {
        OwnLocks(s, p, i);
        OwnLocks(s, p, p);
        About(s, p);
      }
    }
  }
}
