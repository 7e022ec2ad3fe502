/**
  fork, exit and wait (proc.c): the process tree under wait_lock and the p->locks.

  Steps interleave as in SleepWakeup.  Going to sleep in kwait and waking up are single
  steps here: SleepWakeup shows that a wakeup under wait_lock misses no sleeper.
 */
module ExitWait {
  import opened Spinlock

  datatype St = Unused | Used | Live | Zombie  // Live: RUNNABLE, RUNNING or SLEEPING

  datatype Pc =
    | NoProc | User
    | FAcquire(i: nat) | FSet(i: nat) | FRelease(i: nat) | FStart(i: nat)          // kfork, child i
    | XAcquire | XReparent(i: nat) | XWakeInit(i: nat) | XWake | XLock | XZombie   // kexit
    | XRelease | XSched | Gone
    | VAcquire | VScan(i: nat, kids: bool) | VChild(i: nat) | VCheck(i: nat)       // kwait, at process i
    | VUnlock(i: nat) | VFree(i: nat) | VFreed(i: nat) | VDone | VSleep | VAsleep

  datatype State = State(
    init: nat, wl: Option<nat>,
    pc: seq<Pc>, st: seq<St>, parent: seq<Option<nat>>, plock: seq<Owner>, asleep: seq<bool>)

  datatype Action = Run(p: nat) | Fork(p: nat, i: nat) | ForkFails(p: nat) | Exit(p: nat) | Wait(p: nat) | Killed(p: nat)
                  | CopyFails(p: nat) | Kill(p: nat) | CpuRelease(p: nat)

  predicate Shaped(s: State) {
    var n := |s.pc|;
    s.init < n && |s.st| == n && |s.parent| == n && |s.plock| == n && |s.asleep| == n
  }

  // ---------------------------------------------------------------- steps

  /** What one step writes: process p moves to c; wait_lock; the fields of process j. */
  datatype Change = Change(p: nat, c: Pc, wl: Option<nat>, j: nat, d: Pc, st: St, parent: Option<nat>, plock: Owner, asleep: bool)

  ghost predicate Fit(s: State, ch: Change) { Shaped(s) && ch.p < |s.pc| && ch.j < |s.pc| && (ch.j == ch.p ==> ch.d == ch.c) }

  function Apply(s: State, ch: Change): State
    requires Shaped(s) && ch.p < |s.pc| && ch.j < |s.pc|
  {
    s.(wl := ch.wl, pc := s.pc[ch.p := ch.c][ch.j := ch.d], st := s.st[ch.j := ch.st], parent := s.parent[ch.j := ch.parent],
       plock := s.plock[ch.j := ch.plock], asleep := s.asleep[ch.j := ch.asleep])
  }

  function Move(s: State, p: nat, j: nat, c: Pc): Change
    requires Shaped(s) && p < |s.pc| && j < |s.pc|
  {
    Change(p, c, s.wl, j, if j == p then c else s.pc[j], s.st[j], s.parent[j], s.plock[j], s.asleep[j])
  }

  /** One step of process p; None if it cannot move. */
  function Next(s: State, p: nat): Option<Change>
    requires Shaped(s) && p < |s.pc|
  {
    var n := |s.pc|;
    match s.pc[p]
    case NoProc => None
    case User => None
    case FAcquire(i) => if s.wl == None then Some(Move(s, p, p, FSet(i)).(wl := Some(p))) else None
    case FSet(i) => if i < n && i != p then Some(Move(s, p, i, FRelease(i)).(parent := Some(p))) else None
    case FRelease(i) => Some(Move(s, p, p, FStart(i)).(wl := None))
    case FStart(i) => if i < n && i != p && s.plock[i] == Free then Some(Move(s, p, i, User).(st := Live, d := User)) else None
    case XAcquire => if s.wl == None then Some(Move(s, p, p, XReparent(0)).(wl := Some(p))) else None
    case XReparent(i) =>
      if i >= n then Some(Move(s, p, p, XWake))
      else if i != p && s.parent[i] == Some(p) then Some(Move(s, p, i, XWakeInit(i)).(parent := Some(s.init)))
      else Some(Move(s, p, p, XReparent(i + 1)))
    case XWakeInit(i) => if s.init != p then Some(Move(s, p, s.init, XReparent(i + 1)).(asleep := false)) else None
    case XWake =>
      if s.parent[p].Some? && s.parent[p].value < n && s.parent[p].value != p
      then Some(Move(s, p, s.parent[p].value, XLock).(asleep := false)) else None
    case XLock => if s.plock[p] == Free then Some(Move(s, p, p, XZombie).(plock := By(p))) else None
    case XZombie => Some(Move(s, p, p, XRelease).(st := Zombie))
    case XRelease => Some(Move(s, p, p, XSched).(wl := None))
    case XSched => Some(Move(s, p, p, Gone).(plock := Cpu))
    case Gone => None
    case VAcquire => if s.wl == None && !s.asleep[p] then Some(Move(s, p, p, VScan(0, false)).(wl := Some(p))) else None
    case VScan(i, kids) =>
      if i >= n then Some(Move(s, p, p, if kids then VSleep else VDone))
      else if s.parent[i] == Some(p) then Some(Move(s, p, p, VChild(i)))
      else Some(Move(s, p, p, VScan(i + 1, kids)))
    case VChild(i) => if i < n && i != p && s.plock[i] == Free then Some(Move(s, p, i, VCheck(i)).(plock := By(p))) else None
    case VCheck(i) => if i < n then Some(Move(s, p, p, if s.st[i] == Zombie then VFree(i) else VUnlock(i))) else None
    case VUnlock(i) => if i < n && i != p then Some(Move(s, p, i, VScan(i + 1, true)).(plock := Free)) else None
    case VFree(i) =>
      if i < n && i != p
      then Some(Move(s, p, i, VFreed(i)).(st := Unused, parent := None, d := NoProc))
      else None
    case VFreed(i) => if i < n && i != p then Some(Move(s, p, i, VDone).(plock := Free)) else None
    case VDone => Some(Move(s, p, p, User).(wl := None))
    case VSleep => Some(Move(s, p, p, VAsleep).(wl := None, asleep := true))
    case VAsleep => if !s.asleep[p] then Some(Move(s, p, p, VAcquire)) else None
  }

  /** One step of the system. */
  function Step(s: State, a: Action): Option<Change>
    requires Shaped(s)
  {
    if a.p >= |s.pc| then None
    else match a
      case Run(p) => Next(s, p)
      case Fork(p, i) =>
        if s.pc[p] == User && i < |s.pc| && i != p && s.st[i] == Unused && s.plock[i] == Free
        then Some(Move(s, p, i, FAcquire(i)).(st := Used))
        else None
      case ForkFails(p) =>
        if s.pc[p].FAcquire? && s.pc[p].i < |s.pc| && s.pc[p].i != p
        then Some(Move(s, p, s.pc[p].i, User).(st := Unused)) else None
      case Exit(p) => if s.pc[p] == User && p != s.init then Some(Move(s, p, p, XAcquire)) else None
      case Wait(p) => if s.pc[p] == User then Some(Move(s, p, p, VAcquire)) else None
      case Killed(p) => if s.pc[p] == VSleep then Some(Move(s, p, p, VDone)) else None
      case CopyFails(p) => if s.pc[p].VFree? then Some(Move(s, p, p, VFreed(s.pc[p].i))) else None
      case Kill(p) => if s.asleep[p] then Some(Move(s, p, p, s.pc[p]).(asleep := false)) else None
      case CpuRelease(p) => if s.plock[p] == Cpu then Some(Move(s, p, p, s.pc[p]).(plock := Free)) else None
  }

  // ---------------------------------------------------------------- invariant

  predicate HoldsW(pc: Pc) {
    pc.FSet? || pc.FRelease? || pc.XReparent? || pc.XWakeInit? || pc.XWake? || pc.XLock? || pc.XZombie? || pc.XRelease?
    || pc.VScan? || pc.VChild? || pc.VCheck? || pc.VUnlock? || pc.VFree? || pc.VFreed? || pc.VDone? || pc.VSleep?
  }

  predicate HoldsP(pc: Pc, q: nat, i: nat) {
    if q == i then pc.XZombie? || pc.XRelease? || pc.XSched?
    else (pc.VCheck? || pc.VUnlock? || pc.VFree? || pc.VFreed?) && pc.i == i
  }

  predicate Exiting(pc: Pc) {
    pc.XAcquire? || pc.XReparent? || pc.XWakeInit? || pc.XWake? || pc.XLock? || pc.XZombie? || pc.XRelease? || pc.XSched? || pc.Gone?
  }

  predicate Forking(pc: Pc) { pc.FAcquire? || pc.FSet? || pc.FRelease? || pc.FStart? }

  /** State and code of a process agree. */
  predicate Fits(st: St, pc: Pc) {
    match st
    case Unused => pc == NoProc
    case Used => pc == NoProc
    case Live => pc != NoProc && !pc.XRelease? && !pc.XSched? && !pc.Gone?
    case Zombie => pc.XRelease? || pc.XSched? || pc.Gone?
  }

  ghost predicate Locks(s: State)
    requires Shaped(s)
  {
    && (forall p :: 0 <= p < |s.pc| ==> (s.wl == Some(p) <==> HoldsW(s.pc[p])))
    && (s.wl.Some? ==> s.wl.value < |s.pc|)
    && (forall q, i :: 0 <= q < |s.pc| && 0 <= i < |s.pc| ==> (s.plock[i] == By(q) <==> HoldsP(s.pc[q], q, i)))
  }

  ghost predicate States(s: State)
    requires Shaped(s)
  {
    && (forall p :: 0 <= p < |s.pc| ==> Fits(s.st[p], s.pc[p]))
    && s.st[s.init] == Live && !Exiting(s.pc[s.init])
  }

  /** A parent is alive; every process but init has one. */
  ghost predicate Tree(s: State)
    requires Shaped(s)
  {
    && (forall c :: 0 <= c < |s.pc| ==> (s.parent[c].Some? ==>
          s.parent[c].value < |s.pc| && s.parent[c].value != c && s.st[s.parent[c].value] == Live))
    && s.parent[s.init] == None && (forall c :: 0 <= c < |s.pc| ==> (s.st[c] == Unused ==> s.parent[c] == None))
    && (forall c :: 0 <= c < |s.pc| ==> (c != s.init && (s.st[c] == Live || s.st[c] == Zombie) ==> s.parent[c].Some?))
  }

  /** A child being made belongs to one forker, and has no other parent. */
  ghost predicate Forks(s: State)
    requires Shaped(s)
  {
    && (forall p :: 0 <= p < |s.pc| ==> ForkOf(s, p))
    && (forall p, q :: 0 <= p < |s.pc| && 0 <= q < |s.pc| ==> SoleForker(s, p, q))
    && (forall c :: 0 <= c < |s.pc| ==> (s.st[c] == Used && s.parent[c].Some? ==> Starting(s, s.parent[c].value, c)))
  }

  ghost predicate ForkOf(s: State, p: nat)
    requires Shaped(s) && p < |s.pc|
  {
    var pc := s.pc[p];
    Forking(pc) ==>
      && pc.i < |s.pc| && pc.i != p && s.st[pc.i] == Used
      && s.parent[pc.i] == if pc.FAcquire? || pc.FSet? then None else Some(p)
  }

  predicate SoleForker(s: State, p: nat, q: nat)
    requires Shaped(s) && p < |s.pc| && q < |s.pc|
  {
    Forking(s.pc[p]) && Forking(s.pc[q]) && s.pc[p].i == s.pc[q].i ==> p == q
  }

  predicate Starting(s: State, p: nat, c: nat) { p < |s.pc| && (s.pc[p] == FRelease(c) || s.pc[p] == FStart(c)) }

  // How many processes an exiting process has looked at.
  function Past(pc: Pc, n: nat): nat {
    match pc
    case XReparent(i) => i
    case XWakeInit(i) => i + 1
    case XWake => n
    case XLock => n
    case XZombie => n
    case _ => 0
  }

  /** An exiting process has left no child behind it. */
  ghost predicate Reparented(s: State)
    requires Shaped(s)
  {
    forall q, c :: 0 <= q < |s.pc| && 0 <= c < |s.pc| && c < Past(s.pc[q], |s.pc|) ==> s.parent[c] != Some(q)
  }

  // How many processes a waiting process has looked at and found alive or not its own.
  function Scanned(pc: Pc, n: nat): nat {
    match pc
    case VScan(i, _) => i
    case VChild(i) => i
    case VCheck(i) => i
    case VUnlock(i) => i + 1
    case VSleep => n
    case _ => 0
  }

  ghost predicate Scans(s: State)
    requires Shaped(s)
  {
    && (forall p, c :: 0 <= p < |s.pc| && 0 <= c < |s.pc| && c < Scanned(s.pc[p], |s.pc|) && s.parent[c] == Some(p) ==> s.st[c] != Zombie)
    && (forall p :: 0 <= p < |s.pc| ==> (s.pc[p].VChild? || s.pc[p].VCheck? || s.pc[p].VUnlock? || s.pc[p].VFree? ==>
          s.pc[p].i < |s.pc| && s.pc[p].i != p && s.parent[s.pc[p].i] == Some(p)))
    && (forall p :: 0 <= p < |s.pc| ==> (s.pc[p].VFree? ==> s.st[s.pc[p].i] == Zombie))
    && (forall p :: 0 <= p < |s.pc| ==> (s.pc[p].VFreed? ==> s.pc[p].i < |s.pc| && s.pc[p].i != p))
  }

  // wait_lock's holder has given init a child and is about to wake init up.
  ghost predicate WakingInit(s: State)
    requires Shaped(s)
  {
    s.wl.Some? && s.wl.value < |s.pc| && s.pc[s.wl.value].XWakeInit?
  }

  /** Nobody sleeps in kwait over a zombie child, unless it is init and is just being woken up. */
  ghost predicate NoMissedExit(s: State)
    requires Shaped(s)
  {
    && (forall p :: 0 <= p < |s.pc| ==> (s.asleep[p] ==> s.pc[p] == VAsleep))
    && (forall p, c :: 0 <= p < |s.pc| && 0 <= c < |s.pc| && s.asleep[p] && s.parent[c] == Some(p) && s.st[c] == Zombie ==>
          p == s.init && WakingInit(s))
    && (forall q :: 0 <= q < |s.pc| ==> (s.pc[q].XLock? || s.pc[q].XZombie? ==>
          s.parent[q].Some? && s.parent[q].value < |s.pc| && !s.asleep[s.parent[q].value]))
  }

  ghost predicate Inv(s: State) {
    && Shaped(s) && Locks(s) && States(s) && Tree(s) && Forks(s) && Reparented(s) && Scans(s) && NoMissedExit(s)
  }

  // ---------------------------------------------------------------- what a change must satisfy

  // The fields of process x after the change.
  function StAfter(s: State, ch: Change, x: nat): St
    requires Shaped(s) && ch.p < |s.pc| && ch.j < |s.pc| && x < |s.pc|
  { if x == ch.j then ch.st else s.st[x] }

  function ParentAfter(s: State, ch: Change, x: nat): Option<nat>
    requires Shaped(s) && ch.p < |s.pc| && ch.j < |s.pc| && x < |s.pc|
  { if x == ch.j then ch.parent else s.parent[x] }

  predicate Mine(o: Owner, p: nat) { o == Free || o == Cpu || o == By(p) }

  // Process j changes its code only when it starts or ends.
  predicate BystanderLocal(s: State, ch: Change)
    requires Shaped(s) && ch.p < |s.pc| && ch.j < |s.pc|
  {
    ch.j != ch.p ==> ch.d == s.pc[ch.j] || (s.pc[ch.j] == NoProc && ch.d == User) || (s.pc[ch.j] == Gone && ch.d == NoProc)
  }

  predicate WlLocal(s: State, ch: Change)
    requires Shaped(s) && ch.p < |s.pc| && ch.j < |s.pc|
  {
    || (ch.wl == s.wl && (HoldsW(ch.c) <==> HoldsW(s.pc[ch.p])))
    || (s.wl == None && ch.wl == Some(ch.p) && HoldsW(ch.c))
    || (s.wl == Some(ch.p) && ch.wl == None && !HoldsW(ch.c))
  }

  ghost predicate PlLocal(s: State, ch: Change)
    requires Shaped(s) && ch.p < |s.pc| && ch.j < |s.pc|
  {
    && ((ch.plock == s.plock[ch.j] && (HoldsP(ch.c, ch.p, ch.j) <==> HoldsP(s.pc[ch.p], ch.p, ch.j)))
        || (Mine(s.plock[ch.j], ch.p) && Mine(ch.plock, ch.p) && (ch.plock == By(ch.p) <==> HoldsP(ch.c, ch.p, ch.j))))
    && (forall i :: 0 <= i < |s.pc| && i != ch.j ==> (HoldsP(ch.c, ch.p, i) <==> HoldsP(s.pc[ch.p], ch.p, i)))
  }

  predicate StLocal(s: State, ch: Change)
    requires Shaped(s) && ch.p < |s.pc| && ch.j < |s.pc|
  {
    && Fits(ch.st, ch.d) && (ch.j != ch.p ==> Fits(s.st[ch.p], ch.c))
    && (ch.j == s.init ==> ch.st == Live && !Exiting(ch.d)) && (ch.p == s.init ==> !Exiting(ch.c))
  }

  ghost predicate TreeLocal(s: State, ch: Change)
    requires Shaped(s) && ch.p < |s.pc| && ch.j < |s.pc|
  {
    && (ch.parent == s.parent[ch.j] || ch.parent == None
        || (ch.parent.value < |s.pc| && ch.parent.value != ch.j && s.st[ch.parent.value] == Live))
    && (s.st[ch.j] == Live && ch.st != Live ==> forall c :: 0 <= c < |s.pc| ==> s.parent[c] != Some(ch.j))
    && (ch.st == Unused || ch.j == s.init ==> ch.parent == None)
    && (ch.j != s.init && (ch.st == Live || ch.st == Zombie) ==> ch.parent.Some?)
  }

  predicate ForkLocal(s: State, ch: Change)
    requires Shaped(s) && ch.p < |s.pc| && ch.j < |s.pc|
  {
    && (Forking(ch.c) ==>
          && ch.c.i < |s.pc| && ch.c.i != ch.p && StAfter(s, ch, ch.c.i) == Used
          && ((Forking(s.pc[ch.p]) && s.pc[ch.p].i == ch.c.i) || (ch.j == ch.c.i && s.st[ch.j] == Unused))
          && (ch.c.FAcquire? || ch.c.FSet? ==> ParentAfter(s, ch, ch.c.i) == None)
          && (ch.c.FRelease? || ch.c.FStart? ==> ParentAfter(s, ch, ch.c.i) == Some(ch.p)))
    && (s.st[ch.j] == Used && (ch.st != Used || ch.parent != s.parent[ch.j]) ==> Forking(s.pc[ch.p]) && s.pc[ch.p].i == ch.j)
    && (s.pc[ch.p].FRelease? || s.pc[ch.p].FStart? ==>
          ch.c == FRelease(s.pc[ch.p].i) || ch.c == FStart(s.pc[ch.p].i) || (ch.j == s.pc[ch.p].i && ch.st != Used))
    && (ch.st == Used && ch.parent.Some? && (s.st[ch.j] != Used || s.parent[ch.j] != ch.parent) ==> ch.parent == Some(ch.p) && ch.c == FRelease(ch.j))
  }

  ghost predicate ReparentLocal(s: State, ch: Change)
    requires Shaped(s) && ch.p < |s.pc| && ch.j < |s.pc|
  {
    && (ch.parent == s.parent[ch.j] || ch.parent == None || (ch.parent == Some(ch.p) && Past(ch.c, |s.pc|) == 0)
        || (ch.parent == Some(s.init) && s.init != ch.p))
    && (forall x :: 0 <= x < |s.pc| && Past(s.pc[ch.p], |s.pc|) <= x < Past(ch.c, |s.pc|) ==> ParentAfter(s, ch, x) != Some(ch.p))
  }

  // Only the holder of wait_lock changes the tree, makes a zombie or frees one.
  predicate UnderLock(s: State, ch: Change)
    requires Shaped(s) && ch.p < |s.pc| && ch.j < |s.pc|
  {
    ch.parent != s.parent[ch.j] || (ch.st == Zombie) != (s.st[ch.j] == Zombie) ==> s.wl == Some(ch.p) && Scanned(ch.c, |s.pc|) == 0
  }

  ghost predicate ScanLocal(s: State, ch: Change)
    requires Shaped(s) && ch.p < |s.pc| && ch.j < |s.pc|
  {
    && (forall x :: 0 <= x < |s.pc| && Scanned(s.pc[ch.p], |s.pc|) <= x < Scanned(ch.c, |s.pc|) ==>
          ParentAfter(s, ch, x) != Some(ch.p) || StAfter(s, ch, x) != Zombie)
    && (ch.c.VChild? || ch.c.VCheck? || ch.c.VUnlock? || ch.c.VFree? ==>
          ch.c.i < |s.pc| && ch.c.i != ch.p && ParentAfter(s, ch, ch.c.i) == Some(ch.p))
    && (ch.c.VFree? ==> StAfter(s, ch, ch.c.i) == Zombie)
    && (ch.c.VFreed? ==> ch.c.i < |s.pc| && ch.c.i != ch.p)
  }

  predicate SleepLocal(s: State, ch: Change)
    requires Shaped(s) && ch.p < |s.pc| && ch.j < |s.pc|
  {
    && (ch.asleep ==> ch.d == VAsleep) && (ch.j != ch.p ==> !s.asleep[ch.p])
    && (ch.asleep && !s.asleep[ch.j] ==> ch.j == ch.p && s.pc[ch.p] == VSleep && ch.st == s.st[ch.j] && ch.parent == s.parent[ch.j])
    && (ch.st == Zombie && s.st[ch.j] != Zombie ==> ch.j == ch.p && s.pc[ch.p] == XZombie && ch.parent == s.parent[ch.j] && !ch.asleep)
    && (ch.parent != s.parent[ch.j] && ch.parent.Some? ==>
          ch.j != ch.p && ((ch.parent == Some(s.init) && ch.c.XWakeInit? && ch.wl == Some(ch.p)) || ch.parent == Some(ch.p)))
    && (s.pc[ch.p].XWakeInit? ==> (ch.j == s.init && !ch.asleep) || (ch.c == s.pc[ch.p] && ch.wl == s.wl))
    && (ch.c.XLock? || ch.c.XZombie? ==>
          && s.parent[ch.p].Some? && s.parent[ch.p].value < |s.pc| && s.parent[ch.p].value != ch.p && ParentAfter(s, ch, ch.p) == s.parent[ch.p]
          && !(if ch.j == s.parent[ch.p].value then ch.asleep else s.asleep[s.parent[ch.p].value]))
  }

  // The lives of processes: which changes of state and parent there are.
  predicate LifeLocal(s: State, ch: Change)
    requires Shaped(s) && ch.p < |s.pc| && ch.j < |s.pc|
  {
    var st, parent := s.st[ch.j], s.parent[ch.j];
    && (ch.st != st ==>
          || (st == Unused && ch.st == Used && ch.parent == None)
          || (st == Used && (ch.st == Live || ch.st == Unused) && ch.parent == parent)
          || (st == Live && ch.st == Zombie && ch.j == ch.p && ch.parent == parent)
          || (st == Zombie && ch.st == Unused && ch.parent == None && parent == Some(ch.p) && ch.j != ch.p))
    && (ch.st == st && ch.parent != parent ==>
          || (st == Used && parent == None && ch.parent == Some(ch.p))
          || (parent.Some? && ch.parent == Some(s.init)))
    && (ch.j == s.init ==> ch.st == st && ch.parent == parent)
  }

  ghost predicate LocalA(s: State, ch: Change)
    requires Shaped(s) && ch.p < |s.pc| && ch.j < |s.pc|
  {
    BystanderLocal(s, ch) && WlLocal(s, ch) && PlLocal(s, ch) && StLocal(s, ch)
  }

  ghost predicate LocalB(s: State, ch: Change)
    requires Shaped(s) && ch.p < |s.pc| && ch.j < |s.pc|
  {
    TreeLocal(s, ch) && ForkLocal(s, ch) && ReparentLocal(s, ch)
  }

  ghost predicate LocalC(s: State, ch: Change)
    requires Shaped(s) && ch.p < |s.pc| && ch.j < |s.pc|
  {
    UnderLock(s, ch) && ScanLocal(s, ch) && SleepLocal(s, ch) && LifeLocal(s, ch)
  }

  // ---------------------------------------------------------------- every part is kept

  lemma KeepLocks(s: State, ch: Change)
    requires Fit(s, ch) && Locks(s) && BystanderLocal(s, ch) && WlLocal(s, ch) && PlLocal(s, ch)
    ensures Locks(Apply(s, ch))
  {
    hide HoldsW; hide HoldsP;
    if ch.j != ch.p && ch.d != s.pc[ch.j] {
      HoldsNothing(ch.d);
      HoldsNothing(s.pc[ch.j]);
    }
  }

  lemma HoldsNothing(pc: Pc)
    requires pc == NoProc || pc == User || pc == Gone
    ensures !HoldsW(pc) && forall q, i :: !HoldsP(pc, q, i)
  {
  }

  lemma KeepStates(s: State, ch: Change)
    requires Fit(s, ch) && States(s) && StLocal(s, ch)
    ensures States(Apply(s, ch))
  {
    hide Fits;
  }

  lemma KeepTree(s: State, ch: Change)
    requires Fit(s, ch) && Tree(s) && TreeLocal(s, ch)
    ensures Tree(Apply(s, ch))
  {
  }

  lemma KeepForks(s: State, ch: Change)
    requires Fit(s, ch) && Forks(s) && ForkLocal(s, ch) && BystanderLocal(s, ch)
    ensures Forks(Apply(s, ch))
  {
    hide Apply; hide ForkOf; hide SoleForker; hide ForkLocal; hide BystanderLocal; hide Starting;
    var s', n := Apply(s, ch), |s.pc|;
    SameSize(s, ch);
    forall p | 0 <= p < n ensures ForkOf(s', p) { Forked(s, ch, p); }
    forall p, q | 0 <= p < n && 0 <= q < n ensures SoleForker(s', p, q) { StillSole(s, ch, p, q); }
    forall c | 0 <= c < n && s'.st[c] == Used && s'.parent[c].Some? ensures Starting(s', s'.parent[c].value, c) {
      StillStarting(s, ch, c);
    }
  }

  lemma StillSole(s: State, ch: Change, p: nat, q: nat)
    requires Fit(s, ch) && Forks(s) && ForkLocal(s, ch) && BystanderLocal(s, ch) && p < |s.pc| && q < |s.pc|
    ensures Shaped(Apply(s, ch)) && SoleForker(Apply(s, ch), p, q)
  {
    assert SoleForker(s, p, q) && ForkOf(s, p) && ForkOf(s, q);
  }

  lemma StillStarting(s: State, ch: Change, c: nat)
    requires Fit(s, ch) && Forks(s) && ForkLocal(s, ch) && BystanderLocal(s, ch) && c < |s.pc|
    requires Apply(s, ch).st[c] == Used && Apply(s, ch).parent[c].Some?
    ensures Starting(Apply(s, ch), Apply(s, ch).parent[c].value, c)
  {
  }

  lemma Forked(s: State, ch: Change, p: nat)
    requires Fit(s, ch) && Forks(s) && ForkLocal(s, ch) && BystanderLocal(s, ch) && p < |s.pc|
    ensures Shaped(Apply(s, ch)) && ForkOf(Apply(s, ch), p)
  {
    assert ForkOf(s, p) && SoleForker(s, p, ch.p);
    hide Forks;
  }

  lemma KeepReparented(s: State, ch: Change)
    requires Fit(s, ch) && Reparented(s) && ReparentLocal(s, ch) && BystanderLocal(s, ch) && States(s)
    ensures Reparented(Apply(s, ch))
  {
    var s', n := Apply(s, ch), |s.pc|;
    forall q, c | 0 <= q < n && 0 <= c < n && c < Past(s'.pc[q], n) ensures s'.parent[c] != Some(q) {
      if q == ch.p && c >= Past(s.pc[q], n) {
        assert ParentAfter(s, ch, c) != Some(ch.p);
      } else {
        assert s.parent[c] != Some(q);
      }
    }
  }

  lemma KeepScans(s: State, ch: Change)
    requires Fit(s, ch) && Locks(s) && Scans(s) && ScanLocal(s, ch) && UnderLock(s, ch) && BystanderLocal(s, ch)
    ensures Scans(Apply(s, ch))
  {
    hide HoldsP; hide HoldsW; hide Locks; hide ScanLocal; hide UnderLock; hide BystanderLocal; hide Scanned; hide Apply;
    var s', n := Apply(s, ch), |s.pc|;
    SameSize(s, ch);
    forall p, c | 0 <= p < n && 0 <= c < n && c < Scanned(s'.pc[p], n) && s'.parent[c] == Some(p) ensures s'.st[c] != Zombie {
      ScannedChild(s, ch, p, c);
    }
    forall p | 0 <= p < n && (s'.pc[p].VChild? || s'.pc[p].VCheck? || s'.pc[p].VUnlock? || s'.pc[p].VFree? || s'.pc[p].VFreed?)
      ensures s'.pc[p].i < n && s'.pc[p].i != p && (s'.pc[p].VFreed? || s'.parent[s'.pc[p].i] == Some(p))
      ensures s'.pc[p].VFree? ==> s'.st[s'.pc[p].i] == Zombie
    {
      ScanTarget(s, ch, p);
    }
  }

  lemma SameSize(s: State, ch: Change)
    requires Fit(s, ch)
    ensures Shaped(Apply(s, ch)) && |Apply(s, ch).pc| == |s.pc| && Apply(s, ch).init == s.init
  {
  }

  // A process other than p that holds wait_lock is not affected by p's step.
  lemma Undisturbed(s: State, ch: Change, q: nat)
    requires Fit(s, ch) && Locks(s) && BystanderLocal(s, ch) && UnderLock(s, ch) && q < |s.pc| && q != ch.p && HoldsW(Apply(s, ch).pc[q])
    ensures var s' := Apply(s, ch);
      && s'.pc[q] == s.pc[q] && s'.parent == s.parent && (forall c :: 0 <= c < |s.pc| ==> (s'.st[c] == Zombie <==> s.st[c] == Zombie))
  {
    hide HoldsP;
  }

  lemma ScannedChild(s: State, ch: Change, p: nat, c: nat)
    requires Fit(s, ch) && Locks(s) && Scans(s) && ScanLocal(s, ch) && UnderLock(s, ch) && BystanderLocal(s, ch) && p < |s.pc| && c < |s.pc|
    requires var s' := Apply(s, ch); c < Scanned(s'.pc[p], |s.pc|) && s'.parent[c] == Some(p)
    ensures Apply(s, ch).st[c] != Zombie
  {
    hide HoldsP; hide Locks; hide BystanderLocal;
    if p != ch.p {
      Undisturbed(s, ch, p);
    } else if c >= Scanned(s.pc[p], |s.pc|) {
      assert ParentAfter(s, ch, c) != Some(ch.p) || StAfter(s, ch, c) != Zombie;
    }
  }

  lemma ScanTarget(s: State, ch: Change, p: nat)
    requires Fit(s, ch) && Locks(s) && Scans(s) && ScanLocal(s, ch) && UnderLock(s, ch) && BystanderLocal(s, ch) && p < |s.pc|
    requires var pc := Apply(s, ch).pc[p]; pc.VChild? || pc.VCheck? || pc.VUnlock? || pc.VFree? || pc.VFreed?
    ensures var s' := Apply(s, ch);
      && s'.pc[p].i < |s.pc| && s'.pc[p].i != p && (s'.pc[p].VFreed? || s'.parent[s'.pc[p].i] == Some(p))
      && (s'.pc[p].VFree? ==> s'.st[s'.pc[p].i] == Zombie)
  {
    hide HoldsP; hide Locks; hide BystanderLocal; hide Scanned;
    if p != ch.p {
      Undisturbed(s, ch, p);
    }
  }

  // ---- sleepers

  lemma KeepNoMissedExit(s: State, ch: Change)
    requires Fit(s, ch) && Locks(s) && Scans(s) && NoMissedExit(s) && States(s) && SleepLocal(s, ch) && UnderLock(s, ch)
    requires BystanderLocal(s, ch) && WlLocal(s, ch)
    ensures NoMissedExit(Apply(s, ch))
  {
    hide HoldsP; hide HoldsW; hide Locks; hide States; hide UnderLock; hide BystanderLocal; hide Apply; hide WlLocal; hide SleepLocal; hide Scans; hide WakingInit;
    var s', n := Apply(s, ch), |s.pc|;
    SameSize(s, ch);
    forall p | 0 <= p < n && s'.asleep[p] ensures s'.pc[p] == VAsleep {
      SleepsThere(s, ch, p);
    }
    forall p, c | 0 <= p < n && 0 <= c < n && s'.asleep[p] && s'.parent[c] == Some(p) && s'.st[c] == Zombie
      ensures p == s.init && WakingInit(s')
    {
      SleepsOver(s, ch, p, c);
    }
    forall q | 0 <= q < n && (s'.pc[q].XLock? || s'.pc[q].XZombie?)
      ensures s'.parent[q].Some? && s'.parent[q].value < n && !s'.asleep[s'.parent[q].value]
    {
      ParentAwake(s, ch, q);
    }
  }

  lemma SleepsThere(s: State, ch: Change, p: nat)
    requires Fit(s, ch) && NoMissedExit(s) && SleepLocal(s, ch) && BystanderLocal(s, ch) && p < |s.pc| && Apply(s, ch).asleep[p]
    ensures Apply(s, ch).pc[p] == VAsleep
  {
  }

  lemma SleepsOver(s: State, ch: Change, p: nat, c: nat)
    requires Fit(s, ch) && Locks(s) && Scans(s) && NoMissedExit(s) && SleepLocal(s, ch) && BystanderLocal(s, ch) && WlLocal(s, ch)
    requires p < |s.pc| && c < |s.pc|
    requires var s' := Apply(s, ch); s'.asleep[p] && s'.parent[c] == Some(p) && s'.st[c] == Zombie
    ensures p == s.init && Shaped(Apply(s, ch)) && WakingInit(Apply(s, ch))
  {
    hide Locks; hide Scans; hide NoMissedExit; hide BystanderLocal; hide WlLocal; hide SleepLocal; hide WakingInit;
    SameSize(s, ch);
    if s.asleep[p] && s.parent[c] == Some(p) && s.st[c] == Zombie {
      OldPair(s, ch, p, c);
    } else {
      NewPair(s, ch, p, c);
    }
  }

  lemma OldPair(s: State, ch: Change, p: nat, c: nat)
    requires Fit(s, ch) && Locks(s) && NoMissedExit(s) && SleepLocal(s, ch) && BystanderLocal(s, ch) && WlLocal(s, ch)
    requires p < |s.pc| && c < |s.pc| && s.asleep[p] && s.parent[c] == Some(p) && s.st[c] == Zombie && Apply(s, ch).asleep[p]
    ensures p == s.init && Shaped(Apply(s, ch)) && WakingInit(Apply(s, ch))
  {
    hide Locks; hide HoldsP;
    assert p == s.init && WakingInit(s);
    OwnLocks(s, s.wl.value, s.wl.value);
  }

  lemma NewPair(s: State, ch: Change, p: nat, c: nat)
    requires Fit(s, ch) && Scans(s) && NoMissedExit(s) && SleepLocal(s, ch)
    requires p < |s.pc| && c < |s.pc| && !(s.asleep[p] && s.parent[c] == Some(p) && s.st[c] == Zombie)
    requires var s' := Apply(s, ch); s'.asleep[p] && s'.parent[c] == Some(p) && s'.st[c] == Zombie
    ensures p == s.init && Shaped(Apply(s, ch)) && WakingInit(Apply(s, ch))
  {
    assert Scanned(VSleep, |s.pc|) == |s.pc|;
  }

  lemma ParentAwake(s: State, ch: Change, q: nat)
    requires Fit(s, ch) && Locks(s) && NoMissedExit(s) && SleepLocal(s, ch) && BystanderLocal(s, ch) && UnderLock(s, ch) && q < |s.pc|
    requires var pc := Apply(s, ch).pc[q]; pc.XLock? || pc.XZombie?
    ensures var s' := Apply(s, ch);
      s'.parent[q].Some? && s'.parent[q].value < |s.pc| && !s'.asleep[s'.parent[q].value]
  {
    hide HoldsP; hide Locks; hide BystanderLocal; hide Scanned;
    if q != ch.p {
      Undisturbed(s, ch, q);
      OwnLocks(s, q, 0);
      OwnLocks(s, ch.p, 0);
    }
  }

  lemma OwnLocks(s: State, p: nat, i: nat)
    requires Shaped(s) && Locks(s) && p < |s.pc| && i < |s.pc|
    ensures s.wl == Some(p) <==> HoldsW(s.pc[p])
    ensures s.plock[i] == By(p) <==> HoldsP(s.pc[p], p, i)
  {
  }

  // ---------------------------------------------------------------- every step satisfies it

  // What the invariant says about process p.

  ghost predicate StateOf(s: State, p: nat)
    requires Shaped(s) && p < |s.pc|
  {
    && Fits(s.st[p], s.pc[p]) && (p == s.init ==> !Exiting(s.pc[p]))
    && (s.parent[p].Some? ==> s.parent[p].value < |s.pc| && s.parent[p].value != p && s.st[s.parent[p].value] == Live)
    && (s.st[p] == Unused || p == s.init ==> s.parent[p] == None)
    && (p != s.init && (s.st[p] == Live || s.st[p] == Zombie) ==> s.parent[p].Some?)
  }

  ghost predicate ExitOf(s: State, p: nat)
    requires Shaped(s) && p < |s.pc|
  {
    && (s.asleep[p] ==> s.pc[p] == VAsleep)
    && (s.pc[p].XLock? || s.pc[p].XZombie? ==>
          s.parent[p].Some? && s.parent[p].value < |s.pc| && !s.asleep[s.parent[p].value])
    && (s.pc[p].XWake? || s.pc[p].XLock? || s.pc[p].XZombie? ==> forall c :: 0 <= c < |s.pc| ==> s.parent[c] != Some(p))
  }

  ghost predicate ChildOf(s: State, p: nat)
    requires Shaped(s) && p < |s.pc|
  {
    ForkOf(s, p) && (s.st[p] == Used && s.parent[p].Some? ==> Starting(s, s.parent[p].value, p))
  }

  ghost predicate ScanOf(s: State, p: nat)
    requires Shaped(s) && p < |s.pc|
  {
    && (s.pc[p].VChild? || s.pc[p].VCheck? || s.pc[p].VUnlock? || s.pc[p].VFree? ==>
          s.pc[p].i < |s.pc| && s.pc[p].i != p && s.parent[s.pc[p].i] == Some(p))
    && (s.pc[p].VFree? ==> s.st[s.pc[p].i] == Zombie)
    && (s.pc[p].VFreed? ==> s.pc[p].i < |s.pc| && s.pc[p].i != p)
  }

  lemma AboutState(s: State, p: nat)
    requires Inv(s) && p < |s.pc|
    ensures s.st[s.init] == Live && StateOf(s, p)
  {
    hide Locks; hide Forks; hide Scans; hide Reparented; hide NoMissedExit; hide Fits; hide Exiting;
  }

  lemma AboutExit(s: State, p: nat)
    requires Inv(s) && p < |s.pc|
    ensures ExitOf(s, p)
  {
    hide Locks; hide Forks; hide Scans; hide States; hide Tree;
  }

  lemma AboutChild(s: State, p: nat)
    requires Inv(s) && p < |s.pc|
    ensures ChildOf(s, p)
  {
    hide Locks; hide States; hide Tree; hide Reparented; hide NoMissedExit; hide Scans; hide ForkOf;
  }

  lemma AboutScan(s: State, p: nat)
    requires Inv(s) && p < |s.pc|
    ensures ScanOf(s, p)
  {
    hide Locks; hide States; hide Tree; hide Reparented; hide NoMissedExit; hide Forks;
  }

  lemma AboutLocks(s: State, p: nat, j: nat)
    requires Inv(s) && p < |s.pc| && j < |s.pc|
    ensures (s.wl == Some(p) <==> HoldsW(s.pc[p])) && (s.plock[p] == By(p) <==> HoldsP(s.pc[p], p, p))
    ensures (s.plock[j] == By(p) <==> HoldsP(s.pc[p], p, j)) && (s.plock[j] == By(j) <==> HoldsP(s.pc[j], j, j))
  {
    hide States; hide Tree; hide Forks; hide Reparented; hide Scans; hide NoMissedExit; hide HoldsP; hide HoldsW;
  }

  // All of it, for the process that moves and the one whose fields change.
  lemma About(s: State, p: nat, j: nat)
    requires Inv(s) && p < |s.pc| && j < |s.pc|
    ensures (s.wl == Some(p) <==> HoldsW(s.pc[p])) && (s.plock[p] == By(p) <==> HoldsP(s.pc[p], p, p))
    ensures (s.plock[j] == By(p) <==> HoldsP(s.pc[p], p, j)) && (s.plock[j] == By(j) <==> HoldsP(s.pc[j], j, j))
    ensures s.st[s.init] == Live && StateOf(s, p) && StateOf(s, j)
    ensures ExitOf(s, p) && ExitOf(s, j) && ChildOf(s, p) && ChildOf(s, j) && ScanOf(s, p)
  {
    hide Inv; hide HoldsP; hide HoldsW; hide Fits; hide Exiting; hide Forking; hide Starting;
    AboutLocks(s, p, j); AboutState(s, p); AboutState(s, j); AboutExit(s, p); AboutExit(s, j); AboutChild(s, p); AboutChild(s, j); AboutScan(s, p);
  }

  lemma InvParts(s: State)
    requires Inv(s)
    ensures Shaped(s)
  {
  }

  ghost predicate Local(s: State, ch: Change)
    requires Shaped(s) && ch.p < |s.pc| && ch.j < |s.pc|
  {
    LocalA(s, ch) && LocalB(s, ch) && LocalC(s, ch)
  }

  // The steps, a few at a time.

  lemma ForkLink(s: State, p: nat)
    requires Inv(s) && p < |s.pc| && (s.pc[p].FAcquire? || s.pc[p].FSet?) && Next(s, p).Some?
    ensures Fit(s, Next(s, p).value) && Local(s, Next(s, p).value)
  {
    hide Inv;
    InvParts(s);
    var j := Next(s, p).value.j;
    About(s, p, j);
  }

  lemma ForkStart(s: State, p: nat)
    requires Inv(s) && p < |s.pc| && (s.pc[p].FRelease? || s.pc[p].FStart?) && Next(s, p).Some?
    ensures Fit(s, Next(s, p).value) && Local(s, Next(s, p).value)
  {
    hide Inv;
    InvParts(s);
    var j := Next(s, p).value.j;
    About(s, p, j);
  }

  lemma ExitReparentLocks(s: State, p: nat)
    requires Inv(s) && p < |s.pc| && s.pc[p].XReparent? && Next(s, p).Some?
    ensures Fit(s, Next(s, p).value) && LocalA(s, Next(s, p).value)
  {
    hide Inv; hide Scanned; hide Past; hide Starting; hide Forking;
    InvParts(s);
    var j := Next(s, p).value.j;
    AboutLocks(s, p, j); AboutState(s, p); AboutState(s, j); AboutExit(s, p); AboutScan(s, p);
  }

  lemma ExitReparentTree(s: State, p: nat)
    requires Inv(s) && p < |s.pc| && s.pc[p].XReparent? && Next(s, p).Some?
    ensures Fit(s, Next(s, p).value) && LocalB(s, Next(s, p).value)
  {
    hide Inv; hide Scanned; hide HoldsP; hide HoldsW;
    InvParts(s);
    var j := Next(s, p).value.j;
    AboutState(s, p); AboutState(s, j); AboutExit(s, p); AboutChild(s, p); AboutChild(s, j); AboutScan(s, p);
  }

  lemma ExitReparentRest(s: State, p: nat)
    requires Inv(s) && p < |s.pc| && s.pc[p].XReparent? && Next(s, p).Some?
    ensures Fit(s, Next(s, p).value) && LocalC(s, Next(s, p).value)
  {
    hide Inv; hide HoldsP; hide Past; hide Starting;
    InvParts(s);
    var j := Next(s, p).value.j;
    AboutLocks(s, p, j); AboutState(s, p); AboutState(s, j); AboutExit(s, p); AboutExit(s, j); AboutScan(s, p);
  }

  lemma ExitReparent(s: State, p: nat)
    requires Inv(s) && p < |s.pc| && s.pc[p].XReparent? && Next(s, p).Some?
    ensures Fit(s, Next(s, p).value) && Local(s, Next(s, p).value)
  {
    hide Inv; hide LocalA; hide LocalB; hide LocalC;
    ExitReparentLocks(s, p);
    ExitReparentTree(s, p);
    ExitReparentRest(s, p);
  }

  lemma ExitWakeInit(s: State, p: nat)
    requires Inv(s) && p < |s.pc| && s.pc[p].XWakeInit? && Next(s, p).Some?
    ensures Fit(s, Next(s, p).value) && Local(s, Next(s, p).value)
  {
    hide Inv;
    InvParts(s);
    var j := Next(s, p).value.j;
    About(s, p, j);
  }

  lemma ExitWake(s: State, p: nat)
    requires Inv(s) && p < |s.pc| && s.pc[p].XWake? && Next(s, p).Some?
    ensures Fit(s, Next(s, p).value) && Local(s, Next(s, p).value)
  {
    hide Inv;
    InvParts(s);
    var j := Next(s, p).value.j;
    About(s, p, j);
  }

  lemma ExitZombie(s: State, p: nat)
    requires Inv(s) && p < |s.pc| && (s.pc[p].XAcquire? || s.pc[p].XLock? || s.pc[p].XZombie?) && Next(s, p).Some?
    ensures Fit(s, Next(s, p).value) && Local(s, Next(s, p).value)
  {
    hide Inv;
    InvParts(s);
    var j := Next(s, p).value.j;
    About(s, p, j);
  }

  lemma ExitSched(s: State, p: nat)
    requires Inv(s) && p < |s.pc| && (s.pc[p].XRelease? || s.pc[p].XSched?) && Next(s, p).Some?
    ensures Fit(s, Next(s, p).value) && Local(s, Next(s, p).value)
  {
    hide Inv;
    InvParts(s);
    var j := Next(s, p).value.j;
    About(s, p, j);
  }

  lemma WaitScanLocks(s: State, p: nat)
    requires Inv(s) && p < |s.pc| && (s.pc[p].VAcquire? || s.pc[p].VScan?) && Next(s, p).Some?
    ensures Fit(s, Next(s, p).value) && LocalA(s, Next(s, p).value)
  {
    hide Inv; hide Scanned; hide Past; hide Starting; hide Forking;
    InvParts(s);
    var j := Next(s, p).value.j;
    AboutLocks(s, p, j); AboutState(s, p); AboutState(s, j); AboutExit(s, p); AboutScan(s, p);
  }

  lemma WaitScanTree(s: State, p: nat)
    requires Inv(s) && p < |s.pc| && (s.pc[p].VAcquire? || s.pc[p].VScan?) && Next(s, p).Some?
    ensures Fit(s, Next(s, p).value) && LocalB(s, Next(s, p).value)
  {
    hide Inv; hide Scanned; hide HoldsP; hide HoldsW;
    InvParts(s);
    var j := Next(s, p).value.j;
    AboutState(s, p); AboutState(s, j); AboutExit(s, p); AboutChild(s, p); AboutChild(s, j); AboutScan(s, p);
  }

  lemma WaitScanRest(s: State, p: nat)
    requires Inv(s) && p < |s.pc| && (s.pc[p].VAcquire? || s.pc[p].VScan?) && Next(s, p).Some?
    ensures Fit(s, Next(s, p).value) && LocalC(s, Next(s, p).value)
  {
    hide Inv; hide HoldsP; hide Past; hide Starting;
    InvParts(s);
    var j := Next(s, p).value.j;
    AboutLocks(s, p, j); AboutState(s, p); AboutState(s, j); AboutExit(s, p); AboutExit(s, j); AboutScan(s, p);
  }

  lemma WaitScan(s: State, p: nat)
    requires Inv(s) && p < |s.pc| && (s.pc[p].VAcquire? || s.pc[p].VScan?) && Next(s, p).Some?
    ensures Fit(s, Next(s, p).value) && Local(s, Next(s, p).value)
  {
    hide Inv; hide LocalA; hide LocalB; hide LocalC;
    WaitScanLocks(s, p);
    WaitScanTree(s, p);
    WaitScanRest(s, p);
  }

  lemma WaitChildLocks(s: State, p: nat)
    requires Inv(s) && p < |s.pc| && (s.pc[p].VChild? || s.pc[p].VCheck?) && Next(s, p).Some?
    ensures Fit(s, Next(s, p).value) && LocalA(s, Next(s, p).value)
  {
    hide Inv; hide Scanned; hide Past; hide Starting; hide Forking;
    InvParts(s);
    var j := Next(s, p).value.j;
    AboutLocks(s, p, j); AboutState(s, p); AboutState(s, j); AboutExit(s, p); AboutScan(s, p);
  }

  lemma WaitChildTree(s: State, p: nat)
    requires Inv(s) && p < |s.pc| && (s.pc[p].VChild? || s.pc[p].VCheck?) && Next(s, p).Some?
    ensures Fit(s, Next(s, p).value) && LocalB(s, Next(s, p).value)
  {
    hide Inv; hide Scanned; hide HoldsP; hide HoldsW;
    InvParts(s);
    var j := Next(s, p).value.j;
    AboutState(s, p); AboutState(s, j); AboutExit(s, p); AboutChild(s, p); AboutChild(s, j); AboutScan(s, p);
  }

  lemma WaitChildRest(s: State, p: nat)
    requires Inv(s) && p < |s.pc| && (s.pc[p].VChild? || s.pc[p].VCheck?) && Next(s, p).Some?
    ensures Fit(s, Next(s, p).value) && LocalC(s, Next(s, p).value)
  {
    hide Inv; hide HoldsP; hide Past; hide Starting;
    InvParts(s);
    var j := Next(s, p).value.j;
    AboutLocks(s, p, j); AboutState(s, p); AboutState(s, j); AboutExit(s, p); AboutExit(s, j); AboutScan(s, p);
  }

  lemma WaitChild(s: State, p: nat)
    requires Inv(s) && p < |s.pc| && (s.pc[p].VChild? || s.pc[p].VCheck?) && Next(s, p).Some?
    ensures Fit(s, Next(s, p).value) && Local(s, Next(s, p).value)
  {
    hide Inv; hide LocalA; hide LocalB; hide LocalC;
    WaitChildLocks(s, p);
    WaitChildTree(s, p);
    WaitChildRest(s, p);
  }

  lemma WaitFree(s: State, p: nat)
    requires Inv(s) && p < |s.pc| && s.pc[p].VFree? && Next(s, p).Some?
    ensures Fit(s, Next(s, p).value) && Local(s, Next(s, p).value)
  {
    hide Inv;
    InvParts(s);
    var j := Next(s, p).value.j;
    About(s, p, j);
  }

  lemma WaitUnlockLocks(s: State, p: nat)
    requires Inv(s) && p < |s.pc| && (s.pc[p].VUnlock? || s.pc[p].VFreed?) && Next(s, p).Some?
    ensures Fit(s, Next(s, p).value) && LocalA(s, Next(s, p).value)
  {
    hide Inv; hide Scanned; hide Past; hide Starting; hide Forking;
    InvParts(s);
    var j := Next(s, p).value.j;
    AboutLocks(s, p, j); AboutState(s, p); AboutState(s, j); AboutExit(s, p); AboutScan(s, p);
  }

  lemma WaitUnlockTree(s: State, p: nat)
    requires Inv(s) && p < |s.pc| && (s.pc[p].VUnlock? || s.pc[p].VFreed?) && Next(s, p).Some?
    ensures Fit(s, Next(s, p).value) && LocalB(s, Next(s, p).value)
  {
    hide Inv; hide Scanned; hide HoldsP; hide HoldsW;
    InvParts(s);
    var j := Next(s, p).value.j;
    AboutState(s, p); AboutState(s, j); AboutExit(s, p); AboutChild(s, p); AboutChild(s, j); AboutScan(s, p);
  }

  lemma WaitUnlockRest(s: State, p: nat)
    requires Inv(s) && p < |s.pc| && (s.pc[p].VUnlock? || s.pc[p].VFreed?) && Next(s, p).Some?
    ensures Fit(s, Next(s, p).value) && LocalC(s, Next(s, p).value)
  {
    hide Inv; hide HoldsP; hide Past; hide Starting;
    InvParts(s);
    var j := Next(s, p).value.j;
    AboutLocks(s, p, j); AboutState(s, p); AboutState(s, j); AboutExit(s, p); AboutExit(s, j); AboutScan(s, p);
  }

  lemma WaitUnlock(s: State, p: nat)
    requires Inv(s) && p < |s.pc| && (s.pc[p].VUnlock? || s.pc[p].VFreed?) && Next(s, p).Some?
    ensures Fit(s, Next(s, p).value) && Local(s, Next(s, p).value)
  {
    hide Inv; hide LocalA; hide LocalB; hide LocalC;
    WaitUnlockLocks(s, p);
    WaitUnlockTree(s, p);
    WaitUnlockRest(s, p);
  }

  lemma WaitEnd(s: State, p: nat)
    requires Inv(s) && p < |s.pc| && (s.pc[p].VDone? || s.pc[p].VSleep? || s.pc[p].VAsleep?) && Next(s, p).Some?
    ensures Fit(s, Next(s, p).value) && Local(s, Next(s, p).value)
  {
    hide Inv;
    InvParts(s);
    var j := Next(s, p).value.j;
    About(s, p, j);
  }

  lemma ForkStepsTree(s: State, a: Action)
    requires Inv(s) && Step(s, a).Some? && (a.Fork? || a.ForkFails?)
    ensures Fit(s, Step(s, a).value) && LocalA(s, Step(s, a).value) && LocalB(s, Step(s, a).value)
  {
    hide Inv; hide Next; hide Scanned;
    InvParts(s);
    var p, j := a.p, Step(s, a).value.j;
    AboutLocks(s, p, j); AboutState(s, p); AboutState(s, j); AboutExit(s, p); AboutChild(s, p); AboutChild(s, j);
  }

  lemma ForkStepsRest(s: State, a: Action)
    requires Inv(s) && Step(s, a).Some? && (a.Fork? || a.ForkFails?)
    ensures Fit(s, Step(s, a).value) && LocalC(s, Step(s, a).value)
  {
    hide Inv; hide Next; hide HoldsP; hide Past;
    InvParts(s);
    var p, j := a.p, Step(s, a).value.j;
    AboutLocks(s, p, j); AboutState(s, p); AboutState(s, j); AboutExit(s, p); AboutExit(s, j); AboutChild(s, p); AboutChild(s, j);
  }

  lemma ForkSteps(s: State, a: Action)
    requires Inv(s) && Step(s, a).Some? && (a.Fork? || a.ForkFails?)
    ensures Fit(s, Step(s, a).value) && Local(s, Step(s, a).value)
  {
    hide Inv; hide LocalA; hide LocalB; hide LocalC;
    ForkStepsTree(s, a);
    ForkStepsRest(s, a);
  }

  lemma CallStepsLocks(s: State, a: Action)
    requires Inv(s) && Step(s, a).Some? && (a.Exit? || a.Wait? || a.Killed? || a.CopyFails?)
    ensures Fit(s, Step(s, a).value) && LocalA(s, Step(s, a).value)
  {
    hide Inv; hide Scanned; hide Past; hide Starting; hide Forking; hide Next;
    InvParts(s);
    var p, j := a.p, Step(s, a).value.j;
    AboutLocks(s, p, j); AboutState(s, p); AboutState(s, j); AboutExit(s, p); AboutScan(s, p);
  }

  lemma CallStepsTree(s: State, a: Action)
    requires Inv(s) && Step(s, a).Some? && (a.Exit? || a.Wait? || a.Killed? || a.CopyFails?)
    ensures Fit(s, Step(s, a).value) && LocalB(s, Step(s, a).value)
  {
    hide Inv; hide Scanned; hide HoldsP; hide HoldsW; hide Next;
    InvParts(s);
    var p, j := a.p, Step(s, a).value.j;
    AboutState(s, p); AboutState(s, j); AboutExit(s, p); AboutChild(s, p); AboutChild(s, j); AboutScan(s, p);
  }

  lemma CallStepsRest(s: State, a: Action)
    requires Inv(s) && Step(s, a).Some? && (a.Exit? || a.Wait? || a.Killed? || a.CopyFails?)
    ensures Fit(s, Step(s, a).value) && LocalC(s, Step(s, a).value)
  {
    hide Inv; hide HoldsP; hide Past; hide Starting; hide Next;
    InvParts(s);
    var p, j := a.p, Step(s, a).value.j;
    AboutLocks(s, p, j); AboutState(s, p); AboutState(s, j); AboutExit(s, p); AboutExit(s, j); AboutScan(s, p);
  }

  lemma CallSteps(s: State, a: Action)
    requires Inv(s) && Step(s, a).Some? && (a.Exit? || a.Wait? || a.Killed? || a.CopyFails?)
    ensures Fit(s, Step(s, a).value) && Local(s, Step(s, a).value)
  {
    hide Inv; hide LocalA; hide LocalB; hide LocalC;
    CallStepsLocks(s, a);
    CallStepsTree(s, a);
    CallStepsRest(s, a);
  }

  lemma OtherSteps(s: State, a: Action)
    requires Inv(s) && Step(s, a).Some? && (a.Kill? || a.CpuRelease?)
    ensures Fit(s, Step(s, a).value) && Local(s, Step(s, a).value)
  {
    hide Inv; hide Next;
    InvParts(s);
    var p, j := a.p, Step(s, a).value.j;
    About(s, p, j);
  }

  lemma CanMove(s: State, p: nat)
    requires Shaped(s) && p < |s.pc| && Next(s, p).Some?
    ensures !s.pc[p].NoProc? && !s.pc[p].User? && !s.pc[p].Gone?
  {
  }

  lemma StepLocal(s: State, a: Action)
    requires Inv(s) && Step(s, a).Some?
    ensures Fit(s, Step(s, a).value) && Local(s, Step(s, a).value)
  {
    hide Inv; hide Local; hide Next;
    InvParts(s);
    match a {
      case Run(p) =>
        CanMove(s, p);
        match s.pc[p] {
          case FAcquire(_) => ForkLink(s, p);
          case FSet(_) => ForkLink(s, p);
          case FRelease(_) => ForkStart(s, p);
          case FStart(_) => ForkStart(s, p);
          case XReparent(_) => ExitReparent(s, p);
          case XWakeInit(_) => ExitWakeInit(s, p);
          case XWake => ExitWake(s, p);
          case XAcquire => ExitZombie(s, p);
          case XLock => ExitZombie(s, p);
          case XZombie => ExitZombie(s, p);
          case XRelease => ExitSched(s, p);
          case XSched => ExitSched(s, p);
          case VAcquire => WaitScan(s, p);
          case VScan(_, _) => WaitScan(s, p);
          case VChild(_) => WaitChild(s, p);
          case VCheck(_) => WaitChild(s, p);
          case VFree(_) => WaitFree(s, p);
          case VUnlock(_) => WaitUnlock(s, p);
          case VFreed(_) => WaitUnlock(s, p);
          case _ => WaitEnd(s, p);
        }
      case Fork(_, _) => ForkSteps(s, a);
      case ForkFails(_) => ForkSteps(s, a);
      case Kill(_) => OtherSteps(s, a);
      case CpuRelease(_) => OtherSteps(s, a);
      case _ => CallSteps(s, a);
    }
  }

  /** Every step keeps the invariant. */
  lemma StepKeepsInv(s: State, a: Action)
    requires Inv(s) && Step(s, a).Some?
    ensures Fit(s, Step(s, a).value) && Inv(Apply(s, Step(s, a).value))
  {
    hide Locks; hide States; hide Tree; hide Forks; hide Reparented; hide Scans; hide NoMissedExit; hide Apply; hide Step;
    hide BystanderLocal; hide WlLocal; hide PlLocal; hide StLocal; hide TreeLocal; hide ForkLocal; hide ReparentLocal; hide UnderLock; hide ScanLocal; hide SleepLocal; hide LifeLocal;
    StepLocal(s, a);
    var ch := Step(s, a).value;
    SameSize(s, ch);
    KeepLocks(s, ch);
    KeepStates(s, ch);
    KeepTree(s, ch);
    KeepForks(s, ch);
    KeepReparented(s, ch);
    KeepScans(s, ch);
    KeepNoMissedExit(s, ch);
  }

  // ---------------------------------------------------------------- history

  /** Process ids, exit codes, and what became of every process. */
  datatype History = History(
    pid: seq<nat>, code: seq<int>, nextpid: nat,
    born: map<nat, nat>,          // pid to the pid of the process that forked it
    status: map<nat, int>,        // pid to the status it exited with
    reaped: map<nat, (nat, int)>) // pid to the pid of the process whose kwait returned it, and the status that one got

  predicate Sized(s: State, h: History) { Shaped(s) && |h.pid| == |s.pc| && |h.code| == |s.pc| }

  /** What a step adds. */
  function Note(h: History, s: State, ch: Change): History
    requires Sized(s, h) && ch.p < |s.pc| && ch.j < |s.pc|
  {
    var j, st := ch.j, s.st[ch.j];
    if st == Unused && ch.st == Used then h.(pid := h.pid[j := h.nextpid], nextpid := h.nextpid + 1)                       // allocproc
    else if st == Live && ch.st == Zombie then h.(status := h.status[h.pid[j] := h.code[j]])                              // kexit
    else if st == Zombie && ch.st == Unused then h.(reaped := h.reaped[h.pid[j] := (h.pid[ch.p], h.code[j])])             // kwait
    else if s.parent[j] == None && ch.parent.Some? then h.(born := h.born[h.pid[j] := h.pid[ch.p]])                       // kfork
    else h
  }

  ghost predicate Pids(s: State, h: History)
    requires Sized(s, h)
  {
    && (forall p :: 0 <= p < |s.pc| ==> (s.st[p] != Unused ==> h.pid[p] < h.nextpid))
    && (forall p, q :: 0 <= p < |s.pc| && 0 <= q < |s.pc| && s.st[p] != Unused && s.st[q] != Unused && h.pid[p] == h.pid[q] ==> p == q)
    && (forall k :: k in h.status ==> k < h.nextpid) && (forall k :: k in h.born ==> k < h.nextpid)
  }

  ghost predicate StatusOf(s: State, h: History, p: nat)
    requires Sized(s, h) && p < |s.pc|
  {
    && (s.st[p] == Used || s.st[p] == Live ==> h.pid[p] !in h.status && h.pid[p] !in h.reaped)
    && (s.st[p] == Zombie ==> h.pid[p] in h.status && h.status[h.pid[p]] == h.code[p] && h.pid[p] !in h.reaped)
  }

  // A parent is the process that forked the child, or init.
  ghost predicate BornOf(s: State, h: History, c: nat)
    requires Sized(s, h) && c < |s.pc|
  {
    s.parent[c].Some? && s.parent[c].value < |s.pc| ==>
      h.pid[c] in h.born && (h.born[h.pid[c]] == h.pid[s.parent[c].value] || s.parent[c].value == s.init)
  }

  // Who was reaped had exited with that status, and was reaped by its parent or by init.
  ghost predicate ReapedOf(s: State, h: History, k: nat)
    requires Sized(s, h)
  {
    k in h.reaped ==>
      && k in h.status && h.reaped[k].1 == h.status[k]
      && k in h.born && (h.reaped[k].0 == h.born[k] || h.reaped[k].0 == h.pid[s.init])
  }

  ghost predicate Records(s: State, h: History)
    requires Sized(s, h)
  {
    && (forall p :: 0 <= p < |s.pc| ==> StatusOf(s, h, p))
    && (forall c :: 0 <= c < |s.pc| ==> BornOf(s, h, c))
    && (forall k :: k in h.reaped ==> ReapedOf(s, h, k))
  }

  lemma KeepPids(s: State, ch: Change, h: History)
    requires Fit(s, ch) && Sized(s, h) && Pids(s, h) && Records(s, h) && LifeLocal(s, ch)
    ensures Sized(Apply(s, ch), Note(h, s, ch)) && Pids(Apply(s, ch), Note(h, s, ch))
  {
  }

  // Process ids in use are old, and not shared.
  lemma OwnPid(s: State, h: History, p: nat, j: nat)
    requires Sized(s, h) && Pids(s, h) && p < |s.pc| && j < |s.pc|
    ensures s.st[p] != Unused ==> h.pid[p] < h.nextpid
    ensures s.st[p] != Unused && s.st[j] != Unused && h.pid[p] == h.pid[j] ==> p == j
    ensures h.nextpid !in h.status && h.nextpid !in h.born
  {
  }

  lemma KeepStatus(s: State, ch: Change, h: History, p: nat)
    requires Fit(s, ch) && Sized(s, h) && Pids(s, h) && LifeLocal(s, ch) && p < |s.pc| && StatusOf(s, h, p) && StatusOf(s, h, ch.j)
    requires ReapedOf(s, h, h.nextpid)
    ensures Sized(Apply(s, ch), Note(h, s, ch)) && StatusOf(Apply(s, ch), Note(h, s, ch), p)
  {
    hide Pids;
    OwnPid(s, h, p, ch.j);
  }

  lemma KeepBorn(s: State, ch: Change, h: History, c: nat)
    requires Fit(s, ch) && Sized(s, h) && Pids(s, h) && Tree(s) && LifeLocal(s, ch) && c < |s.pc| && BornOf(s, h, c)
    ensures Sized(Apply(s, ch), Note(h, s, ch)) && BornOf(Apply(s, ch), Note(h, s, ch), c)
  {
    hide Pids; hide Tree;
    AboutTree(s, c);
    AboutTree(s, ch.j);
    OwnPid(s, h, c, ch.j);
  }

  lemma AboutTree(s: State, c: nat)
    requires Shaped(s) && Tree(s) && c < |s.pc|
    ensures s.parent[c].Some? ==> s.parent[c].value < |s.pc| && s.parent[c].value != c && s.st[s.parent[c].value] == Live && s.st[c] != Unused
    ensures s.parent[s.init] == None
  {
  }

  lemma KeepReaped(s: State, ch: Change, h: History, k: nat)
    requires Fit(s, ch) && Sized(s, h) && LifeLocal(s, ch) && StatusOf(s, h, ch.j) && BornOf(s, h, ch.j) && ReapedOf(s, h, k)
    requires s.st[s.init] == Live && (s.parent[ch.j].Some? ==> s.parent[ch.j].value < |s.pc|)
    requires s.st[ch.j] == Used && s.parent[ch.j] == None ==> h.pid[ch.j] !in h.reaped
    ensures Sized(Apply(s, ch), Note(h, s, ch)) && ReapedOf(Apply(s, ch), Note(h, s, ch), k)
  {
  }

  lemma KeepRecords(s: State, ch: Change, h: History)
    requires Fit(s, ch) && Sized(s, h) && Pids(s, h) && Records(s, h) && Tree(s) && States(s) && LifeLocal(s, ch)
    ensures Sized(Apply(s, ch), Note(h, s, ch)) && Records(Apply(s, ch), Note(h, s, ch))
  {
    hide Pids; hide Tree; hide LifeLocal; hide Note; hide Apply; hide StatusOf; hide BornOf; hide ReapedOf; hide Fits;
    var s', h', n := Apply(s, ch), Note(h, s, ch), |s.pc|;
    SameSize(s, ch);
    KeepPids(s, ch, h);
    AboutTree(s, ch.j);
    NotReaped(s, h, ch.j);
    forall p | 0 <= p < n ensures StatusOf(s', h', p) { KeepStatus(s, ch, h, p); }
    forall c | 0 <= c < n ensures BornOf(s', h', c) { KeepBorn(s, ch, h, c); }
    forall k | k in h'.reaped ensures ReapedOf(s', h', k) {
      NotReapedMeans(s, h, k);
      KeepReaped(s, ch, h, k);
    }
  }

  // What the records say of a process, and of a process id not given yet.
  lemma NotReaped(s: State, h: History, j: nat)
    requires Sized(s, h) && Pids(s, h) && Records(s, h) && j < |s.pc|
    ensures StatusOf(s, h, j) && BornOf(s, h, j) && ReapedOf(s, h, h.nextpid)
    ensures s.st[j] == Used ==> h.pid[j] !in h.reaped
  {
    if h.nextpid in h.reaped {
      assert ReapedOf(s, h, h.nextpid);
    }
    assert StatusOf(s, h, j);
  }

  lemma NotReapedMeans(s: State, h: History, k: nat)
    requires Sized(s, h) && Records(s, h)
    ensures ReapedOf(s, h, k)
  {
    hide StatusOf; hide BornOf;
  }

  // ---------------------------------------------------------------- whole runs

  ghost predicate Sound(s: State, h: History) { Inv(s) && Sized(s, h) && Pids(s, h) && Records(s, h) }

  /** The code a process exits with is set when it calls exit. */
  function Coded(h: History, a: Action, code: int): History
    requires a.p < |h.code|
  {
    if a.Exit? then h.(code := h.code[a.p := code]) else h
  }

  lemma StepIsSound(s: State, h: History, a: Action, code: int)
    requires Sound(s, h) && Step(s, a).Some?
    ensures var ch := Step(s, a).value;
      && Fit(s, ch) && a.p < |h.code| && Sized(s, Coded(h, a, code))
      && Sound(Apply(s, ch), Note(Coded(h, a, code), s, ch))
  {
    hide Pids; hide Records; hide Inv; hide Apply; hide Note; hide LocalA; hide LocalB; hide ScanLocal; hide SleepLocal; hide UnderLock; hide LifeLocal; hide Next;
    InvParts(s);
    StepLocal(s, a);
    StepKeepsInv(s, a);
    CodedSound(s, h, a, code);
    InvTree(s);
    KeepPids(s, Step(s, a).value, Coded(h, a, code));
    KeepRecords(s, Step(s, a).value, Coded(h, a, code));
  }

  lemma InvTree(s: State)
    requires Inv(s)
    ensures Shaped(s) && Tree(s) && States(s)
  {
  }

  lemma CodedSound(s: State, h: History, a: Action, code: int)
    requires Inv(s) && Sized(s, h) && Pids(s, h) && Records(s, h) && Step(s, a).Some?
    ensures a.p < |h.code| && Sized(s, Coded(h, a, code)) && Pids(s, Coded(h, a, code)) && Records(s, Coded(h, a, code))
  {
    hide Locks; hide Tree; hide Forks; hide Reparented; hide Scans; hide NoMissedExit; hide Next;
    var h' := Coded(h, a, code);
    forall p | 0 <= p < |s.pc| ensures StatusOf(s, h', p) && BornOf(s, h', p) {
      assert StatusOf(s, h, p) && BornOf(s, h, p);
    }
    forall k | k in h'.reaped ensures ReapedOf(s, h', k) {
      assert ReapedOf(s, h, k);
    }
  }

  datatype World = World(s: State, h: History)

  /** A step, and the code if it is a call of exit. */
  datatype Event = Event(a: Action, code: int)

  ghost function After(w: World, e: Event): Option<World>
    requires Sound(w.s, w.h)
    ensures After(w, e).Some? ==> Sound(After(w, e).value.s, After(w, e).value.h)
  {
    if Step(w.s, e.a).None? then None
    else
      StepIsSound(w.s, w.h, e.a, e.code);
      var ch := Step(w.s, e.a).value;
      Some(World(Apply(w.s, ch), Note(Coded(w.h, e.a, e.code), w.s, ch)))
  }

  /** The world after a run; None if one of the steps is not possible. */
  ghost function Runs(w: World, es: seq<Event>): Option<World>
    requires Sound(w.s, w.h)
    decreases |es|
  {
    if es == [] then Some(w)
    else if After(w, es[0]).None? then None
    else Runs(After(w, es[0]).value, es[1..])
  }

  lemma {:induction false} RunIsSound(w: World, es: seq<Event>)
    requires Sound(w.s, w.h) && Runs(w, es).Some?
    ensures Sound(Runs(w, es).value.s, Runs(w, es).value.h)
    decreases |es|
  {
    hide Sound; hide After;
    if es != [] {
      RunIsSound(After(w, es[0]).value, es[1..]);
    }
  }

  predicate Init(w: World) {
    var s, h := w.s, w.h;
    && Sized(s, h) && s.wl == None && h.nextpid > h.pid[s.init] && h.born == map[] && h.status == map[] && h.reaped == map[]
    && s.pc[s.init] == User && s.st[s.init] == Live
    && (forall p :: 0 <= p < |s.pc| ==> s.parent[p] == None && s.plock[p] == Free && !s.asleep[p])
    && (forall p :: 0 <= p < |s.pc| && p != s.init ==> s.pc[p] == NoProc && s.st[p] == Unused)
  }

  lemma InitIsSound(w: World)
    requires Init(w)
    ensures Sound(w.s, w.h)
  {
    hide Locks; hide States; hide Tree; hide Forks; hide Reparented; hide Scans; hide NoMissedExit; hide Pids; hide Records;
    InitTables(w);
    InitRecords(w);
  }

  lemma InitTables(w: World)
    requires Init(w)
    ensures Locks(w.s) && States(w.s) && Tree(w.s) && Forks(w.s)
  {
    hide HoldsW; hide HoldsP;
    HoldsNothing(User);
    HoldsNothing(NoProc);
    var s := w.s;
    assert forall p :: 0 <= p < |s.pc| ==> s.pc[p] == User || s.pc[p] == NoProc;
  }

  lemma InitRecords(w: World)
    requires Init(w)
    ensures Reparented(w.s) && Scans(w.s) && NoMissedExit(w.s) && Pids(w.s, w.h) && Records(w.s, w.h)
  {
    var s := w.s;
    assert forall p :: 0 <= p < |s.pc| ==> s.pc[p] == User || s.pc[p] == NoProc;
  }

  /** In every run, a parent is neither a zombie nor unused. */
  lemma ParentsAreAlive(w: World, es: seq<Event>, c: nat)
    requires Init(w)
    ensures Sound(w.s, w.h)
    ensures Runs(w, es).Some? ==> var s := Runs(w, es).value.s;
      Shaped(s) && (c < |s.pc| && s.parent[c].Some? ==> s.parent[c].value < |s.pc| && s.st[s.parent[c].value] == Live)
  {
    hide Runs; hide Locks; hide Forks; hide Reparented; hide Scans; hide NoMissedExit; hide Pids; hide Records; hide Init;
    InitIsSound(w);
    if Runs(w, es).Some? {
      RunIsSound(w, es);
    }
  }

  /** In every run, while wait_lock is free nobody sleeps in kwait over a zombie child. */
  lemma NobodyMissesAnExit(w: World, es: seq<Event>, p: nat, c: nat)
    requires Init(w)
    ensures Sound(w.s, w.h)
    ensures Runs(w, es).Some? ==> var s := Runs(w, es).value.s;
      && Shaped(s)
      && (s.wl == None && p < |s.pc| && c < |s.pc| && s.asleep[p] && s.parent[c] == Some(p) ==> s.st[c] != Zombie)
  {
    hide Runs; hide Locks; hide Forks; hide Reparented; hide Scans; hide Tree; hide States; hide Pids; hide Records; hide Init;
    InitIsSound(w);
    if Runs(w, es).Some? {
      RunIsSound(w, es);
    }
  }

  /**
    In every run, what kwait got is what exit was called with, the process that got it is
    the one that forked the child or is init, and it is recorded once: no later step
    changes it.
   */
  lemma ReapedOnce(w: World, es: seq<Event>, e: Event, k: nat)
    requires Init(w)
    ensures Sound(w.s, w.h)
    ensures Runs(w, es).Some? ==> var w1 := Runs(w, es).value;
      && Sound(w1.s, w1.h)
      && (k in w1.h.reaped ==>
            && k in w1.h.status && w1.h.reaped[k].1 == w1.h.status[k]
            && k in w1.h.born && (w1.h.reaped[k].0 == w1.h.born[k] || w1.h.reaped[k].0 == w1.h.pid[w1.s.init])
            && (After(w1, e).Some? ==> var h2 := After(w1, e).value.h; k in h2.reaped && h2.reaped[k] == w1.h.reaped[k]))
  {
    hide Runs; hide Inv; hide Init; hide Step; hide Pids;
    InitIsSound(w);
    if Runs(w, es).Some? {
      RunIsSound(w, es);
      var w1 := Runs(w, es).value;
      if k in w1.h.reaped && After(w1, e).Some? {
        StepIsSound(w1.s, w1.h, e.a, e.code);
        ReapedStays(w1.s, w1.h, Step(w1.s, e.a).value, e, k);
      }
    }
  }

  lemma ReapedStays(s: State, h: History, ch: Change, e: Event, k: nat)
    requires Fit(s, ch) && Sized(s, h) && Records(s, h) && k in h.reaped && e.a.p < |h.code|
    ensures var h' := Note(Coded(h, e.a, e.code), s, ch); k in h'.reaped && h'.reaped[k] == h.reaped[k]
  {
    assert StatusOf(s, h, ch.j);
  }

  /** A process that kwait frees has left the CPU for good. */
  lemma FreedIsGone(w: World, es: seq<Event>, p: nat)
    requires Init(w)
    ensures Sound(w.s, w.h)
    ensures Runs(w, es).Some? ==> var s := Runs(w, es).value.s;
      && Shaped(s)
      && (p < |s.pc| && s.pc[p].VFree? ==> s.pc[p].i < |s.pc| && s.pc[s.pc[p].i] == Gone && s.plock[s.pc[p].i] == By(p))
  {
    hide Runs; hide Inv; hide Init; hide Pids; hide Records;
    InitIsSound(w);
    if Runs(w, es).Some? {
      RunIsSound(w, es);
      var s := Runs(w, es).value.s;
      if p < |s.pc| && s.pc[p].VFree? {
        AboutScan(s, p);
        AboutLocks(s, p, s.pc[p].i);
        AboutState(s, s.pc[p].i);
      }
    }
  }
}
