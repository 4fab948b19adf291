/** sleeplock.c over sleep and wakeup of proc.c and the spin locks of spinlock.c: any number of
    processes and processors, one lock operation or one store a step. One sleep lock is
    followed; processes may also sleep on other channels, stop, yield, and be woken by kill or
    SIGCONT at any time. */
module SleepLock {

  datatype Chan = NoChan | Lock | Other
  datatype Run = RUNNABLE | RUNNING | SLEEPING
  datatype Holder = Nobody | Proc(i: nat) | Scheduler

  /** Where a process goes on after kill, yield or a sleep. */
  datatype Ret = ToIdle | ToHeld | ToAcquire | ToRelease

  /** The next thing a process does. */
  datatype Pc =
    | Idle | Held
      // acquiresleep
    | AqInner | AqTest | AqSet | AqPid | AqDrop
      // sleep(lk, &lk->lk) up to release(lk)
    | SlTable | SlDrop
      // sleep(chan, &ptable.lock), or a stop
    | OtTable(c: Chan, ret: Ret)
      // sleep with ptable.lock held
    | SlChan(c: Chan, ret: Ret) | SlState(c: Chan, ret: Ret) | SlSched(c: Chan, ret: Ret) | SlOff(c: Chan, ret: Ret)
    | SlTidy(c: Chan, ret: Ret) | SlFree(c: Chan, ret: Ret)
      // releasesleep
    | RlInner | RlClear | RlPid | RlTable | RlScan(k: nat) | RlFree | RlDrop
      // kill and SIGCONT
    | KlTable(q: nat, ret: Ret) | KlWake(q: nat, ret: Ret) | KlFree(ret: Ret)
      // yield
    | YdTable(ret: Ret) | YdState(ret: Ret) | YdSched(ret: Ret) | YdOff(ret: Ret) | YdFree(ret: Ret)

  datatype Local = Local(pc: Pc, run: Run, chan: Chan)

  /** How far a releaser's wakeup has come: processes below `next` have been looked at. */
  datatype Sweep = Done | Pending(next: nat)

  /** `inner` holds lk->lk and `table` ptable.lock; such a lock word is 0 when that is Nobody.
      `owner` and `sweep` are auxiliary: no step looks at them. */
  datatype Shared = Shared(inner: Holder, table: Holder, locked: bool, pid: Holder, owner: Holder, sweep: Sweep)

  datatype State = State(procs: seq<Local>, g: Shared)

  /** What a process that is free to choose does next. */
  datatype Choice = Acquire | Release | Kill(q: nat) | Yield | SleepOn(c: Chan) | NoChoice

  datatype Step = Go(i: nat, choice: Choice) | SchedTake | SchedDrop | Dispatch(i: nat)

  // ---- Steps ------------------------------------------------------------------------

  function Back(ret: Ret): Pc {
    match ret case ToIdle => Idle case ToHeld => Held case ToAcquire => AqInner case ToRelease => RlInner
  }

  function RetOf(pc: Pc): Ret {
    match pc case Held => ToHeld case AqInner => ToAcquire case RlInner => ToRelease case _ => ToIdle
  }

  /** Before it takes the spin lock a process may be interrupted at any time, and then yields,
      kills (psig sends itself the kill) or stops; it starts anything else only when it has no
      sleep lock operation under way. */
  predicate MayChoose(pc: Pc, choice: Choice) {
    match choice
    case Acquire => pc.Idle?
    case Release => pc.Held?
    case Kill(_) => Interruptible(pc)
    case Yield => Interruptible(pc)
    case SleepOn(c) => Interruptible(pc) && c != Lock && (pc.Idle? || pc.Held? || c.NoChan?)
    case NoChoice => !pc.Idle? && !pc.Held?
  }

  predicate Interruptible(pc: Pc) { pc.Idle? || pc.Held? || pc.AqInner? || pc.RlInner? }

  function Chosen(pc: Pc, choice: Choice): Pc {
    match choice
    case Acquire => AqInner
    case Release => RlInner
    case Kill(q) => KlTable(q, RetOf(pc))
    case Yield => YdTable(RetOf(pc))
    case SleepOn(c) => OtTable(c, RetOf(pc))
    case NoChoice => pc
  }

  predicate WantsTable(pc: Pc) { pc.SlTable? || pc.OtTable? || pc.RlTable? || pc.KlTable? || pc.YdTable? }

  /** A spinning process moves only once the lock is free; one switched out does not move. */
  predicate CanGo(l: Local, g: Shared, choice: Choice) {
    && MayChoose(l.pc, choice)
    && (choice.NoChoice? ==>
          && (l.pc.AqInner? || l.pc.RlInner? ==> g.inner.Nobody?)
          && (WantsTable(l.pc) ==> g.table.Nobody?)
          && !l.pc.SlOff? && !l.pc.YdOff?)
  }

  /** Process `i` of `n` does what its program counter says. */
  function Advance(l: Local, g: Shared, i: nat, n: nat): (r: (Local, Shared)) {
    match l.pc
    case AqInner => (l.(pc := AqTest), g.(inner := Proc(i)))
    case AqTest => (l.(pc := if g.locked then SlTable else AqSet), g)
    case AqSet => (l.(pc := AqPid), g.(locked := true, owner := Proc(i)))
    case AqPid => (l.(pc := AqDrop), g.(pid := Proc(i)))
    case AqDrop => (l.(pc := Held), g.(inner := Nobody))
    case SlTable => (l.(pc := SlDrop), g.(table := Proc(i)))
    case SlDrop => (l.(pc := SlChan(Lock, ToAcquire)), g.(inner := Nobody))
    case OtTable(c, ret) => (l.(pc := if c.NoChan? then SlState(c, ret) else SlChan(c, ret)), g.(table := Proc(i)))
    case SlChan(c, ret) => (l.(pc := SlState(c, ret), chan := c), g)
    case SlState(c, ret) => (l.(pc := SlSched(c, ret), run := SLEEPING), g)
    case SlSched(c, ret) => (l.(pc := SlOff(c, ret)), g.(table := Scheduler))
    case SlTidy(c, ret) => (l.(pc := SlFree(c, ret), chan := NoChan), g)
    case SlFree(_, ret) => (l.(pc := Back(ret)), g.(table := Nobody))
    case RlInner => (l.(pc := RlClear), g.(inner := Proc(i)))
    case RlClear => (l.(pc := RlPid), g.(locked := false, owner := Nobody, sweep := Pending(0)))
    case RlPid => (l.(pc := RlTable), g.(pid := Nobody))
    case RlTable => (l.(pc := RlScan(0)), g.(table := Proc(i)))
    case RlScan(k) =>
      if k < n then (l.(pc := RlScan(k + 1)), g.(sweep := Pending(k + 1))) else (l.(pc := RlFree), g.(sweep := Done))
    case RlFree => (l.(pc := RlDrop), g.(table := Nobody))
    case RlDrop => (l.(pc := Idle), g.(inner := Nobody))
    case KlTable(q, ret) => (l.(pc := KlWake(q, ret)), g.(table := Proc(i)))
    case KlWake(_, ret) => (l.(pc := KlFree(ret)), g)
    case KlFree(ret) => (l.(pc := Back(ret)), g.(table := Nobody))
    case YdTable(ret) => (l.(pc := YdState(ret)), g.(table := Proc(i)))
    case YdState(ret) => (l.(pc := YdSched(ret), run := RUNNABLE), g)
    case YdSched(ret) => (l.(pc := YdOff(ret)), g.(table := Scheduler))
    case YdFree(ret) => (l.(pc := Back(ret)), g.(table := Nobody))
    case _ => (l, g)
  }

  /** Whether `pc` is at the store that makes process `j` runnable if it sleeps. */
  predicate Wakes(pc: Pc, j: nat, chan: Chan) {
    (pc.KlWake? && pc.q == j) || (pc.RlScan? && pc.k == j && chan == Lock)
  }

  function Woken(l: Local): Local { if l.run.SLEEPING? then l.(run := RUNNABLE) else l }

  /** Process `j` after process `i` has advanced. */
  function Moved(s: State, i: nat, j: nat): Local
    requires i < |s.procs| && j < |s.procs|
  {
    var l := if j == i then Advance(s.procs[i], s.g, i, |s.procs|).0 else s.procs[j];
    if Wakes(s.procs[i].pc, j, s.procs[j].chan) then Woken(l) else l
  }

  predicate Enabled(s: State, a: Step) {
    match a
    case Go(i, choice) => i < |s.procs| && CanGo(s.procs[i], s.g, choice)
    case SchedTake => s.g.table.Nobody?
    case SchedDrop => s.g.table.Scheduler?
    case Dispatch(i) =>
      && i < |s.procs| && s.g.table.Scheduler? && s.procs[i].run.RUNNABLE?
      && (s.procs[i].pc.SlOff? || s.procs[i].pc.YdOff?)
  }

  function Resumed(l: Local): Local {
    match l.pc
    case SlOff(c, ret) => l.(run := RUNNING, pc := SlTidy(c, ret))
    case YdOff(ret) => l.(run := RUNNING, pc := YdFree(ret))
    case _ => l
  }

  function Do(s: State, a: Step): (t: State)
    requires Enabled(s, a)
    ensures |t.procs| == |s.procs|
  {
    match a
    case Go(i, choice) =>
      if choice.NoChoice? then
        State(seq(|s.procs|, j requires 0 <= j < |s.procs| => Moved(s, i, j)), Advance(s.procs[i], s.g, i, |s.procs|).1)
      else s.(procs := s.procs[i := s.procs[i].(pc := Chosen(s.procs[i].pc, choice))])
    case SchedTake => s.(g := s.g.(table := Scheduler))
    case SchedDrop => s.(g := s.g.(table := Nobody))
    case Dispatch(i) => s.(procs := s.procs[i := Resumed(s.procs[i])], g := s.g.(table := Proc(i)))
  }

  // ---- The invariant ------------------------------------------------------------------

  predicate HasInner(pc: Pc) {
    || pc.AqTest? || pc.AqSet? || pc.AqPid? || pc.AqDrop? || pc.SlTable? || pc.SlDrop?
    || pc.RlClear? || pc.RlPid? || pc.RlTable? || pc.RlScan? || pc.RlFree? || pc.RlDrop?
  }

  predicate HasTable(pc: Pc) {
    || pc.SlDrop? || pc.SlChan? || pc.SlState? || pc.SlSched? || pc.SlTidy? || pc.SlFree? || pc.RlScan? || pc.RlFree?
    || pc.KlWake? || pc.KlFree? || pc.YdState? || pc.YdSched? || pc.YdFree?
  }

  predicate InSleep(pc: Pc) { pc.SlChan? || pc.SlState? || pc.SlSched? || pc.SlOff? || pc.SlTidy? || pc.SlFree? }
  predicate HasRet(pc: Pc) {
    InSleep(pc) || pc.OtTable? || pc.KlTable? || pc.KlWake? || pc.KlFree?
    || pc.YdTable? || pc.YdState? || pc.YdSched? || pc.YdOff? || pc.YdFree?
  }

  /** Between `lk->locked = 1` in acquiresleep and `lk->locked = 0` in releasesleep. */
  predicate HasLock(pc: Pc) {
    || pc.AqPid? || pc.AqDrop? || pc.Held? || pc.RlInner? || pc.RlClear?
    || (HasRet(pc) && (pc.ret.ToHeld? || pc.ret.ToRelease?))
  }

  predicate Sweeps(pc: Pc) { pc.RlPid? || pc.RlTable? || pc.RlScan? }


  /** A releaser whose wakeup has yet to come to process `i`. */
  predicate StillToWake(pc: Pc, i: nat) { Sweeps(pc) && (pc.RlScan? ==> pc.k <= i) }

  /** About to sleep on the lock, or asleep on it. */
  predicate Waits(l: Local) {
    ((l.pc.SlChan? || l.pc.SlState?) && l.pc.c == Lock) || (l.run.SLEEPING? && l.chan == Lock)
  }

  /** What holds of process `i`. */
  ghost predicate Good(l: Local, g: Shared, i: nat) {
    && (HasInner(l.pc) <==> g.inner == Proc(i))
    && (HasTable(l.pc) <==> g.table == Proc(i))
    && (HasLock(l.pc) <==> g.owner == Proc(i))
    && ((HasLock(l.pc) && !l.pc.AqPid?) || l.pc.RlPid? <==> g.pid == Proc(i))
    && (l.run.RUNNING? <==> !(l.pc.SlOff? || l.pc.YdOff? || l.pc.SlSched? || l.pc.YdSched?))
    && (l.run.SLEEPING? ==> l.pc.SlSched? || l.pc.SlOff?)
    && (l.chan == Lock <==> InSleep(l.pc) && !l.pc.SlChan? && !l.pc.SlFree? && l.pc.c == Lock)
    && (l.pc.OtTable? ==> l.pc.c != Lock)
    && (InSleep(l.pc) && l.pc.c == Lock ==> l.pc.ret == ToAcquire)
    && (l.pc.AqSet? ==> !g.locked)
    && (l.pc.SlTable? || l.pc.SlDrop? ==> g.locked)
    && (Sweeps(l.pc) ==> g.sweep == Pending(if l.pc.RlScan? then l.pc.k else 0))
    && (Sweeps(l.pc) <==> g.sweep.Pending? && g.inner == Proc(i))
    && (Waits(l) ==> g.locked || (g.sweep.Pending? && g.sweep.next <= i))
  }

  ghost predicate Global(g: Shared, n: nat) {
    && (g.locked <==> g.owner.Proc?) && (g.owner.Proc? ==> g.owner.i < n) && !g.owner.Scheduler?
    && (g.sweep.Pending? ==> g.inner.Proc? && !g.locked)
    && (g.inner.Proc? ==> g.inner.i < n) && !g.inner.Scheduler?
    && (g.table.Proc? ==> g.table.i < n)
  }

  ghost predicate Inv(s: State) {
    Global(s.g, |s.procs|) && forall i: nat | i < |s.procs| :: Good(s.procs[i], s.g, i)
  }

  /** Processes start out as fork leaves them: not run yet. */
  ghost predicate Init(s: State) {
    && s.g == Shared(Nobody, Nobody, false, Nobody, Nobody, Done)
    && forall i: nat | i < |s.procs| :: s.procs[i] == Local(YdOff(ToIdle), RUNNABLE, NoChan)
  }

  lemma {:induction false} InitInv(s: State)
    requires Init(s)
    ensures Inv(s)
  {
  }

  // Advance looks at one group of program counters at a time.

  predicate Acquiring(pc: Pc) { pc.AqInner? || pc.AqTest? || pc.AqSet? }
  predicate Acquired(pc: Pc) { pc.AqPid? || pc.AqDrop? || pc.SlTable? || pc.SlDrop? }
  predicate Sweeping(pc: Pc) { pc.RlInner? || pc.RlClear? || pc.RlPid? || pc.RlTable? }
  predicate Swept(pc: Pc) { pc.RlScan? || pc.RlFree? || pc.RlDrop? }
  predicate FallingAsleep(pc: Pc) { pc.OtTable? || pc.SlChan? || pc.SlState? || pc.SlSched? }
  predicate WakingUp(pc: Pc) { pc.SlTidy? || pc.SlFree? }

  lemma {:induction false} AcquiringSelf(l: Local, g: Shared, i: nat, n: nat)
    requires Good(l, g, i) && Global(g, n) && i < n && CanGo(l, g, NoChoice) && Acquiring(l.pc)
    ensures var (l', g') := Advance(l, g, i, n); Good(l', g', i) && Global(g', n)
  {
  }

  lemma {:induction false} AcquiredSelf(l: Local, g: Shared, i: nat, n: nat)
    requires Good(l, g, i) && Global(g, n) && i < n && CanGo(l, g, NoChoice) && Acquired(l.pc)
    ensures var (l', g') := Advance(l, g, i, n); Good(l', g', i) && Global(g', n)
  {
  }

  lemma {:induction false} SweepingSelf(l: Local, g: Shared, i: nat, n: nat)
    requires Good(l, g, i) && Global(g, n) && i < n && CanGo(l, g, NoChoice) && Sweeping(l.pc)
    ensures var (l', g') := Advance(l, g, i, n); Good(l', g', i) && Global(g', n)
  {
  }

  lemma {:induction false} SweptSelf(l: Local, g: Shared, i: nat, n: nat)
    requires Good(l, g, i) && Global(g, n) && i < n && CanGo(l, g, NoChoice) && Swept(l.pc)
    ensures var (l', g') := Advance(l, g, i, n); Good(l', g', i) && Global(g', n)
  {
  }

  lemma {:induction false} FallingAsleepSelf(l: Local, g: Shared, i: nat, n: nat)
    requires Good(l, g, i) && Global(g, n) && i < n && CanGo(l, g, NoChoice) && FallingAsleep(l.pc)
    ensures var (l', g') := Advance(l, g, i, n); Good(l', g', i) && Global(g', n)
  {
  }

  lemma {:induction false} WakingUpSelf(l: Local, g: Shared, i: nat, n: nat)
    requires Good(l, g, i) && Global(g, n) && i < n && CanGo(l, g, NoChoice) && WakingUp(l.pc)
    ensures var (l', g') := Advance(l, g, i, n); Good(l', g', i) && Global(g', n)
  {
  }

  lemma {:induction false} KillYieldSelf(l: Local, g: Shared, i: nat, n: nat)
    requires Good(l, g, i) && Global(g, n) && i < n && CanGo(l, g, NoChoice)
    requires !Acquiring(l.pc) && !Acquired(l.pc) && !Sweeping(l.pc) && !Swept(l.pc) && !FallingAsleep(l.pc)
    requires !WakingUp(l.pc)
    ensures var (l', g') := Advance(l, g, i, n); Good(l', g', i) && Global(g', n)
  {
  }

  lemma {:induction false} AdvanceSelf(l: Local, g: Shared, i: nat, n: nat)
    requires Good(l, g, i) && Global(g, n) && i < n && CanGo(l, g, NoChoice)
    ensures var (l', g') := Advance(l, g, i, n); Good(l', g', i) && Global(g', n)
  {
    hide Good, Global, CanGo, Advance;
    if Acquiring(l.pc) {
      AcquiringSelf(l, g, i, n);
    } else if Acquired(l.pc) {
      AcquiredSelf(l, g, i, n);
    } else if Sweeping(l.pc) {
      SweepingSelf(l, g, i, n);
    } else if Swept(l.pc) {
      SweptSelf(l, g, i, n);
    } else if FallingAsleep(l.pc) {
      FallingAsleepSelf(l, g, i, n);
    } else if WakingUp(l.pc) {
      WakingUpSelf(l, g, i, n);
    } else {
      KillYieldSelf(l, g, i, n);
    }
  }

  lemma {:induction false} AdvanceOther(l: Local, g: Shared, i: nat, n: nat, m: Local, j: nat)
    requires Good(l, g, i) && Global(g, n) && i < n && CanGo(l, g, NoChoice)
    requires Good(m, g, j) && j != i && j < n
    ensures Good(if Wakes(l.pc, j, m.chan) then Woken(m) else m, Advance(l, g, i, n).1, j)
  {
  }

  lemma {:induction false} ChosenSelf(l: Local, g: Shared, i: nat, choice: Choice)
    requires Good(l, g, i) && CanGo(l, g, choice) && !choice.NoChoice?
    ensures Good(l.(pc := Chosen(l.pc, choice)), g, i)
  {
  }

  lemma {:induction false} ResumedSelf(l: Local, g: Shared, i: nat)
    requires Good(l, g, i) && g.table.Scheduler? && l.run.RUNNABLE? && (l.pc.SlOff? || l.pc.YdOff?)
    ensures Good(Resumed(l), g.(table := Proc(i)), i)
  {
  }

  /** Every step keeps the invariant. */
  lemma {:induction false} StepInv(s: State, a: Step)
    requires Inv(s) && Enabled(s, a)
    ensures Inv(Do(s, a))
  {
    hide Good, Advance, CanGo, Wakes, Woken, Chosen, Resumed;
    var t, n := Do(s, a), |s.procs|;
    match a {
      case Go(i, choice) =>
        if choice.NoChoice? {
          AdvanceSelf(s.procs[i], s.g, i, n);
          forall j: nat | j < n ensures Good(t.procs[j], t.g, j) {
            if j != i {
              AdvanceOther(s.procs[i], s.g, i, n, s.procs[j], j);
            } else {
              NoSelfWake(s.procs[i], s.g, i, n);
            }
          }
        } else {
          ChosenSelf(s.procs[i], s.g, i, choice);
        }
      case Dispatch(i) =>
        ResumedSelf(s.procs[i], s.g, i);
        forall j: nat | j < n && j != i ensures Good(t.procs[j], t.g, j) {
          TableMoved(s.procs[j], s.g, Proc(i), j);
        }
      case SchedTake =>
        forall j: nat | j < n ensures Good(t.procs[j], t.g, j) { TableMoved(s.procs[j], s.g, Scheduler, j); }
      case SchedDrop =>
        forall j: nat | j < n ensures Good(t.procs[j], t.g, j) { TableMoved(s.procs[j], s.g, Nobody, j); }
    }
  }

  lemma {:induction false} NoSelfWake(l: Local, g: Shared, i: nat, n: nat)
    requires Good(l, g, i)
    ensures Wakes(l.pc, i, l.chan) ==> Woken(Advance(l, g, i, n).0) == Advance(l, g, i, n).0
  {
  }

  lemma {:induction false} TableMoved(l: Local, g: Shared, to: Holder, j: nat)
    requires Good(l, g, j) && !g.table.Proc? && to != Proc(j)
    ensures Good(l, g.(table := to), j)
  {
  }

  // ---- Whole runs -------------------------------------------------------------------------

  ghost predicate Runs(s: State, steps: seq<Step>)
    decreases |steps|
  {
    steps == [] || (Enabled(s, steps[0]) && Runs(Do(s, steps[0]), steps[1..]))
  }

  ghost function After(s: State, steps: seq<Step>): State
    requires Runs(s, steps)
    decreases |steps|
  {
    if steps == [] then s else After(Do(s, steps[0]), steps[1..])
  }

  lemma {:induction false} RunInv(s: State, steps: seq<Step>)
    requires Inv(s) && Runs(s, steps)
    ensures Inv(After(s, steps))
    decreases |steps|
  {
    hide Inv, Enabled, Do;
    if steps != [] {
      StepInv(s, steps[0]);
      RunInv(Do(s, steps[0]), steps[1..]);
    }
  }

  /** Whenever the sleep lock and its spin lock are free, nobody is asleep on the lock, nor
      committed to going to sleep on it. */
  lemma {:induction false} NoLostWakeup(s: State, steps: seq<Step>)
    requires Init(s) && Runs(s, steps)
    ensures var t := After(s, steps);
            !t.g.locked && t.g.inner.Nobody? ==> forall i: nat | i < |t.procs| :: !Waits(t.procs[i])
  {
    InitInv(s);
    RunInv(s, steps);
  }

  /** A process asleep on the lock has someone to wake it: the holder, or a releaser that has
      the spin lock and has still to reach it. */
  lemma {:induction false} SleeperHasWaker(s: State, steps: seq<Step>, i: nat)
    requires Init(s) && Runs(s, steps)
    ensures var t := After(s, steps);
            i < |t.procs| && Waits(t.procs[i]) ==>
              exists j: nat | j < |t.procs| && j != i :: HasLock(t.procs[j].pc) || StillToWake(t.procs[j].pc, i)
  {
    InitInv(s);
    RunInv(s, steps);
    var t := After(s, steps);
    if i < |t.procs| && Waits(t.procs[i]) {
      assert Good(t.procs[i], t.g, i);
      var j := if t.g.locked then t.g.owner.i else t.g.inner.i;
      assert Good(t.procs[j], t.g, j);
    }
  }

  /** At most one process has the sleep lock, some process has it exactly when `locked` is set,
      and holdingsleep, which reads with the spin lock held, tells each one the truth. */
  lemma {:induction false} MutualExclusion(s: State, steps: seq<Step>)
    requires Init(s) && Runs(s, steps)
    ensures var t := After(s, steps);
            && (forall i: nat, j: nat | i < |t.procs| && j < |t.procs| ::
                  HasLock(t.procs[i].pc) && HasLock(t.procs[j].pc) ==> i == j)
            && (t.g.locked <==> exists i: nat | i < |t.procs| :: HasLock(t.procs[i].pc))
            && (t.g.inner.Nobody? ==>
                  forall i: nat | i < |t.procs| :: (t.g.locked && t.g.pid == Proc(i)) <==> HasLock(t.procs[i].pc))
  {
    InitInv(s);
    RunInv(s, steps);
    var t := After(s, steps);
    if t.g.locked {
      assert Good(t.procs[t.g.owner.i], t.g, t.g.owner.i);
    }
  }

  /** acquire never finds its own lock held, release never finds it not held, and sched is
      entered with ptable.lock only and the process not RUNNING: their panics are out of reach. */
  lemma {:induction false} NoLockPanics(s: State, steps: seq<Step>, i: nat)
    requires Init(s) && Runs(s, steps) && i < |After(s, steps).procs|
    ensures var t := After(s, steps);
            var l := t.procs[i];
            && (l.pc.AqInner? || l.pc.RlInner? ==> t.g.inner != Proc(i))
            && (WantsTable(l.pc) ==> t.g.table != Proc(i))
            && (l.pc.SlDrop? || l.pc.AqDrop? || l.pc.RlDrop? ==> t.g.inner == Proc(i))
            && (l.pc.SlFree? || l.pc.RlFree? || l.pc.KlFree? || l.pc.YdFree? ==> t.g.table == Proc(i))
            && (l.pc.SlSched? || l.pc.YdSched? ==> t.g.table == Proc(i) && t.g.inner != Proc(i) && !l.run.RUNNING?)
  {
    InitInv(s);
    RunInv(s, steps);
    assert Good(After(s, steps).procs[i], After(s, steps).g, i);
  }

  /** No deadlock on the spin locks: when one is held, a holder can take its next step. */
  lemma {:induction false} HoldersMove(s: State, steps: seq<Step>)
    requires Init(s) && Runs(s, steps)
    ensures var t := After(s, steps);
            && (t.g.table.Proc? ==> Enabled(t, Go(t.g.table.i, NoChoice)))
            && (t.g.table.Nobody? && t.g.inner.Proc? ==> Enabled(t, Go(t.g.inner.i, NoChoice)))
            && (t.g.table.Scheduler? ==> Enabled(t, SchedDrop))
  {
    InitInv(s);
    RunInv(s, steps);
    var t := After(s, steps);
    if t.g.table.Proc? {
      assert Good(t.procs[t.g.table.i], t.g, t.g.table.i);
    } else if t.g.inner.Proc? {
      assert Good(t.procs[t.g.inner.i], t.g, t.g.inner.i);
    }
  }
}
