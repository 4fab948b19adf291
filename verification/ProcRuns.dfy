/** Whole runs of the process table of proc.c: fork, exit and wait of any number of processes,
    interleaved at the sections that hold ptable.lock and the stores that do not, with
    scheduling, sleeping and waking, kill, stop and continue at any time. */
module ProcRuns {
  import opened Basics
  import opened ProcTable

  /** `reaped` is auxiliary: the pids wait has returned, in order. */
  datatype State = State(procs: seq<Proc>, nextpid: nat, init: nat, reaped: seq<nat>)

  datatype Step =
    | Fork(i: nat, k: nat) | ForkFail(i: nat) | ForkParent(i: nat) | ForkDone(i: nat)
    | Exit(i: nat) | Wait(i: nat, w: Waited) | WaitAgain(i: nat, w: Waited)
    | Dispatch(i: nat) | Yield(i: nat) | Sleep(i: nat, c: Chan) | Wake(e: nat) | Kill(pid: nat, k: nat) | Cont(k: nat)

  predicate Alive(p: Proc) { p.state.SLEEPING? || p.state.RUNNABLE? || p.state.RUNNING? }

  /** Running, and not in the middle of a fork. */
  predicate Idle(s: State, i: nat) { i < |s.procs| && s.procs[i].state.RUNNING? && s.procs[i].child.None? }

  predicate Forking(s: State, i: nat) {
    i < |s.procs| && s.procs[i].state.RUNNING? && s.procs[i].child.Some? && s.procs[i].child.value < |s.procs|
  }

  function Set(s: State, i: nat, p: Proc): State
    requires i < |s.procs|
  {
    s.(procs := s.procs[i := p])
  }

  /** wait's pass, with the pid it returns noted down. */
  ghost predicate Waits(s: State, i: nat, w: Waited, t: State)
    requires i < |s.procs|
  {
    && WaitDoes(s.procs, i, w, t.procs)
    && t == s.(procs := t.procs, reaped := if w.Reaped? then s.reaped + [w.pid] else s.reaped)
  }

  ghost predicate Next(s: State, a: Step, t: State) {
    match a
    case Fork(i, k) =>
      && Idle(s, i) && k < |s.procs| && s.procs[k].state.UNUSED? && (forall j: nat | j < k :: !s.procs[j].state.UNUSED?)
      && t == s.(nextpid := s.nextpid + 1,
              procs := s.procs[k := s.procs[k].(state := EMBRYO, pid := s.nextpid, forker := i)]
              [i := s.procs[i].(child := Some(k))])
    case ForkFail(i) =>
      && Forking(s, i) && var k := s.procs[i].child.value;
                       && s.procs[k].parent.None?
                       && t == s.(procs := s.procs[k := s.procs[k].(state := UNUSED)][i := s.procs[i].(child := None)])
    case ForkParent(i) =>
      && Forking(s, i) && var k := s.procs[i].child.value;
                       t == Set(s, k, s.procs[k].(parent := Some(i)))
    case ForkDone(i) =>
      && Forking(s, i) && var k := s.procs[i].child.value;
                       && s.procs[k].parent == Some(i)
                       && t == s.(procs := s.procs[k := s.procs[k].(state := RUNNABLE)]
                               [i := s.procs[i].(child := None)])
    case Exit(i) => Idle(s, i) && i != s.init && t == s.(procs := ExitAll(s.procs, i, s.init))
    case Wait(i, w) => Idle(s, i) && Waits(s, i, w, t)
    case WaitAgain(i, w) =>
      && i < |s.procs| && s.procs[i].state.RUNNABLE? && s.procs[i].chan == Slot(i)
      && Waits(Set(s, i, s.procs[i].(state := RUNNING, chan := NoChan)), i, w, t)
    case Dispatch(i) =>
      && i < |s.procs| && s.procs[i].state.RUNNABLE? && s.procs[i].chan != Slot(i)
      && t == Set(s, i, s.procs[i].(state := RUNNING, chan := NoChan))
    case Yield(i) => i < |s.procs| && s.procs[i].state.RUNNING? && t == Set(s, i, s.procs[i].(state := RUNNABLE))
    case Sleep(i, c) =>
      && ((Idle(s, i) && !c.Slot?) || (Forking(s, i) && c.NoChan?))
      && t == Set(s, i, s.procs[i].(state := SLEEPING, chan := c))
    case Wake(e) => t == s.(procs := Wakeup(s.procs, Event(e)))
    case Kill(pid, k) => KillDoes(s.procs, pid, k, t.procs) && t == s.(procs := t.procs)
    case Cont(k) => k < |s.procs| && s.procs[k].state.SLEEPING? && t == Set(s, k, s.procs[k].(state := RUNNABLE))
  }

  // ---- The invariant -------------------------------------------------------------------

  /** What holds of slot `i`. */
  ghost predicate Good(s: State, i: nat)
    requires i < |s.procs|
  {
    var p, n := s.procs[i], |s.procs|;
    && (p.state.UNUSED? ==> p.parent.None?)
    && (p.state.EMBRYO? ==>
          && p.forker < n && s.procs[p.forker].child == Some(i)
          && (p.parent.None? || p.parent == Some(p.forker)))
    && (p.child.Some? ==>
          && p.child.value < n && s.procs[p.child.value].state.EMBRYO? && s.procs[p.child.value].forker == i
          && Alive(p) && p.chan.NoChan?)
    && (p.parent.Some? ==> p.parent.value < n && p.parent.value != i && Alive(s.procs[p.parent.value]))
    && ((Alive(p) || p.state.ZOMBIE?) && i != s.init ==> p.parent.Some?)
    && (!Alive(p) || p.state.RUNNING? ==> p.chan.NoChan?)
    && (p.chan.Slot? ==> p.chan.i == i)
    && (p.state.SLEEPING? && p.chan == Slot(i) ==> !HasZombie(s.procs, i, n))
  }

  ghost predicate Slots(s: State) {
    && s.init < |s.procs| && Alive(s.procs[s.init]) && s.procs[s.init].parent.None?
    && forall i: nat | i < |s.procs| :: Good(s, i)
  }

  ghost predicate Pids(s: State) {
    && (forall i: nat | i < |s.procs| && !s.procs[i].state.UNUSED? ::
          s.procs[i].pid < s.nextpid && s.procs[i].pid !in s.reaped)
    && (forall i: nat, j: nat | i < j < |s.procs| && !s.procs[i].state.UNUSED? && !s.procs[j].state.UNUSED? ::
          s.procs[i].pid != s.procs[j].pid)
    && (forall k: nat | k < |s.reaped| :: s.reaped[k] < s.nextpid)
    && (forall k: nat, m: nat | k < m < |s.reaped| :: s.reaped[k] != s.reaped[m])
  }

  ghost predicate Inv(s: State) { Slots(s) && Pids(s) }

  /** After userinit: one process, init, ready to run. */
  ghost predicate Init(s: State) {
    && |s.procs| > 0 && s.init == 0 && s.nextpid == 2 && s.reaped == []
    && s.procs[0] == Proc(RUNNABLE, 1, None, NoChan, false, None, 0)
    && forall i: nat | 0 < i < |s.procs| :: s.procs[i] == Proc(UNUSED, 0, None, NoChan, false, None, 0)
  }

  lemma {:induction false} InitInv(s: State)
    requires Init(s)
    ensures Inv(s)
  {
  }

  /** Slot `j` may have been scheduled, put to sleep or woken, but not made to sleep in wait. */
  ghost predicate Rescheduled(p: Proc, q: Proc, j: nat) {
    && q.parent == p.parent && q.child == p.child && q.forker == p.forker
    && (Alive(q) <==> Alive(p)) && (!Alive(p) ==> q.state == p.state && q.chan == p.chan)
    && (q.state.RUNNING? ==> q.chan.NoChan?)
    && (q.chan == p.chan || q.chan.NoChan? || (q.chan.Event? && q.child.None?))
    && (q.child.Some? ==> !q.state.SLEEPING? || q.chan.NoChan?)
    && (q.state.SLEEPING? && q.chan == Slot(j) ==> p.state.SLEEPING? && p.chan == Slot(j))
  }

  lemma {:induction false} RescheduledSlots(s: State, t: State)
    requires Slots(s) && t.init == s.init && |t.procs| == |s.procs|
    requires forall j: nat | j < |s.procs| :: Rescheduled(s.procs[j], t.procs[j], j)
    ensures Slots(t)
  {
    assert Rescheduled(s.procs[s.init], t.procs[s.init], s.init);
    forall j: nat | j < |t.procs| ensures Good(t, j) {
      assert Good(s, j);
      assert forall k: nat | k < |t.procs| :: Rescheduled(s.procs[k], t.procs[k], k);
    }
  }

  lemma {:induction false} SchedSlots(s: State, a: Step, t: State)
    requires Slots(s) && Next(s, a, t) && (a.Dispatch? || a.Yield? || a.Sleep? || a.Wake? || a.Kill? || a.Cont?)
    ensures Slots(t)
  {
    forall j: nat | j < |t.procs| ensures Rescheduled(s.procs[j], t.procs[j], j) {
      assert Good(s, j);
    }
    RescheduledSlots(s, t);
  }

  lemma {:induction false} SameZombies(s: State, t: State, j: nat)
    requires |t.procs| == |s.procs|
    requires forall k: nat | k < |s.procs| && t.procs[k].state.ZOMBIE? ::
               s.procs[k].state.ZOMBIE? && s.procs[k].parent == t.procs[k].parent
    ensures HasZombie(t.procs, j, |t.procs|) ==> HasZombie(s.procs, j, |s.procs|)
  {
  }

  lemma {:induction false} ForkAllocSlots(s: State, i: nat, k: nat, t: State)
    requires Slots(s) && Next(s, Fork(i, k), t)
    ensures Slots(t)
  {
    assert Good(s, i) && Good(s, k);
    assert t.procs[s.init].parent.None? && Alive(t.procs[s.init]);
    forall j: nat | j < |t.procs| ensures Good(t, j) {
      ForkAllocGood(s, i, k, t, j);
    }
  }

  lemma {:induction false} ForkAllocGood(s: State, i: nat, k: nat, t: State, j: nat)
    requires Slots(s) && Idle(s, i) && k < |s.procs| && s.procs[k].state.UNUSED? && j < |s.procs|
    requires t.procs == s.procs[k := s.procs[k].(state := EMBRYO, pid := s.nextpid, forker := i)]
                        [i := s.procs[i].(child := Some(k))]
    requires t.init == s.init
    ensures Good(t, j)
  {
    hide HasZombie;
    assert Good(s, j) && Good(s, i) && Good(s, k);
    SameZombies(s, t, j);
  }

  lemma {:induction false} ForkFailSlots(s: State, i: nat, t: State)
    requires Slots(s) && Next(s, ForkFail(i), t)
    ensures Slots(t)
  {
    assert Good(s, i) && Good(s, s.procs[i].child.value);
    hide HasZombie;
    forall j: nat | j < |t.procs| ensures Good(t, j) {
      assert Good(s, j);
      SameZombies(s, t, j);
    }
  }

  lemma {:induction false} ForkParentSlots(s: State, i: nat, t: State)
    requires Slots(s) && Next(s, ForkParent(i), t)
    ensures Slots(t)
  {
    assert Good(s, i) && Good(s, s.procs[i].child.value);
    hide HasZombie;
    forall j: nat | j < |t.procs| ensures Good(t, j) {
      assert Good(s, j);
      SameZombies(s, t, j);
    }
  }

  lemma {:induction false} ForkDoneSlots(s: State, i: nat, t: State)
    requires Slots(s) && Next(s, ForkDone(i), t)
    ensures Slots(t)
  {
    assert Good(s, i) && Good(s, s.procs[i].child.value);
    hide HasZombie;
    forall j: nat | j < |t.procs| ensures Good(t, j) {
      assert Good(s, j);
      SameZombies(s, t, j);
    }
  }

  /** exit's wakeups, before it hands on its children and becomes a zombie. */
  ghost function ExitWakes(s: State, i: nat): (t: State)
    requires i < |s.procs|
    ensures |t.procs| == |s.procs| && t.init == s.init
  {
    var woken := Wakeup(s.procs, ChanOf(s.procs[i].parent));
    s.(procs := if HasZombie(s.procs, i, |s.procs|) then Wakeup(woken, Slot(s.init)) else woken)
  }

  function HandedOn(p: Proc, i: nat, init: nat): Proc {
    if p.parent == Some(i) then p.(parent := Some(init)) else p
  }

  predicate WaitsForChild(p: Proc, j: nat) { p.state.SLEEPING? && p.chan == Slot(j) }

  lemma {:induction false} ExitSlots(s: State, i: nat, t: State)
    requires Slots(s) && Next(s, Exit(i), t)
    ensures Slots(t)
  {
    hide Good, Rescheduled, HasZombie, Exited, ExitWakes;
    var u := ExitWakes(s, i);
    forall j: nat | j < |s.procs|
      ensures Rescheduled(s.procs[j], u.procs[j], j)
      ensures t.procs[j] == var p := HandedOn(u.procs[j], i, s.init); if j == i then p.(state := ZOMBIE) else p
    {
      ExitSlot(s, i, j);
    }
    RescheduledSlots(s, u);
    ExitWoken(s, i);
    ZombieSlots(u, i, t);
  }

  /** exit, as what the wakeups do to a slot and then the rest. */
  lemma {:induction false} ExitSlot(s: State, i: nat, j: nat)
    requires Slots(s) && i < |s.procs| && j < |s.procs|
    ensures var p := ExitWakes(s, i).procs[j];
            && Rescheduled(s.procs[j], p, j)
            && Exited(s.procs, i, s.init, |s.procs|, j) == HandedOn(p, i, s.init)
  {
    assert Good(s, j);
    hide HasZombie;
  }

  lemma {:induction false} ExitWoken(s: State, i: nat)
    requires Slots(s) && Idle(s, i)
    ensures var u := ExitWakes(s, i);
            && Idle(u, i) && u.procs[i].parent == s.procs[i].parent
            && (forall j: nat | j < |u.procs| && u.procs[i].parent == Some(j) :: !WaitsForChild(u.procs[j], j))
            && (HasZombie(u.procs, i, |u.procs|) ==> !WaitsForChild(u.procs[s.init], s.init))
  {
    hide Good;
  }

  lemma {:induction false} ZombieSlots(s: State, i: nat, t: State)
    requires Slots(s) && Idle(s, i) && i != s.init && t.init == s.init && |t.procs| == |s.procs|
    requires forall j: nat | j < |s.procs| ::
               t.procs[j] == var p := HandedOn(s.procs[j], i, s.init); if j == i then p.(state := ZOMBIE) else p
    requires forall j: nat | j < |s.procs| && s.procs[i].parent == Some(j) :: !WaitsForChild(s.procs[j], j)
    requires HasZombie(s.procs, i, |s.procs|) ==> !WaitsForChild(s.procs[s.init], s.init)
    ensures Slots(t)
  {
    assert Good(s, i);
    forall j: nat | j < |t.procs| ensures Good(t, j) {
      assert Good(s, j);
      if WaitsForChild(t.procs[j], j) {
        StillNoZombie(s, i, t, j);
      }
    }
  }

  lemma {:induction false} StillNoZombie(s: State, i: nat, t: State, j: nat)
    requires s.init < |s.procs| == |t.procs| && i < |s.procs| && j < |s.procs| && i != s.init
    requires forall k: nat | k < |s.procs| ::
               t.procs[k] == var p := HandedOn(s.procs[k], i, s.init); if k == i then p.(state := ZOMBIE) else p
    requires s.procs[i].parent != Some(j) && !HasZombie(s.procs, j, |s.procs|) && s.procs[i].parent != Some(i)
    requires j == s.init ==> !HasZombie(s.procs, i, |s.procs|)
    ensures !HasZombie(t.procs, j, |t.procs|)
  {
  }

  lemma {:induction false} WaitSlots(s: State, i: nat, w: Waited, t: State)
    requires Slots(s) && i < |s.procs| && s.procs[i].state.RUNNING? && s.procs[i].child.None? && Waits(s, i, w, t)
    ensures Slots(t)
  {
    forall j: nat | j < |t.procs| ensures Good(t, j) {
      assert Good(s, j);
    }
  }

  lemma {:induction false} StepSlots(s: State, a: Step, t: State)
    requires Slots(s) && Next(s, a, t)
    ensures Slots(t)
  {
    hide Good, Waits, WaitDoes, KillDoes;
    match a {
      case Fork(i, k) => ForkAllocSlots(s, i, k, t);
      case ForkFail(i) => ForkFailSlots(s, i, t);
      case ForkParent(i) => ForkParentSlots(s, i, t);
      case ForkDone(i) => ForkDoneSlots(s, i, t);
      case Exit(i) => ExitSlots(s, i, t);
      case Wait(i, w) => WaitSlots(s, i, w, t);
      case WaitAgain(i, w) =>
        var u := Set(s, i, s.procs[i].(state := RUNNING, chan := NoChan));
        ResumeSlots(s, i);
        WaitSlots(u, i, w, t);
      case _ => SchedSlots(s, a, t);
    }
  }

  lemma {:induction false} ResumeSlots(s: State, i: nat)
    requires Slots(s) && i < |s.procs| && s.procs[i].state.RUNNABLE? && s.procs[i].chan == Slot(i)
    ensures Slots(Set(s, i, s.procs[i].(state := RUNNING, chan := NoChan))) && s.procs[i].child.None?
  {
    var t := Set(s, i, s.procs[i].(state := RUNNING, chan := NoChan));
    assert Good(s, i);
    forall j: nat | j < |t.procs| ensures Rescheduled(s.procs[j], t.procs[j], j) {
      assert Good(s, j);
    }
    RescheduledSlots(s, t);
  }

  lemma {:induction false} SamePids(s: State, t: State)
    requires Pids(s) && t.nextpid == s.nextpid && t.reaped == s.reaped && |t.procs| == |s.procs|
    requires forall j: nat | j < |s.procs| && !t.procs[j].state.UNUSED? ::
               !s.procs[j].state.UNUSED? && t.procs[j].pid == s.procs[j].pid
    ensures Pids(t)
  {
  }

  lemma {:induction false} WaitPids(s: State, i: nat, w: Waited, t: State)
    requires Pids(s) && i < |s.procs| && !s.procs[i].state.UNUSED? && Waits(s, i, w, t)
    ensures Pids(t)
  {
    if w.Reaped? {
      var u := s.(procs := t.procs);
      SamePids(s, u);
      assert forall j: nat | j < |t.procs| && !t.procs[j].state.UNUSED? :: t.procs[j].pid != w.pid;
    } else {
      SamePids(s, t);
    }
  }

  lemma {:induction false} ForkPids(s: State, i: nat, k: nat, t: State)
    requires Pids(s) && Next(s, Fork(i, k), t)
    ensures Pids(t)
  {
    forall j: nat | j < |t.procs| && j != k && !t.procs[j].state.UNUSED? ensures t.procs[j].pid < s.nextpid {
      assert !s.procs[j].state.UNUSED?;
    }
  }

  lemma {:induction false} StepPids(s: State, a: Step, t: State)
    requires Slots(s) && Pids(s) && Next(s, a, t)
    ensures Pids(t)
  {
    hide Pids, HasZombie;
    match a {
      case Fork(i, k) => ForkPids(s, i, k, t);
      case Wait(i, w) => WaitPids(s, i, w, t);
      case WaitAgain(i, w) =>
        var u := Set(s, i, s.procs[i].(state := RUNNING, chan := NoChan));
        SamePids(s, u);
        WaitPids(u, i, w, t);
      case ForkDone(i) =>
        assert Good(s, i);
        SamePids(s, t);
      case _ => SamePids(s, t);
    }
  }

  lemma {:induction false} StepInv(s: State, a: Step, t: State)
    requires Inv(s) && Next(s, a, t)
    ensures Inv(t)
  {
    hide Slots, Pids, Next;
    StepSlots(s, a, t);
    StepPids(s, a, t);
  }

  // ---- Whole runs -------------------------------------------------------------------------

  ghost predicate Run(ss: seq<State>, steps: seq<Step>) {
    && |ss| == |steps| + 1 && Init(ss[0])
    && forall k: nat | k < |steps| :: Next(ss[k], steps[k], ss[k + 1])
  }

  lemma {:induction false} RunInv(ss: seq<State>, steps: seq<Step>, k: nat)
    requires Run(ss, steps) && k < |ss|
    ensures Inv(ss[k])
    decreases k
  {
    hide Init, Next, Inv;
    if k == 0 {
      InitInv(ss[0]);
    } else {
      RunInv(ss, steps, k - 1);
      StepInv(ss[k - 1], steps[k - 1], ss[k]);
    }
  }

  /** In every state of every run: no two processes have the same pid; every process but init
      has a parent, alive; no process sleeps in wait while it has a zombie child. */
  lemma {:induction false} TableSound(ss: seq<State>, steps: seq<Step>, k: nat)
    requires Run(ss, steps) && k < |ss|
    ensures var s := ss[k];
            && (forall i: nat, j: nat | i < j < |s.procs| && !s.procs[i].state.UNUSED? && !s.procs[j].state.UNUSED? ::
                  s.procs[i].pid != s.procs[j].pid)
            && (forall i: nat | i < |s.procs| && (Alive(s.procs[i]) || s.procs[i].state.ZOMBIE?) && i != s.init ::
                  s.procs[i].parent.Some? && s.procs[i].parent.value < |s.procs| &&
                  Alive(s.procs[s.procs[i].parent.value]))
            && (forall i: nat | i < |s.procs| && WaitsForChild(s.procs[i], i) :: !HasZombie(s.procs, i, |s.procs|))
  {
    hide HasZombie, Run;
    RunInv(ss, steps, k);
    var s := ss[k];
    forall i: nat | i < |s.procs| && (Alive(s.procs[i]) || s.procs[i].state.ZOMBIE?) && i != s.init
      ensures s.procs[i].parent.Some? && s.procs[i].parent.value < |s.procs| && Alive(s.procs[s.procs[i].parent.value])
    {
      assert Good(s, i);
    }
    forall i: nat | i < |s.procs| && WaitsForChild(s.procs[i], i) ensures !HasZombie(s.procs, i, |s.procs|) {
      assert Good(s, i);
    }
  }

  /** wait returns no pid twice, and none that a process still has. */
  lemma {:induction false} ReapedOnce(ss: seq<State>, steps: seq<Step>, k: nat)
    requires Run(ss, steps) && k < |ss|
    ensures forall a: nat, b: nat | a < b < |ss[k].reaped| :: ss[k].reaped[a] != ss[k].reaped[b]
    ensures forall i: nat | i < |ss[k].procs| && !ss[k].procs[i].state.UNUSED? :: ss[k].procs[i].pid !in ss[k].reaped
  {
    RunInv(ss, steps, k);
  }

  /** A zombie stays one, with its pid, until its parent of the moment reaps it. */
  lemma {:induction false} ZombieLeaves(s: State, a: Step, t: State, z: nat)
    requires Inv(s) && Next(s, a, t) && z < |s.procs| && s.procs[z].state.ZOMBIE?
    ensures z < |t.procs|
    ensures if t.procs[z].state.ZOMBIE? then t.procs[z].pid == s.procs[z].pid
            else (a.Wait? || a.WaitAgain?) && s.procs[z].parent == Some(a.i) && t.reaped == s.reaped + [s.procs[z].pid]
  {
    hide HasZombie;
    if a.ForkFail? || a.ForkDone? || a.ForkParent? || a.Fork? {
      assert Good(s, a.i);
    }
  }

  ghost predicate Reaps(s: State, i: nat, z: nat, t: State) {
    && z < |s.procs| == |t.procs| && s.procs[z].state.ZOMBIE? && s.procs[z].parent == Some(i)
    && t.procs[z].state.UNUSED? && t.reaped == s.reaped + [s.procs[z].pid]
  }

  /** Only a zombie is reaped, and only by its parent. */
  lemma {:induction false} ReapedByParent(s: State, a: Step, t: State)
    requires Inv(s) && Next(s, a, t)
    ensures t.reaped == s.reaped ||
            ((a.Wait? || a.WaitAgain?) && exists z: nat :: Reaps(s, a.i, z, t))
  {
    hide HasZombie;
    if (a.Wait? || a.WaitAgain?) && a.w.Reaped? {
      var z := a.w.k;
      assert Reaps(s, a.i, z, t);
    }
  }

  // ---- Waking and killing -------------------------------------------------------------------

  /** wakeup wakes everyone who sleeps on the event, and no one else. */
  lemma {:induction false} WakeExactly(s: State, e: nat, t: State)
    requires Next(s, Wake(e), t)
    ensures |t.procs| == |s.procs| && t == s.(procs := t.procs)
    ensures forall j: nat | j < |s.procs| ::
              && !(t.procs[j].state == SLEEPING && t.procs[j].chan == Event(e))
              && t.procs[j] == if s.procs[j].state == SLEEPING && s.procs[j].chan == Event(e)
                               then s.procs[j].(state := RUNNABLE) else s.procs[j]
  {
  }

  /** No slot is marked killed before a process is in it. */
  predicate Clean(s: State) { forall i: nat | i < |s.procs| && s.procs[i].state.UNUSED? :: !s.procs[i].killed }

  /** kill finds its pid in a slot not in use, or a fork fails that was killed meanwhile. */
  predicate MarksUnused(s: State, a: Step) {
    match a
    case Kill(_, k) => k < |s.procs| && s.procs[k].state.UNUSED?
    case ForkFail(i) => Forking(s, i) && s.procs[s.procs[i].child.value].killed
    case _ => false
  }

  lemma {:induction false} CleanExactly(s: State, a: Step, t: State)
    requires Inv(s) && Clean(s) && Next(s, a, t)
    ensures Clean(t) <==> !MarksUnused(s, a)
    ensures a.Fork? ==> !t.procs[a.k].killed
  {
    hide HasZombie, Pids;
    if a.Fork? || a.ForkFail? || a.ForkParent? || a.ForkDone? {
      assert Good(s, a.i);
    }
    if MarksUnused(s, a) {
      var k := if a.Kill? then a.k else s.procs[a.i].child.value;
      assert t.procs[k].state.UNUSED? && t.procs[k].killed;
    }
  }

  /** If kill only ever finds slots in use, and no fork fails after being killed, every process
      starts out not killed. */
  lemma {:induction false} BornUnkilled(ss: seq<State>, steps: seq<Step>, n: nat)
    requires Run(ss, steps) && n < |ss| && forall k: nat | k < n :: !MarksUnused(ss[k], steps[k])
    ensures Clean(ss[n]) && (n < |steps| && steps[n].Fork? ==> !ss[n + 1].procs[steps[n].k].killed)
    decreases n
  {
    RunInv(ss, steps, n);
    if n > 0 {
      hide Inv, Next, Clean, MarksUnused, Init;
      BornUnkilled(ss, steps, n - 1);
      RunInv(ss, steps, n - 1);
      CleanExactly(ss[n - 1], steps[n - 1], ss[n]);
    }
    if n < |steps| {
      hide Inv, Clean, MarksUnused, Init;
      CleanExactly(ss[n], steps[n], ss[n + 1]);
    }
  }

  /** Otherwise not: kill(0) marks the first unused slot, and the next fork's child is killed. */
  lemma {:induction false} BornKilled() returns (ss: seq<State>, steps: seq<Step>)
    ensures Run(ss, steps) && steps == [Dispatch(0), Kill(0, 1), Fork(0, 1)]
    ensures |ss[3].procs| == 2 && ss[3].procs[1].state == EMBRYO && ss[3].procs[1].killed
  {
    var a, b := Proc(RUNNABLE, 1, None, NoChan, false, None, 0), Proc(UNUSED, 0, None, NoChan, false, None, 0);
    var s0 := State([a, b], 2, 0, []);
    var s1 := Set(s0, 0, a.(state := RUNNING));
    var s2 := Set(s1, 1, b.(killed := true));
    var s3 := s2.(nextpid := 3, procs := s2.procs[1 := s2.procs[1].(state := EMBRYO, pid := 2, forker := 0)]
    [0 := s2.procs[0].(child := Some(1))]);
    ss, steps := [s0, s1, s2, s3], [Dispatch(0), Kill(0, 1), Fork(0, 1)];
    assert Next(s0, steps[0], s1);
    assert Next(s1, steps[1], s2);
    assert Next(s2, steps[2], s3);
  }
}
