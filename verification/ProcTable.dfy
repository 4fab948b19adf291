/** proc.c: the process table. The table-scanning sections that run under ptable.lock, each as
    the loops of the source, proved against what it does to each slot. */
module ProcTable {
  import opened Basics

  datatype PState = UNUSED | EMBRYO | SLEEPING | RUNNABLE | RUNNING | ZOMBIE

  /** A process waiting for a child sleeps on its own table slot; `Event` is any other channel. */
  datatype Chan = NoChan | Slot(i: nat) | Event(e: nat)

  /** `child` is fork's np: the slot a fork under way is filling. `forker`, who fills a slot, is
      auxiliary. */
  datatype Proc = Proc(state: PState, pid: nat, parent: Option<nat>, chan: Chan, killed: bool, child: Option<nat>,
                       forker: nat)

  // ---- What each section does -------------------------------------------------------

  function Woken(p: Proc, c: Chan): Proc {
    if p.state.SLEEPING? && p.chan == c then p.(state := RUNNABLE) else p
  }

  function Wakeup(procs: seq<Proc>, c: Chan): (r: seq<Proc>)
    ensures |r| == |procs| && forall j | 0 <= j < |r| :: r[j] == Woken(procs[j], c)
  {
    seq(|procs|, j requires 0 <= j < |procs| => Woken(procs[j], c))
  }

  function ChanOf(p: Option<nat>): Chan { if p.Some? then Slot(p.value) else NoChan }

  ghost predicate HasZombie(procs: seq<Proc>, i: nat, n: nat)
    requires n <= |procs|
  {
    exists k: nat :: k < n && procs[k].parent == Some(i) && procs[k].state.ZOMBIE?
  }

  /** Slot `j` when process `i` has exited, `n` slots having been looked at. */
  ghost function Exited(procs: seq<Proc>, i: nat, init: nat, n: nat, j: nat): Proc
    requires i < |procs| && j < |procs| && n <= |procs|
  {
    var p := Woken(procs[j], ChanOf(procs[i].parent));
    var q := if j < n && p.parent == Some(i) then p.(parent := Some(init)) else p;
    if HasZombie(procs, i, n) then Woken(q, Slot(init)) else q
  }

  ghost function ExitAll(procs: seq<Proc>, i: nat, init: nat): (r: seq<Proc>)
    requires i < |procs|
    ensures |r| == |procs|
    ensures forall j: nat | j < |r| ::
              r[j] == if j == i then Exited(procs, i, init, |procs|, i).(state := ZOMBIE)
              else Exited(procs, i, init, |procs|, j)
  {
    seq(|procs|, j requires 0 <= j < |procs| =>
      if j == i then Exited(procs, i, init, |procs|, i).(state := ZOMBIE) else Exited(procs, i, init, |procs|, j))
  }

  /** `k` is the first zombie child of `i` in the table. */
  ghost predicate FirstZombie(procs: seq<Proc>, i: nat, k: nat) {
    && k < |procs| && procs[k].parent == Some(i) && procs[k].state.ZOMBIE?
    && !HasZombie(procs, i, k)
  }

  ghost predicate HasKids(procs: seq<Proc>, i: nat, n: nat)
    requires n <= |procs|
  {
    exists k: nat :: k < n && procs[k].parent == Some(i)
  }

  function Freed(p: Proc): Proc {
    p.(state := UNUSED, pid := 0, parent := None, killed := false)
  }

  /** What one pass of wait comes to: a child reaped, nothing to wait for, or sleep. */
  datatype Waited = Reaped(k: nat, pid: nat) | Gone | Slept

  ghost predicate WaitDoes(procs: seq<Proc>, i: nat, w: Waited, after: seq<Proc>)
    requires i < |procs|
  {
    match w
    case Reaped(k, pid) => FirstZombie(procs, i, k) && pid == procs[k].pid && after == procs[k := Freed(procs[k])]
    case Gone => !HasZombie(procs, i, |procs|) && (!HasKids(procs, i, |procs|) || procs[i].killed) && after == procs
    case Slept =>
      && !HasZombie(procs, i, |procs|) && HasKids(procs, i, |procs|) && !procs[i].killed
      && after == procs[i := procs[i].(chan := Slot(i), state := SLEEPING)]
  }

  // ---- The code ------------------------------------------------------------------------

  class Table {
    var proc: seq<Proc>
    var nextpid: nat
    var initproc: nat

    /** allocproc up to its release: the first unused slot gets the next pid. */
    method AllocProc() returns (r: Option<nat>)
      modifies this`proc, this`nextpid
      ensures r.None? ==>
                proc == old(proc) && nextpid == old(nextpid) && forall k: nat | k < |proc| :: !proc[k].state.UNUSED?
      ensures r.Some? ==>
                && r.value < |old(proc)| && old(proc)[r.value].state.UNUSED?
                && (forall k: nat | k < r.value :: !old(proc)[k].state.UNUSED?)
                && proc == old(proc)[r.value := old(proc)[r.value].(state := EMBRYO, pid := old(nextpid))]
                && nextpid == old(nextpid) + 1
    {
      var p := 0;
      while p < |proc|
        invariant p <= |proc| && proc == old(proc) && nextpid == old(nextpid)
        invariant forall k: nat | k < p :: !proc[k].state.UNUSED?
      {
        if proc[p].state.UNUSED? {
          proc := proc[p := proc[p].(state := EMBRYO, pid := nextpid)];
          nextpid := nextpid + 1;
          return Some(p);
        }
        p := p + 1;
      }
      r := None;
    }

    /** Who sleeps on `c` is made runnable; nothing else of that slot, and no other slot, changes. */
    method Wakeup1(c: Chan)
      modifies this`proc
      ensures proc == Wakeup(old(proc), c)
      ensures |proc| == |old(proc)| && forall j: nat | j < |proc| ::
                proc[j] == if old(proc)[j].state == SLEEPING && old(proc)[j].chan == c
                then old(proc)[j].(state := RUNNABLE) else old(proc)[j]
    {
      var p := 0;
      while p < |proc|
        invariant p <= |proc| == |old(proc)|
        invariant forall j: nat | j < |proc| :: proc[j] == if j < p then Woken(old(proc)[j], c) else old(proc)[j]
      {
        if proc[p].state.SLEEPING? && proc[p].chan == c {
          proc := proc[p := proc[p].(state := RUNNABLE)];
        }
        p := p + 1;
      }
    }

    /** exit from its acquire on: the process is a zombie and its children are init's. Its parent
        wakes if it waits for a child, and init if one of the children is a zombie. */
    method Exit(i: nat)
      requires i < |proc| && proc[i].state.RUNNING?
      modifies this`proc
      ensures proc == ExitAll(old(proc), i, initproc)
      ensures |proc| == |old(proc)| && forall j: nat | j < |proc| ::
                var p, me := old(proc)[j], old(proc)[i];
                var woken := p.chan == (if me.parent.Some? then Slot(me.parent.value) else NoChan) ||
                             (p.chan == Slot(initproc) && exists k: nat ::
                                k < |old(proc)| && old(proc)[k].parent == Some(i) && old(proc)[k].state == ZOMBIE);
                proc[j] == p.(parent := if p.parent == Some(i) then Some(initproc) else p.parent,
                state := if j == i then ZOMBIE else if p.state == SLEEPING && woken then RUNNABLE
                else p.state)
    {
      ghost var procs := proc;
      Wakeup1(ChanOf(proc[i].parent));
      var p := 0;
      while p < |proc|
        invariant p <= |proc| == |procs|
        invariant forall j: nat | j < |proc| :: proc[j] == Exited(procs, i, initproc, p, j)
      {
        ghost var was := proc;
        if proc[p].parent == Some(i) {
          proc := proc[p := proc[p].(parent := Some(initproc))];
          if proc[p].state.ZOMBIE? {
            Wakeup1(Slot(initproc));
          }
        }
        forall j: nat | j < |proc| ensures proc[j] == Exited(procs, i, initproc, p + 1, j) {
          ExitedStep(procs, i, initproc, p, j);
        }
        p := p + 1;
      }
      proc := proc[i := proc[i].(state := ZOMBIE)];
    }

    /** One pass of wait over the table. */
    method WaitPass(i: nat) returns (w: Waited)
      requires i < |proc|
      modifies this`proc
      ensures WaitDoes(old(proc), i, w, proc)
      ensures w.Reaped? ==>
                && w.k < |old(proc)| && old(proc)[w.k].state == ZOMBIE && old(proc)[w.k].parent == Some(i)
                && w.pid == old(proc)[w.k].pid
                && proc == old(proc)[w.k := old(proc)[w.k].(state := UNUSED, pid := 0, parent := None, killed := false)]
      ensures !w.Reaped? ==> forall k: nat | k < |old(proc)| && old(proc)[k].parent == Some(i) ::
                  old(proc)[k].state != ZOMBIE
      ensures w.Gone? ==>
                proc == old(proc) && (proc[i].killed || forall k: nat | k < |proc| :: proc[k].parent != Some(i))
      ensures w.Slept? ==>
                && proc == old(proc)[i := old(proc)[i].(state := SLEEPING, chan := Slot(i))]
                && !old(proc)[i].killed && exists k: nat :: k < |old(proc)| && old(proc)[k].parent == Some(i)
    {
      var havekids := false;
      var p := 0;
      while p < |proc|
        invariant p <= |proc| && proc == old(proc)
        invariant havekids == HasKids(proc, i, p) && !HasZombie(proc, i, p)
      {
        if proc[p].parent == Some(i) {
          havekids := true;
          if proc[p].state.ZOMBIE? {
            var pid := proc[p].pid;
            proc := proc[p := proc[p].(pid := 0, parent := None, killed := false, state := UNUSED)];
            return Reaped(p, pid);
          }
        }
        p := p + 1;
      }
      if !havekids || proc[i].killed {
        return Gone;
      }
      proc := proc[i := proc[i].(chan := Slot(i), state := SLEEPING)];
      w := Slept;
    }

    method Kill(pid: nat) returns (found: bool)
      modifies this`proc
      ensures found <==> exists k: nat :: k < |old(proc)| && old(proc)[k].pid == pid
      ensures !found ==> proc == old(proc)
      ensures found ==> exists k: nat :: KillDoes(old(proc), pid, k, proc)
      ensures found ==> exists k: nat ::
                  && k < |old(proc)| && old(proc)[k].pid == pid && (forall j: nat | j < k :: old(proc)[j].pid != pid)
                  && var p := old(proc)[k];
                  proc == old(proc)[k := p.(killed := true, state := if p.state == SLEEPING then RUNNABLE else p.state)]
    {
      var p := 0;
      while p < |proc|
        invariant p <= |proc| && proc == old(proc)
        invariant forall k: nat | k < p :: proc[k].pid != pid
      {
        if proc[p].pid == pid {
          proc := proc[p := proc[p].(killed := true)];
          if proc[p].state.SLEEPING? {
            proc := proc[p := proc[p].(state := RUNNABLE)];
          }
          assert KillDoes(old(proc), pid, p, proc);
          return true;
        }
        p := p + 1;
      }
      found := false;
    }
  }

  function Killed(p: Proc): Proc {
    p.(killed := true, state := if p.state.SLEEPING? then RUNNABLE else p.state)
  }

  /** The first slot with that pid is marked killed, and woken if it sleeps. */
  ghost predicate KillDoes(procs: seq<Proc>, pid: nat, k: nat, after: seq<Proc>) {
    && k < |procs| && procs[k].pid == pid && (forall j: nat | j < k :: procs[j].pid != pid)
    && after == procs[k := Killed(procs[k])]
  }

  lemma {:induction false} ExitedStep(procs: seq<Proc>, i: nat, init: nat, p: nat, j: nat)
    requires i < |procs| && p < |procs| && j < |procs|
    ensures var before, seen := Exited(procs, i, init, p, j), Exited(procs, i, init, p, p);
            var moved := if j == p && before.parent == Some(i) then before.(parent := Some(init)) else before;
            Exited(procs, i, init, p + 1, j)
            == if seen.parent == Some(i) && seen.state.ZOMBIE? then Woken(moved, Slot(init)) else moved
  {
  }
}
