/** signal.c: masks, dispositions, handlers, sending a signal to one process, and psig. A 32-bit
    mask is the sequence of its bits, one a signal. Three things one would expect of the handlers
    do not hold, and each has its exact condition here: that `userdefed` marks the handlers
    installed (exec leaves it), that a handler has somewhere to return to (signal and fork lose
    the address), and that the handler psig runs is that of a pending signal. */
module Signal {
  import opened Basics

  const NUMSIG: nat := 32
  const CURRNUM: int := 22
  const SIGKILL: nat := 9
  const SIGCHLD: nat := 17
  const SIGCONT: nat := 18
  const SIGSTOP: nat := 19

  type Mask = m: seq<bool> | |m| == NUMSIG witness seq(NUMSIG, _ => false)

  /** -1, as a mask. */
  function Minus1(): Mask { seq(NUMSIG, _ => true) }
  function Zero(): Mask { seq(NUMSIG, _ => false) }

  datatype Disposition = DFL | IGN | USERDEF

  function TermSigs(): seq<nat> { [1, 2, 13, 14, 15, 10, 12] }
  function CoreSigs(): seq<nat> { [3, 6, 4, 8, 11] }
  function StopSigs(): seq<nat> { [19, 20, 21, 22] }

  /** Bits 0, SIGKILL, SIGCONT and SIGSTOP are never blocked. */
  predicate Clean(blocked: Mask) { !blocked[0] && !blocked[SIGKILL] && !blocked[SIGCONT] && !blocked[SIGSTOP] }

  /** Pending, not blocked, and left to the default action. */
  predicate Due(pending: Mask, blocked: Mask, disp: seq<Disposition>, s: nat)
    requires s < NUMSIG == |disp|
  {
    pending[s] && !blocked[s] && disp[s].DFL?
  }

  /** The signals psig deals with itself. */
  predicate Handled(s: nat) { s in TermSigs() || s in CoreSigs() || s in StopSigs() || s == SIGCHLD || s == SIGCONT }

  ghost predicate AnyDue(m: Mask, ss: seq<nat>, blocked: Mask, disp: seq<Disposition>)
    requires |disp| == NUMSIG
  {
    exists s :: s in ss && s < NUMSIG && Due(m, blocked, disp, s)
  }

  /** How many of the first `i` stop signals are due. */
  ghost function Count(m: Mask, blocked: Mask, disp: seq<Disposition>, i: nat): nat
    requires |disp| == NUMSIG && i <= 4
  {
    if i == 0 then 0 else Count(m, blocked, disp, i - 1) + if Due(m, blocked, disp, StopSigs()[i - 1]) then 1 else 0
  }

  /** Whether psig stops the process: for SIGSTOP, or for more stops than a SIGCONT makes up for. */
  ghost predicate StopsNow(m: Mask, blocked: Mask, disp: seq<Disposition>)
    requires |disp| == NUMSIG
  {
    Due(m, blocked, disp, SIGSTOP) || Count(m, blocked, disp, 4) > if Due(m, blocked, disp, SIGCONT) then 1 else 0
  }

  /** Whether sending `sig` makes it pending: not when it is dealt with on the spot. */
  predicate Queued(sig: nat, disp: seq<Disposition>)
    requires |disp| == NUMSIG
  {
    0 < sig <= CURRNUM && sig != SIGKILL && !disp[sig].IGN? && (sig == SIGCHLD || sig == SIGCONT ==> disp[sig].USERDEF?)
  }

  /** `i` is the least bit set. */
  predicate Lowest(m: Mask, i: nat) { i < NUMSIG && m[i] && forall s | 0 <= s < i :: !m[s] }

  /** `handler` and `sigreturn` are user addresses; 0 is SIG_DFL, NULL, and 1 SIG_IGN. */
  class Process {
    var sigpending: Mask
    var sigblocked: Mask
    var disp: seq<Disposition>
    var handler: seq<nat>
    var userdefed: Mask
    var sigreturn: nat
    var asleep: bool
    var killed: bool
    ghost var stops: nat

    /** What every operation keeps: nothing unblockable is blocked, SIGKILL and SIGSTOP have
        their default disposition, and no handler is SIG_DFL or SIG_IGN. */
    ghost predicate Valid()
      reads this
    {
      && |disp| == |handler| == NUMSIG && Clean(sigblocked) && disp[SIGKILL].DFL? && disp[SIGSTOP].DFL?
      && !userdefed[0] && forall s: nat | s < NUMSIG && disp[s].USERDEF? :: handler[s] > 1
    }

    /** What signal takes and returns for `s`. */
    ghost function Setting(s: nat): nat
      requires |disp| == |handler| == NUMSIG && s < NUMSIG
      reads this
    {
      match disp[s] case DFL => 0 case IGN => 1 case USERDEF => handler[s]
    }

    /** `userdefed` marks exactly the signals with a handler. */
    ghost predicate InStep()
      requires |disp| == NUMSIG
      reads this
    {
      forall s: nat | s < NUMSIG :: userdefed[s] <==> disp[s].USERDEF?
    }

    ghost predicate HasHandler()
      requires |disp| == NUMSIG
      reads this
    {
      exists s: nat | s < NUMSIG :: disp[s].USERDEF?
    }

    /** A handler has an address to return to. */
    ghost predicate Returnable()
      requires |disp| == NUMSIG
      reads this
    {
      HasHandler() ==> sigreturn != 0
    }

    /** Its handlers return where those of `other` do. */
    ghost predicate ReturnsLike(other: Process)
      requires |disp| == NUMSIG
      reads this, other
    {
      HasHandler() ==> sigreturn == other.sigreturn
    }

    constructor ()
      ensures Valid() && InStep() && Returnable() && !HasHandler() && !killed && sigreturn == 0
      ensures sigpending == sigblocked == Zero()
    {
      sigpending, sigblocked, userdefed, killed, stops, asleep := Zero(), Zero(), Zero(), false, 0, false;
      disp, handler, sigreturn := seq(NUMSIG, _ => DFL), seq(NUMSIG, _ => 0), 0;
    }

    /** fork's copy of the parent's mask, dispositions and handlers. Where handlers return to is
        not copied: it stays what the slot had. */
    method Fork(parent: Process)
      requires parent.Valid()
      modifies this`sigblocked, this`userdefed, this`disp, this`handler, this`sigpending
      ensures Valid() && sigblocked == old(parent.sigblocked) && userdefed == old(parent.userdefed)
      ensures sigpending == Zero()
      ensures disp == old(parent.disp) && handler == old(parent.handler)
      ensures old(parent.InStep()) ==> InStep()
      ensures Returnable() <==> !old(parent.HasHandler()) || old(sigreturn) != 0
      ensures ReturnsLike(parent) <==> !old(parent.HasHandler()) || old(sigreturn) == old(parent.sigreturn)
    {
      sigpending := Zero();
      sigblocked, userdefed, disp, handler := parent.sigblocked, parent.userdefed, parent.disp, parent.handler;
    }

    /** exec's loop over the dispositions: handlers go, what is ignored stays ignored. `userdefed`
        is left alone, so it is in step afterwards exactly if there was no handler to drop. */
    method Exec()
      requires Valid()
      modifies this`disp
      ensures Valid() && forall s: nat | s < NUMSIG :: disp[s] == if old(disp)[s].IGN? then IGN else DFL
      ensures !HasHandler()
      ensures old(InStep()) ==> (InStep() <==> !old(HasHandler()))
    {
      var i := 0;
      while i < NUMSIG
        invariant i <= NUMSIG && |disp| == NUMSIG
        invariant forall s: nat | s < NUMSIG ::
                    disp[s] == if s >= i then old(disp)[s] else if old(disp)[s].IGN? then IGN else DFL
      {
        if !disp[i].IGN? {
          disp := disp[i := DFL];
        }
        i := i + 1;
      }
    }

    method Sigsetmask(mask: Mask) returns (r: Mask)
      requires Valid()
      modifies this`sigblocked
      ensures Valid()
      ensures if mask[0] || mask[SIGKILL] || mask[SIGCONT] || mask[SIGSTOP]
              then sigblocked == old(sigblocked) && r == Zero() else sigblocked == mask == r
    {
      if mask[SIGKILL] || mask[SIGSTOP] || mask[SIGCONT] {
        return Zero();
      }
      if mask[0] {
        return Zero();
      }
      sigblocked := mask;
      r := mask;
    }

    method Sigblock(sig: int) returns (r: Mask)
      requires Valid()
      modifies this`sigblocked
      ensures Valid()
      ensures if !(0 < sig <= CURRNUM) then (forall s: nat | s < NUMSIG :: r[s]) && sigblocked == old(sigblocked)
              else if sig == SIGKILL || sig == SIGSTOP || sig == SIGCONT
              then r == Zero() && sigblocked == old(sigblocked)
              else r == sigblocked == old(sigblocked)[sig := true]
    {
      if sig <= 0 || sig > CURRNUM {
        return Minus1();
      }
      if sig == SIGKILL || sig == SIGSTOP || sig == SIGCONT {
        return Zero();
      }
      r := Sigsetmask(sigblocked[sig := true]);
    }

    method Sigunblock(sig: int) returns (r: Mask)
      requires Valid()
      modifies this`sigblocked
      ensures Valid()
      ensures if !(0 < sig <= CURRNUM) then (forall s: nat | s < NUMSIG :: r[s]) && sigblocked == old(sigblocked)
              else if sig == SIGKILL || sig == SIGSTOP then r == Zero() && sigblocked == old(sigblocked)
              else r == sigblocked == old(sigblocked)[sig := false]
    {
      if sig <= 0 || sig > CURRNUM {
        return Minus1();
      }
      if sig == SIGKILL || sig == SIGSTOP {
        return Zero();
      }
      r := Sigsetmask(sigblocked[sig := false]);
    }

    /** signal: sets what one signal does, never SIGKILL or SIGSTOP, and returns what it did
        before (None for SIG_ERR). Setting anything but a handler forgets where handlers return
        to, those still installed included. */
    method Signal(returnfn: nat, sig: int, to: nat) returns (prev: Option<nat>)
      requires Valid()
      modifies this`disp, this`handler, this`userdefed, this`sigreturn
      ensures Valid() && (prev.Some? <==> 0 < sig <= CURRNUM && sig != SIGKILL && sig != SIGSTOP)
      ensures prev.Some? ==> prev.value == old(Setting(sig)) && Setting(sig) == to
      ensures prev.Some? ==>
                && disp[sig] == (if to == 0 then DFL else if to == 1 then IGN else USERDEF)
                && sigreturn == (if to > 1 then returnfn else 0) && (to > 1 ==> handler[sig] == to && userdefed[sig])
      ensures forall s: nat | s < NUMSIG && !(prev.Some? && s == sig) ::
                disp[s] == old(disp[s]) && Setting(s) == old(Setting(s))
      ensures old(InStep()) ==> InStep()
      ensures prev.Some? && returnfn != 0 ==>
                (Returnable() <==> to > 1 || forall s: nat | s < NUMSIG && s != sig :: !old(disp)[s].USERDEF?)
      ensures prev.None? ==> sigreturn == old(sigreturn)
    {
      if sig <= 0 || sig > CURRNUM {
        return None;
      }
      if sig == SIGKILL || sig == SIGSTOP {
        return None;
      }
      prev := Some(if disp[sig].USERDEF? then handler[sig] else if disp[sig].IGN? then 1 else 0);
      sigreturn := 0;
      if to == 1 || to == 0 {
        if disp[sig].USERDEF? {
          userdefed := userdefed[sig := false];
        }
        disp := disp[sig := if to == 1 then IGN else DFL];
      } else {
        disp := disp[sig := USERDEF];
        userdefed := userdefed[sig := true];
        handler := handler[sig := to];
        sigreturn := returnfn;
        assert disp[sig].USERDEF?;
      }
    }

    /** Kill of the one process with that pid: SIGKILL kills and wakes it, SIGCONT wakes it, and
        whatever else is not ignored becomes pending. */
    method Send(sig: int) returns (ok: bool)
      requires Valid()
      modifies this`sigpending, this`asleep, this`killed
      ensures Valid() && (ok <==> 0 < sig <= CURRNUM)
      ensures sigpending == if ok && Queued(sig, disp) then old(sigpending)[sig := true] else old(sigpending)
      ensures ok ==>
                (sigpending == old(sigpending) <==>
                 old(sigpending)[sig] || sig == SIGKILL || disp[sig].IGN? ||
                 ((sig == SIGCHLD || sig == SIGCONT) && disp[sig].DFL?))
      ensures killed == (old(killed) || sig == SIGKILL) && asleep == (old(asleep) && sig != SIGKILL && sig != SIGCONT)
    {
      if sig <= 0 || sig > CURRNUM {
        return false;
      }
      ok := true;
      if sig == SIGKILL {
        killed := true;
        if asleep {
          asleep := false;
        }
        return;
      } else if sig == SIGCHLD && disp[SIGCHLD].DFL? {
        return;
      } else if sig == SIGCONT {
        if asleep {
          asleep := false;
        }
        if !disp[SIGCONT].DFL? && !disp[SIGCONT].IGN? {
          sigpending := sigpending[sig := true];
        }
        return;
      }
      if !disp[sig].IGN? {
        sigpending := sigpending[sig := true];
      }
    }

    /** The lock is given up and taken again; meanwhile `arrive` has been sent to the process. */
    method Receive(arrive: Mask)
      modifies this`sigpending
      ensures sigpending == Or(old(sigpending), arrive)
    {
      sigpending := Or(sigpending, arrive);
    }

    /** One of psig's first two loops: the first due signal kills the process, and all are
        taken off. The kill gives up the lock. */
    method Terminate(sigs: seq<nat>, arrive: Mask) returns (ghost got: Mask)
      requires Valid() && Distinct(sigs)
      modifies this`sigpending, this`killed
      ensures var hit := AnyDue(old(sigpending), sigs, sigblocked, disp);
              killed == (old(killed) || hit) && got == If(hit, arrive)
      ensures forall s: nat | s < NUMSIG :: Swept(old(sigpending), sigpending, sigblocked, disp, got, s, s in sigs)
    {
      ghost var m := sigpending;
      var called := false;
      var i := 0;
      while i < |sigs|
        invariant i <= |sigs| && called == AnyDue(m, sigs[..i], sigblocked, disp)
        invariant killed == (old(killed) || called)
        invariant forall s: nat | s < NUMSIG ::
                    Swept(m, sigpending, sigblocked, disp, If(called, arrive), s, s in sigs[..i])
      {
        ghost var p, got0, done := sigpending, If(called, arrive), sigs[..i];
        DueNext(m, sigs, i, sigblocked, disp);
        assert sigs[i] !in done && Swept(m, p, sigblocked, disp, got0, sigs[i], sigs[i] in done);
        called := TerminatePass(sigs[i], called, arrive);
        i := i + 1;
        assert sigs[..i] == done + [sigs[i - 1]];
        forall s: nat | s < NUMSIG
          ensures Swept(m, sigpending, sigblocked, disp, If(called, arrive), s, s in sigs[..i])
        {
          assert Swept(m, p, sigblocked, disp, got0, s, s in done);
        }
      }
      assert sigs[..|sigs|] == sigs;
      got := If(called, arrive);
    }

    method TerminatePass(s: nat, called: bool, arrive: Mask) returns (termcalled: bool)
      requires |disp| == NUMSIG && s < NUMSIG
      modifies this`sigpending, this`killed
      ensures var due := Due(old(sigpending), sigblocked, disp, s);
              && termcalled == (called || due) && killed == (old(killed) || (due && !called))
              && sigpending[s] == (old(sigpending)[s] && !due)
              && forall x: nat | x < NUMSIG && x != s ::
                   sigpending[x] == (old(sigpending)[x] || (due && !called && arrive[x]))
    {
      termcalled := called;
      if sigpending[s] && !sigblocked[s] && disp[s].DFL? {
        if !termcalled {
          killed := true;
          Receive(arrive);
          termcalled := true;
        }
        sigpending := sigpending[s := false];
      }
    }

    /** The process stops; when it goes on, `arrive` has been sent to it. */
    method Stop(arrive: Mask)
      modifies this`sigpending, this`stops
      ensures stops == old(stops) + 1 && sigpending == Or(old(sigpending), arrive)
    {
      stops := stops + 1;
      Receive(arrive);
    }

    /** One pass of psig's loop over the stop signals. */
    method StopPass(s: nat, called: bool, arrive: Mask) returns (stopcalled: bool)
      requires |disp| == NUMSIG && s < NUMSIG && s != SIGCONT
      modifies this`sigpending, this`stops
      ensures var due := Due(old(sigpending), sigblocked, disp, s);
              var cont := Due(old(sigpending), sigblocked, disp, SIGCONT);
              && stopcalled == (called || (due && !cont))
              && stops == old(stops) + (if due && !cont && !called then 1 else 0)
              && sigpending[s] == (old(sigpending)[s] && !due)
              && (due && cont ==> !sigpending[SIGCONT])
              && forall x: nat | x < NUMSIG && x != s && !(due && cont && x == SIGCONT) ::
                   sigpending[x] == (old(sigpending)[x] || (stops > old(stops) && arrive[x]))
    {
      stopcalled := called;
      if sigpending[s] && !sigblocked[s] && disp[s].DFL?
         && sigpending[SIGCONT] && !sigblocked[SIGCONT] && disp[SIGCONT].DFL? {
        sigpending := sigpending[SIGCONT := false];
        sigpending := sigpending[s := false];
      } else if sigpending[s] && !sigblocked[s] && disp[s].DFL? {
        if !stopcalled {
          Stop(arrive);
          stopcalled := true;
        }
        sigpending := sigpending[s := false];
      }
    }

    /** psig's loop over the stop signals, each cancelled by a SIGCONT if there is one left. */
    method StopLoop(called: bool, arrive: Mask) returns (ghost got: Mask)
      requires Valid() && forall s: nat | s < NUMSIG && arrive[s] :: Queued(s, disp)
      modifies this`sigpending, this`stops
      ensures var count := Count(old(sigpending), sigblocked, disp, 4);
              var cont := if Due(old(sigpending), sigblocked, disp, SIGCONT) then 1 else 0;
              && stops == old(stops) + (if !called && count > cont then 1 else 0)
              && got == If(!called && count > cont, arrive)
              && sigpending[SIGCONT] == ((old(sigpending)[SIGCONT] && !(cont == 1 && count > 0)) || got[SIGCONT])
      ensures forall s: nat | s < NUMSIG && s != SIGCONT ::
                Swept(old(sigpending), sigpending, sigblocked, disp, got, s, s in StopSigs())
    {
      hide StopSigs, Swept;
      Apart();
      ghost var m := sigpending;
      ghost var cont := if Due(m, sigblocked, disp, SIGCONT) then 1 else 0;
      var stopcalled := called;
      var i := 0;
      got := Zero();
      SweptNone(m, sigblocked, disp);
      while i < 4
        invariant i <= 4 && got == If(!called && Count(m, sigblocked, disp, i) > cont, arrive)
        invariant stops == old(stops) + if !called && Count(m, sigblocked, disp, i) > cont then 1 else 0
        invariant stopcalled == (called || Count(m, sigblocked, disp, i) > cont)
        invariant sigpending[SIGCONT] ==
                  ((m[SIGCONT] && !(cont == 1 && Count(m, sigblocked, disp, i) > 0)) || got[SIGCONT])
        invariant forall s: nat | s < NUMSIG && s != SIGCONT ::
                    Swept(m, sigpending, sigblocked, disp, got, s, s in StopSigs()[..i])
      {
        ghost var p, got0, done, s0 := sigpending, got, StopSigs()[..i], StopSigs()[i];
        assert s0 in StopSigs() && s0 !in done;
        SweptBefore(m, p, sigblocked, disp, got0, s0, done);
        ghost var before := stopcalled;
        stopcalled := StopPass(StopSigs()[i], stopcalled, arrive);
        got := if stopcalled && !before then arrive else got;
        i := i + 1;
        assert StopSigs()[..i] == done + [s0];
        forall s: nat | s < NUMSIG && s != SIGCONT
          ensures Swept(m, sigpending, sigblocked, disp, got, s, s in StopSigs()[..i])
        {
          SweptNext(m, p, sigpending, sigblocked, disp, got0, arrive, got, stopcalled && !before, s0, done, s);
        }
      }
      assert StopSigs()[..4] == StopSigs();
    }

    /** psig's last two steps: stop signals, and then a SIGCONT that is left over. What arrives
        during a stop stays, but for stop signals that the loop has yet to come to. */
    method StopOrContinue(called: bool, arrive: Mask) returns (ghost got: Mask)
      requires Valid() && !sigpending[SIGSTOP] && forall s: nat | s < NUMSIG && arrive[s] :: Queued(s, disp)
      modifies this`sigpending, this`stops
      ensures var stopped := !called && StopsNow(old(sigpending), sigblocked, disp);
              stops == old(stops) + (if stopped then 1 else 0) && got == If(stopped, arrive)
      ensures forall s: nat | s < NUMSIG ::
                Swept(old(sigpending), sigpending, sigblocked, disp, got, s, StopOrCont(s))
    {
      hide StopSigs;
      ghost var m := sigpending;
      got := StopLoop(called, arrive);
      ghost var p := sigpending;
      if sigpending[SIGCONT] && !sigblocked[SIGCONT] && disp[SIGCONT].DFL? {
        sigpending := sigpending[SIGCONT := false];
      }
      forall s: nat | s < NUMSIG
        ensures Swept(m, sigpending, sigblocked, disp, got, s, StopOrCont(s))
      {
        if s != SIGCONT {
          assert Swept(m, p, sigblocked, disp, got, s, s in StopSigs());
        }
      }
    }

    /** psig, with signals sent to the process whenever it gives up the lock. Of what was pending
        before, it takes off exactly the signals due that it deals with; it kills the process
        exactly when one of them terminates it, and stops it at most once. What arrives meanwhile
        stays pending unless it is one that psig is still to deal with. The handler run, if one
        is marked, is the first one marked, and its signal is taken off. */
    method Psig(arrive: Arrivals) returns (run: Option<nat>)
      requires Valid() && arrive.Valid(disp)
      modifies this`sigpending, this`killed, this`stops
      ensures Valid() && (run.None? <==> userdefed == Zero()) && (run.Some? ==> Lowest(userdefed, run.value))
      ensures killed <==> old(killed) || Fatal(old(sigpending), sigblocked, disp)
      ensures var seen := Opened(old(sigpending), arrive, sigblocked, disp);
              && stops == old(stops) + (if Stopping(old(sigpending), seen, sigblocked, disp) then 1 else 0)
              && forall s: nat | s < NUMSIG ::
                   if run == Some(s) then !sigpending[s]
                   else Dealt(old(sigpending), sigpending, seen, sigblocked, disp, s)
    {
      hide Opened, Stopping, Fatal, StopsNow, TermSigs, CoreSigs, StopSigs, Handled;
      Defaults(arrive);
      if userdefed == Zero() {
        return None;
      }
      ghost var m := sigpending;
      var i := 1;
      ghost var least := SomeBit(userdefed);
      while i < 32 && !userdefed[i]
        invariant 1 <= i <= least && sigpending == m && forall s | 0 <= s < i :: !userdefed[s]
      {
        i := i + 1;
      }
      sigpending := sigpending[i := false];
      run := Some(i);
      forall s: nat | s < NUMSIG && s != i
        ensures Dealt(old(sigpending), sigpending, Opened(old(sigpending), arrive, sigblocked, disp), sigblocked,
                      disp, s)
      {
        assert Dealt(old(sigpending), m, Opened(old(sigpending), arrive, sigblocked, disp), sigblocked, disp, s);
      }
    }

    /** psig up to the handlers. */
    method Defaults(arrive: Arrivals)
      requires Valid() && arrive.Valid(disp)
      modifies this`sigpending, this`killed, this`stops
      ensures Valid()
      ensures killed <==> old(killed) || Fatal(old(sigpending), sigblocked, disp)
      ensures var seen := Opened(old(sigpending), arrive, sigblocked, disp);
              && stops == old(stops) + (if Stopping(old(sigpending), seen, sigblocked, disp) then 1 else 0)
              && forall s: nat | s < NUMSIG :: Dealt(old(sigpending), sigpending, seen, sigblocked, disp, s)
    {
      hide TermSigs, CoreSigs, StopSigs, Handled, Swept, Dealt, AnyDue, StopsNow, Or, Due;
      ghost var m := sigpending;
      Apart();
      ghost var term := Terminate(TermSigs(), arrive.term);
      ghost var p1 := sigpending;
      ghost var core := Terminate(CoreSigs(), arrive.core);
      ghost var p2 := sigpending;
      ghost var stop := Stops(arrive.stop);
      SeenAll(m, p1, p2, arrive, term, core, stop, sigblocked, disp);
      forall s: nat | s < NUMSIG ensures Dealt(m, sigpending, Arrivals(term, core, stop), sigblocked, disp, s) {
        DealtAll(m, p1, p2, sigpending, Arrivals(term, core, stop), sigblocked, disp, s);
      }
    }

    /** psig from SIGSTOP on. */
    method Stops(arrive: Mask) returns (ghost got: Mask)
      requires Valid() && forall s: nat | s < NUMSIG && arrive[s] :: Queued(s, disp)
      modifies this`sigpending, this`stops
      ensures var stopped := StopsNow(old(sigpending), sigblocked, disp);
              stops == old(stops) + (if stopped then 1 else 0) && got == If(stopped, arrive)
      ensures forall s: nat | s < NUMSIG :: Swept(old(sigpending), sigpending, sigblocked, disp, got, s, StopPart(s))
    {
      hide StopSigs;
      ghost var m := sigpending;
      Apart();
      var stopcalled := false;
      if sigpending[SIGSTOP] {
        Stop(arrive);
        stopcalled := true;
        sigpending := sigpending[SIGSTOP := false];
      }
      if sigpending[SIGCHLD] && !sigblocked[SIGCHLD] && disp[SIGCHLD].DFL? {
        sigpending := sigpending[SIGCHLD := false];
      }
      if !stopcalled {
        SameStops(m, sigpending, sigblocked, disp);
      }
      ghost var p := sigpending;
      ghost var late := StopOrContinue(stopcalled, arrive);
      got := If(StopsNow(m, sigblocked, disp), arrive);
      forall s: nat | s < NUMSIG ensures Swept(m, sigpending, sigblocked, disp, got, s, StopPart(s)) {
        assert Swept(p, sigpending, sigblocked, disp, late, s, StopOrCont(s));
      }
    }
  }

  predicate StopOrCont(s: nat) { s in StopSigs() || s == SIGCONT }

  /** The signals of psig's last part. */
  predicate StopPart(s: nat) { s == SIGCHLD || StopOrCont(s) }

  function Or(m: Mask, a: Mask): (r: Mask)
    ensures forall s: nat | s < NUMSIG :: r[s] == (m[s] || a[s])
  {
    seq(NUMSIG, s requires 0 <= s < NUMSIG => m[s] || a[s])
  }

  /** What is sent to a process while psig has given up the lock: in term, in core, in stop. */
  datatype Arrivals = Arrivals(term: Mask, core: Mask, stop: Mask) {
    ghost predicate Valid(disp: seq<Disposition>)
      requires |disp| == NUMSIG
    {
      forall s: nat | s < NUMSIG && (term[s] || core[s] || stop[s]) :: Queued(s, disp)
    }
  }

  function NoArrivals(): Arrivals { Arrivals(Zero(), Zero(), Zero()) }

  /** Of `a`, what arrives in a window that does open. */
  ghost function Opened(m: Mask, a: Arrivals, blocked: Mask, disp: seq<Disposition>): (r: Arrivals)
    requires |disp| == NUMSIG
  {
    var term := if AnyDue(m, TermSigs(), blocked, disp) then a.term else Zero();
    var core := if AnyDue(Or(m, term), CoreSigs(), blocked, disp) then a.core else Zero();
    var stop := if StopsNow(Or(Or(m, term), core), blocked, disp) then a.stop else Zero();
    Arrivals(term, core, stop)
  }

  ghost predicate Stopping(m: Mask, seen: Arrivals, blocked: Mask, disp: seq<Disposition>)
    requires |disp| == NUMSIG
  {
    StopsNow(Or(Or(m, seen.term), seen.core), blocked, disp)
  }

  /** What becomes of one signal: pending before and not psig's to deal with, it stays; what
      arrives and is not, stays; a terminating signal stays if it arrives after its loop, and any
      but a stop signal if it arrives during the stop. Nothing else is pending afterwards. */
  ghost predicate Dealt(m: Mask, m': Mask, seen: Arrivals, blocked: Mask, disp: seq<Disposition>, s: nat)
    requires |disp| == NUMSIG && s < NUMSIG
  {
    var left := m[s] && !(Handled(s) && Due(m, blocked, disp, s));
    var late := seen.term[s] || seen.core[s] || seen.stop[s];
    && (m'[s] ==> left || late) && (left ==> m'[s])
    && (late && (!Handled(s) || blocked[s] || !disp[s].DFL?) ==> m'[s])
    && (seen.core[s] && s in TermSigs() ==> m'[s]) && (seen.stop[s] && s !in StopSigs() ==> m'[s])
  }

  lemma {:induction false} SameDue(m: Mask, m': Mask, sigs: seq<nat>, blocked: Mask, disp: seq<Disposition>)
    requires |disp| == NUMSIG && forall s: nat | s in sigs && s < NUMSIG :: m'[s] == m[s]
    ensures AnyDue(m', sigs, blocked, disp) == AnyDue(m, sigs, blocked, disp)
  {
  }

  lemma {:induction false} SameCount(m: Mask, m': Mask, blocked: Mask, disp: seq<Disposition>, i: nat)
    requires |disp| == NUMSIG && i <= 4 && forall s: nat | s < NUMSIG && s in StopSigs() :: m'[s] == m[s]
    ensures Count(m', blocked, disp, i) == Count(m, blocked, disp, i)
  {
    if i > 0 {
      SameCount(m, m', blocked, disp, i - 1);
    }
  }

  lemma {:induction false} SameStopsNow(m: Mask, m': Mask, blocked: Mask, disp: seq<Disposition>)
    requires |disp| == NUMSIG && m'[SIGCONT] == m[SIGCONT]
    requires forall s: nat | s < NUMSIG && s in StopSigs() :: m'[s] == m[s]
    ensures StopsNow(m', blocked, disp) == StopsNow(m, blocked, disp)
  {
    Apart();
    SameCount(m, m', blocked, disp, 4);
  }

  /** The windows that opened are those that the signals pending before decide on. */
  lemma {:induction false} SeenAll(m: Mask, p1: Mask, p2: Mask, arrive: Arrivals, term: Mask, core: Mask, stop: Mask,
                                   blocked: Mask, disp: seq<Disposition>)
    requires |disp| == NUMSIG
    requires term == If(AnyDue(m, TermSigs(), blocked, disp), arrive.term)
    requires core == If(AnyDue(p1, CoreSigs(), blocked, disp), arrive.core)
    requires stop == If(StopsNow(p2, blocked, disp), arrive.stop)
    requires forall s: nat | s < NUMSIG :: Swept(m, p1, blocked, disp, term, s, s in TermSigs())
    requires forall s: nat | s < NUMSIG :: Swept(p1, p2, blocked, disp, core, s, s in CoreSigs())
    ensures Opened(m, arrive, blocked, disp) == Arrivals(term, core, stop)
    ensures StopsNow(p2, blocked, disp) == Stopping(m, Arrivals(term, core, stop), blocked, disp)
    ensures AnyDue(m, TermSigs(), blocked, disp) || AnyDue(p1, CoreSigs(), blocked, disp) <==> Fatal(m, blocked, disp)
  {
    hide TermSigs, CoreSigs, StopSigs, AnyDue, StopsNow, Due;
    Apart();
    assert SIGCONT !in TermSigs() && SIGCONT !in CoreSigs();
    assert Swept(m, p1, blocked, disp, term, SIGCONT, SIGCONT in TermSigs());
    assert Swept(p1, p2, blocked, disp, core, SIGCONT, SIGCONT in CoreSigs());
    SameDue(Or(m, term), p1, CoreSigs(), blocked, disp);
    SameStopsNow(Or(Or(m, term), core), p2, blocked, disp);
    if !AnyDue(m, TermSigs(), blocked, disp) {
      SameDue(m, p1, CoreSigs(), blocked, disp);
    }
  }

  lemma {:induction false} DealtAll(m: Mask, p1: Mask, p2: Mask, p3: Mask, seen: Arrivals, blocked: Mask,
                                    disp: seq<Disposition>, s: nat)
    requires |disp| == NUMSIG && s < NUMSIG && seen.Valid(disp)
    requires Swept(m, p1, blocked, disp, seen.term, s, s in TermSigs())
    requires Swept(p1, p2, blocked, disp, seen.core, s, s in CoreSigs())
    requires Swept(p2, p3, blocked, disp, seen.stop, s, StopPart(s))
    ensures Dealt(m, p3, seen, blocked, disp, s)
  {
    hide TermSigs, CoreSigs, StopSigs;
    Apart();
  }

  lemma {:induction false} DueNext(m: Mask, sigs: seq<nat>, i: nat, blocked: Mask, disp: seq<Disposition>)
    requires |disp| == NUMSIG && i < |sigs| && sigs[i] < NUMSIG
    ensures AnyDue(m, sigs[..i + 1], blocked, disp) == (AnyDue(m, sigs[..i], blocked, disp) ||
                                                        Due(m, blocked, disp, sigs[i]))
  {
    assert sigs[..i + 1] == sigs[..i] + [sigs[i]];
  }

  lemma {:induction false} SomeBit(m: Mask) returns (s: nat)
    requires m != Zero()
    ensures s < NUMSIG && m[s]
  {
    s :| s < NUMSIG && m[s] != Zero()[s];
  }

  function If(open: bool, arrive: Mask): Mask { if open then arrive else Zero() }

  ghost predicate Distinct(sigs: seq<nat>) {
    (forall k | 0 <= k < |sigs| :: sigs[k] < NUMSIG) && forall a, b | 0 <= a < b < |sigs| :: sigs[a] != sigs[b]
  }

  /** One signal, with `got` arriving meanwhile, before psig has come to it and, `done`, after: then
      it is off if it was due; if it arrived it may be off too, but not if it is blocked or not
      left to its default. */
  ghost predicate Swept(m: Mask, m': Mask, blocked: Mask, disp: seq<Disposition>, got: Mask, s: nat, done: bool)
    requires |disp| == NUMSIG && s < NUMSIG
  {
    if done then
      var left := m[s] && !Due(m, blocked, disp, s);
      (m'[s] ==> left || got[s]) && (left ==> m'[s]) && (got[s] && (blocked[s] || !disp[s].DFL?) ==> m'[s])
    else m'[s] == (m[s] || got[s])
  }

  lemma {:induction false} SweptNone(m: Mask, blocked: Mask, disp: seq<Disposition>)
    requires |disp| == NUMSIG
    ensures forall s: nat | s < NUMSIG :: Swept(m, m, blocked, disp, Zero(), s, s in [])
  {
  }

  lemma {:induction false} SweptBefore(m: Mask, p: Mask, blocked: Mask, disp: seq<Disposition>, got: Mask, s: nat,
                                       done: seq<nat>)
    requires |disp| == NUMSIG && s < NUMSIG && s !in done && Swept(m, p, blocked, disp, got, s, s in done)
    ensures p[s] == (m[s] || got[s])
  {
  }

  /** One more signal, `s0`, is dealt with; if that opened the window, `arrive` has arrived. */
  lemma {:induction false} SweptNext(m: Mask, p: Mask, p': Mask, blocked: Mask, disp: seq<Disposition>, got: Mask,
                                     arrive: Mask, got': Mask, opens: bool, s0: nat, done: seq<nat>, s: nat)
    requires |disp| == NUMSIG && s < NUMSIG && s0 < NUMSIG && s0 !in done
    requires Swept(m, p, blocked, disp, got, s, s in done) && Swept(m, p, blocked, disp, got, s0, s0 in done)
    requires p'[s0] == (p[s0] && !Due(p, blocked, disp, s0))
    requires s != s0 ==> p'[s] == (p[s] || (opens && arrive[s]))
    requires got' == (if opens then arrive else got) && (opens ==> got == Zero() && m[s0])
    ensures Swept(m, p', blocked, disp, got', s, s in done + [s0])
  {
  }

  /** Whether a signal is due that terminates. */
  ghost predicate Fatal(m: Mask, blocked: Mask, disp: seq<Disposition>)
    requires |disp| == NUMSIG
  {
    AnyDue(m, TermSigs(), blocked, disp) || AnyDue(m, CoreSigs(), blocked, disp)
  }

  /** No signal is in two of psig's lists. */
  datatype Action = NoAction | Term | Ignore | Core | Cont | Stops

  /** signal.c's table of default actions. */
  function DefDisposition(): (t: seq<Action>)
    ensures |t| == NUMSIG
  {
    [NoAction, Term, Term, Core, Core, NoAction, Core, NoAction, Core, Term, Term, Core, Term, Term, Term, Term,
     NoAction, Ignore, Cont, Stops, Stops, Stops, Stops] + seq(9, _ => NoAction)
  }

  /** psig's lists are the table, but for SIGKILL, which never gets this far. */
  lemma {:induction false} ListsByTable(s: nat)
    requires s < NUMSIG
    ensures s in TermSigs() <==> DefDisposition()[s] == Term && s != SIGKILL
    ensures s in CoreSigs() <==> DefDisposition()[s] == Core
    ensures s in StopSigs() <==> DefDisposition()[s] == Stops
    ensures Handled(s) <==> DefDisposition()[s] != NoAction && s != SIGKILL
  {
    hide StopSigs, TermSigs, CoreSigs;
    MemberTerm(s);
    MemberCore(s);
    MemberStop(s);
  }

  lemma {:induction false} MemberTerm(s: nat)
    ensures s in TermSigs() <==> s in {1, 2, 10, 12, 13, 14, 15}
  {
    assert TermSigs()[0] == 1 && TermSigs()[1] == 2 && TermSigs()[2] == 13 && TermSigs()[3] == 14;
    assert TermSigs()[4] == 15 && TermSigs()[5] == 10 && TermSigs()[6] == 12;
  }

  lemma {:induction false} MemberCore(s: nat)
    ensures s in CoreSigs() <==> s in {3, 4, 6, 8, 11}
  {
    assert CoreSigs()[0] == 3 && CoreSigs()[1] == 6 && CoreSigs()[2] == 4 && CoreSigs()[3] == 8 && CoreSigs()[4] == 11;
  }

  lemma {:induction false} MemberStop(s: nat)
    ensures s in StopSigs() <==> s in {19, 20, 21, 22}
  {
    assert StopSigs()[0] == 19 && StopSigs()[1] == 20 && StopSigs()[2] == 21 && StopSigs()[3] == 22;
  }

  /** What psig does when nothing arrives meanwhile, by the table: a pending signal kills exactly
      if it is neither blocked nor ignored nor handled and its action is to terminate; and exactly
      those with an action are taken off. */
  lemma {:induction false} ByTable(m: Mask, m': Mask, blocked: Mask, disp: seq<Disposition>, s: nat)
    requires |disp| == NUMSIG && s < NUMSIG
    ensures Fatal(m, blocked, disp) <==>
            exists x: nat :: x < NUMSIG && x != SIGKILL && DefDisposition()[x] in {Term, Core} &&
                             m[x] && !blocked[x] && disp[x] == DFL
    ensures Dealt(m, m', NoArrivals(), blocked, disp, s) <==>
            (m'[s] <==> m[s] && (blocked[s] || disp[s] != DFL || DefDisposition()[s] == NoAction || s == SIGKILL))
  {
    hide StopSigs, TermSigs, CoreSigs, Handled, DefDisposition;
    forall x: nat | x < NUMSIG
      ensures x in TermSigs() <==> DefDisposition()[x] == Term && x != SIGKILL
      ensures x in CoreSigs() <==> DefDisposition()[x] == Core
    {
      ListsByTable(x);
    }
    ListsByTable(s);
    KillTerminates();
  }

  lemma {:induction false} KillTerminates()
    ensures DefDisposition()[SIGKILL] == Term
  {
  }

  lemma {:induction false} Apart()
    ensures forall s | s in TermSigs() :: s < NUMSIG && s !in CoreSigs() && s !in StopSigs() && s != SIGCHLD &&
                                          s != SIGCONT && s != SIGKILL
    ensures forall s | s in CoreSigs() :: s < NUMSIG && s !in StopSigs() && s != SIGCHLD && s != SIGCONT && s != SIGKILL
    ensures forall s | s in StopSigs() :: s < NUMSIG && s != SIGCHLD && s != SIGCONT
    ensures Distinct(TermSigs()) && Distinct(CoreSigs()) && Distinct(StopSigs()) && |StopSigs()| == 4
    ensures SIGSTOP in StopSigs() && 20 in StopSigs() && 21 in StopSigs() && 22 in StopSigs()
  {
    assert StopSigs()[0] == SIGSTOP && StopSigs()[1] == 20 && StopSigs()[2] == 21 && StopSigs()[3] == 22;
  }

  /** What psig has done before it comes to the stops does not bear on them. */
  lemma {:induction false} SameStops(m: Mask, m': Mask, blocked: Mask, disp: seq<Disposition>)
    requires |disp| == NUMSIG && !m'[SIGSTOP] && !Due(m, blocked, disp, SIGSTOP)
    requires m'[20] == m[20] && m'[21] == m[21] && m'[22] == m[22] && m'[SIGCONT] == m[SIGCONT]
    ensures StopsNow(m', blocked, disp) == StopsNow(m, blocked, disp)
  {
    CountAll(m, blocked, disp);
    CountAll(m', blocked, disp);
  }

  lemma {:induction false} CountAll(m: Mask, blocked: Mask, disp: seq<Disposition>)
    requires |disp| == NUMSIG && !Due(m, blocked, disp, SIGSTOP)
    ensures Count(m, blocked, disp, 4)
         == (if Due(m, blocked, disp, 20) then 1 else 0) + (if Due(m, blocked, disp, 21) then 1 else 0)
            + (if Due(m, blocked, disp, 22) then 1 else 0)
  {
    assert Count(m, blocked, disp, 1) == 0;
    assert Count(m, blocked, disp, 2) == if Due(m, blocked, disp, 20) then 1 else 0;
    assert Count(m, blocked, disp, 3) == Count(m, blocked, disp, 2) + if Due(m, blocked, disp, 21) then 1 else 0;
  }

  // ---- Where handlers do not do what one would expect ---------------------------------

  /** exec drops the handler of signal 2 but not its mark: psig runs it all the same. */
  method DroppedHandler() returns (p: Process, run: Option<nat>)
    ensures p.Valid() && p.disp[2].DFL? && !p.HasHandler() && run == Some(2)
  {
    p := new Process();
    var prev := p.Signal(0x100, 2, 0x1000);
    assert p.userdefed[2];
    p.Exec();
    var ok := p.Send(20);
    run := p.Psig(NoArrivals());
  }

  /** With handlers for 1 and 2 and only 2 pending, psig runs the one for 1, and 2 stays pending. */
  method WrongHandler() returns (p: Process, run: Option<nat>)
    ensures p.Valid() && p.InStep() && p.disp[2].USERDEF? && run == Some(1) && p.sigpending[2]
  {
    p := new Process();
    var prev := p.Signal(0x100, 1, 0x1000);
    prev := p.Signal(0x100, 2, 0x2000);
    assert p.userdefed[1] && p.userdefed[2] && !p.userdefed[0];
    var ok := p.Send(2);
    run := p.Psig(NoArrivals());
  }

  /** Setting signal 2 back to its default leaves the handler of 1 nowhere to return to. */
  method LostReturn() returns (p: Process)
    ensures p.Valid() && p.disp[1].USERDEF? && !p.Returnable()
  {
    p := new Process();
    var prev := p.Signal(0x100, 1, 0x1000);
    prev := p.Signal(0x100, 2, 0x2000);
    prev := p.Signal(0x100, 2, 0);
    assert p.disp[1].USERDEF?;
  }

  /** A child in a fresh slot has its parent's handler and nowhere for it to return to. */
  method InheritedHandler() returns (parent: Process, child: Process)
    ensures parent.Valid() && child.Valid() && parent.Returnable()
    ensures child.disp[1].USERDEF? && child.Setting(1) == parent.Setting(1) && !child.Returnable()
  {
    parent := new Process();
    var prev := parent.Signal(0x100, 1, 0x1000);
    assert parent.disp[1].USERDEF?;
    child := new Process();
    child.Fork(parent);
  }
}
