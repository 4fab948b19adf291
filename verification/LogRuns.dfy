/** Whole runs of the log system, of any length, with crashes anywhere. */
module LogRuns {
  import opened Blocks
  import opened LogDisk
  import opened LogDevice
  import opened LogSystem
  import opened LogInvariant
  import opened LogRefinement

  ghost predicate Runs(c: Config, s: State, steps: seq<Step>)
    requires c.Valid()
    decreases |steps|
  {
    steps == [] || (Enabled(c, s, steps[0]) && Runs(c, Do(c, s, steps[0]), steps[1..]))
  }

  ghost function After(c: Config, s: State, steps: seq<Step>): State
    requires c.Valid() && Runs(c, s, steps)
    decreases |steps|
  {
    if steps == [] then s else After(c, Do(c, s, steps[0]), steps[1..])
  }

  ghost function Events(c: Config, s: State, steps: seq<Step>): seq<Event>
    requires c.Valid() && Runs(c, s, steps)
    decreases |steps|
  {
    if steps == [] then [] else [EventOf(s, steps[0])] + Events(c, Do(c, s, steps[0]), steps[1..])
  }

  function Replay(events: seq<Event>, x: Tx): Tx {
    if events == [] then x else Replay(events[1..], Apply(events[0], x))
  }

  ghost predicate AllAllowed(events: seq<Event>, x: Tx) {
    events == [] || (Allowed(events[0], x) && AllAllowed(events[1..], Apply(events[0], x)))
  }

  /** Every run is, event by event, a run of the two-version disk. */
  lemma {:induction false} RunRefines(c: Config, s: State, steps: seq<Step>)
    requires c.Valid() && c.Roomy() && Inv(c, s) && Runs(c, s, steps)
    ensures Inv(c, After(c, s, steps))
    ensures AllAllowed(Events(c, s, steps), Abs(c, s))
    ensures Abs(c, After(c, s, steps)) == Replay(Events(c, s, steps), Abs(c, s))
    decreases |steps|
  {
    hide Inv, Abs, Enabled, Do, Apply;
    if steps != [] {
      StepRefines(c, s, steps[0]);
      RunRefines(c, Do(c, s, steps[0]), steps[1..]);
      assert Events(c, s, steps)[1..] == Events(c, Do(c, s, steps[0]), steps[1..]);
    }
  }

  lemma {:induction false} InitInv(c: Config, s: State)
    requires c.Valid() && Init(c, s)
    ensures Inv(c, s)
  {
  }

  // ---- Prefixes ----------------------------------------------------------------

  lemma {:induction false} RunsPrefix(c: Config, s: State, steps: seq<Step>, k: nat)
    requires c.Valid() && Runs(c, s, steps) && k < |steps|
    ensures Runs(c, s, steps[..k]) && Runs(c, s, steps[..k + 1])
    ensures Enabled(c, After(c, s, steps[..k]), steps[k])
    ensures After(c, s, steps[..k + 1]) == Do(c, After(c, s, steps[..k]), steps[k])
    decreases |steps|
  {
    hide Enabled, Do;
    if k > 0 {
      RunsPrefix(c, Do(c, s, steps[0]), steps[1..], k - 1);
      assert steps[..k][1..] == steps[1..][..k - 1];
      assert steps[..k + 1][1..] == steps[1..][..k];
    } else {
      assert steps[..1][1..] == [];
    }
  }

  lemma {:induction false} RunsTo(c: Config, s: State, steps: seq<Step>, k: nat)
    requires c.Valid() && Runs(c, s, steps) && k <= |steps|
    ensures Runs(c, s, steps[..k])
  {
    if k < |steps| {
      RunsPrefix(c, s, steps, k);
    } else {
      assert steps[..k] == steps;
    }
  }

  /** The state after the first `k` steps. */
  ghost function At(c: Config, s: State, steps: seq<Step>, k: nat): State
    requires c.Valid() && Runs(c, s, steps) && k <= |steps|
  {
    RunsTo(c, s, steps, k);
    After(c, s, steps[..k])
  }

  lemma {:induction false} AtStep(c: Config, s: State, steps: seq<Step>, k: nat)
    requires c.Valid() && Runs(c, s, steps) && k < |steps|
    ensures Enabled(c, At(c, s, steps, k), steps[k])
    ensures At(c, s, steps, k + 1) == Do(c, At(c, s, steps, k), steps[k])
  {
    hide Enabled, Do;
    RunsPrefix(c, s, steps, k);
  }

  lemma {:induction false} AtEnd(c: Config, s: State, steps: seq<Step>)
    requires c.Valid() && Runs(c, s, steps)
    ensures At(c, s, steps, 0) == s && At(c, s, steps, |steps|) == After(c, s, steps)
  {
    hide Enabled, Do;
    assert steps[..0] == [] && steps[..|steps|] == steps;
  }

  lemma {:induction false} AtInv(c: Config, s: State, steps: seq<Step>, k: nat)
    requires c.Valid() && c.Roomy() && Init(c, s) && Runs(c, s, steps) && k <= |steps|
    ensures Inv(c, At(c, s, steps, k))
  {
    hide Inv, Enabled, Do;
    InitInv(c, s);
    RunsTo(c, s, steps, k);
    RunRefines(c, s, steps[..k]);
  }

  /** The two versions after the first `k` steps. */
  ghost function TxAt(c: Config, s: State, steps: seq<Step>, k: nat): (x: Tx)
    requires c.Valid() && c.Roomy() && Init(c, s) && Runs(c, s, steps) && k <= |steps|
    ensures x.active == At(c, s, steps, k).ops.Keys
  {
    AtInv(c, s, steps, k);
    InvWf(c, At(c, s, steps, k));
    Abs(c, At(c, s, steps, k))
  }

  lemma {:induction false} TxStep(c: Config, s: State, steps: seq<Step>, k: nat)
    requires c.Valid() && c.Roomy() && Init(c, s) && Runs(c, s, steps) && k < |steps|
    ensures var x, e := TxAt(c, s, steps, k), EventOf(At(c, s, steps, k), steps[k]);
            Allowed(e, x) && TxAt(c, s, steps, k + 1) == Apply(e, x)
  {
    hide Inv, Enabled, Do, Abs, EventOf;
    AtInv(c, s, steps, k);
    AtStep(c, s, steps, k);
    StepRefines(c, At(c, s, steps, k), steps[k]);
  }

  lemma {:induction false} TxStart(c: Config, s: State, steps: seq<Step>)
    requires c.Valid() && c.Roomy() && Init(c, s) && Runs(c, s, steps)
    ensures TxAt(c, s, steps, 0).active == {} && TxAt(c, s, steps, 0).durable == TxAt(c, s, steps, 0).current
  {
    hide DurableHome;
    AtEnd(c, s, steps);
  }

  /** The start of the run, or a moment at which the last call under way has just ended. */
  ghost predicate Rest(c: Config, s: State, steps: seq<Step>, k: nat)
    requires c.Valid() && Runs(c, s, steps) && k <= |steps|
  {
    k == 0 || (steps[k - 1].End? && At(c, s, steps, k).ops == map[])
  }

  /** All or nothing: what is durable at the end of any run, wherever it ends, is the disk the
      run started from or everything that readers saw at a moment when the last call under way
      had just ended. */
  lemma {:induction false} AllOrNothing(c: Config, s: State, steps: seq<Step>) returns (k: nat)
    requires c.Valid() && c.Roomy() && Init(c, s) && Runs(c, s, steps)
    ensures k <= |steps| && Rest(c, s, steps, k) && (k == 0 || Booted(At(c, s, steps, k)))
    ensures TxAt(c, s, steps, |steps|).durable == TxAt(c, s, steps, k).current
  {
    hide At, TxAt, Runs, Enabled, Do, Init;
    var cur;
    k, cur := RestOf(c, s, steps, |steps|);
    if k > 0 {
      EndIsBooted(c, s, steps, k);
    }
  }

  lemma {:induction false} EndIsBooted(c: Config, s: State, steps: seq<Step>, k: nat)
    requires c.Valid() && c.Roomy() && Init(c, s) && Runs(c, s, steps) && 0 < k <= |steps| && steps[k - 1].End?
    ensures Booted(At(c, s, steps, k))
  {
    hide Inv, At, Runs, Init;
    AtInv(c, s, steps, k - 1);
    AtStep(c, s, steps, k - 1);
    OpsOnlyRunning(c, At(c, s, steps, k - 1), steps[k - 1].p);
  }

  /** After `n` steps: where the durable version comes from, and, with no call under way, the
      current one. */
  lemma {:induction false} RestOf(c: Config, s: State, steps: seq<Step>, n: nat) returns (k: nat, cur: nat)
    requires c.Valid() && c.Roomy() && Init(c, s) && Runs(c, s, steps) && n <= |steps|
    ensures k <= n && cur <= n && Rest(c, s, steps, k) && Rest(c, s, steps, cur)
    ensures var x := TxAt(c, s, steps, n);
            && x.durable == TxAt(c, s, steps, k).current
            && (x.active == {} ==> x.current == TxAt(c, s, steps, cur).current)
  {
    hide At, TxAt, Runs, Enabled, Do, Init;
    if n == 0 {
      TxStart(c, s, steps);
      k, cur := 0, 0;
    } else {
      k, cur := RestOf(c, s, steps, n - 1);
      TxStep(c, s, steps, n - 1);
      match EventOf(At(c, s, steps, n - 1), steps[n - 1])
      case Ended(_) => if TxAt(c, s, steps, n).active == {} { cur := n; }
      case Committed => k := cur;
      case Crashed => cur := k;
      case _ =>
    }
  }

  /** From a moment with no call under way to the end of the last of the calls that began. */
  ghost predicate Group(c: Config, s: State, steps: seq<Step>, j: nat, k: nat)
    requires c.Valid() && Runs(c, s, steps)
  {
    && j < k <= |steps| && At(c, s, steps, j).ops == map[] && At(c, s, steps, k).ops == map[]
    && steps[j].Begin? && steps[k - 1].End?
    && forall m: nat | j < m < k :: At(c, s, steps, m).ops != map[]
  }

  /** Every group of calls that ends leaves `keeps` true if it finds it true. */
  ghost predicate GroupsKeep(c: Config, s: State, steps: seq<Step>, keeps: map<nat, Block> -> bool)
    requires c.Valid() && c.Roomy() && Init(c, s) && Runs(c, s, steps)
  {
    forall j: nat, k: nat | Group(c, s, steps, j, k) ::
      keeps(TxAt(c, s, steps, j).current) ==> keeps(TxAt(c, s, steps, k).current)
  }

  /** What groups of overlapping calls keep, crashes keep: if it holds of the disk at the start and
      each group hands it on, it holds of what a crash would leave at any point of any run, with
      any number of crashes and recoveries before. */
  lemma {:induction false} CrashesKeep(c: Config, s: State, steps: seq<Step>, keeps: map<nat, Block> -> bool)
    requires c.Valid() && c.Roomy() && Init(c, s) && Runs(c, s, steps)
    requires keeps(TxAt(c, s, steps, 0).durable) && GroupsKeep(c, s, steps, keeps)
    ensures keeps(TxAt(c, s, steps, |steps|).durable)
  {
    var since := KeptSoFar(c, s, steps, keeps, |steps|);
  }

  /** With calls under way, `since` is where their group began. */
  lemma {:induction false} KeptSoFar(c: Config, s: State, steps: seq<Step>, keeps: map<nat, Block> -> bool, n: nat)
    returns (since: nat)
    requires c.Valid() && c.Roomy() && Init(c, s) && Runs(c, s, steps) && n <= |steps|
    requires keeps(TxAt(c, s, steps, 0).durable) && GroupsKeep(c, s, steps, keeps)
    ensures keeps(TxAt(c, s, steps, n).durable)
    ensures TxAt(c, s, steps, n).active == {} ==> keeps(TxAt(c, s, steps, n).current)
    ensures TxAt(c, s, steps, n).active != {} ==> Open(c, s, steps, since, n) && keeps(TxAt(c, s, steps, since).current)
  {
    hide At, TxAt, Runs, Enabled, Do, Init;
    if n == 0 {
      TxStart(c, s, steps);
      since := 0;
    } else {
      since := KeptSoFar(c, s, steps, keeps, n - 1);
      TxStep(c, s, steps, n - 1);
      var e := EventOf(At(c, s, steps, n - 1), steps[n - 1]);
      if e.Ended? && TxAt(c, s, steps, n).active == {} {
        assert Group(c, s, steps, since, n);
      } else if e.Begun? && TxAt(c, s, steps, n - 1).active == {} {
        since := n - 1;
      }
    }
  }

  /** A group began at `j`, and its calls are not all over. */
  ghost predicate Open(c: Config, s: State, steps: seq<Step>, j: nat, n: nat)
    requires c.Valid() && Runs(c, s, steps) && n <= |steps|
  {
    j < n && At(c, s, steps, j).ops == map[] && steps[j].Begin?
    && forall m: nat | j < m <= n :: At(c, s, steps, m).ops != map[]
  }

  lemma {:induction false} InvWf(c: Config, s: State)
    requires c.Valid() && Inv(c, s)
    ensures c.L.Wf(s.disk)
  {
  }

  // ---- One call ---------------------------------------------------------------------

  ghost predicate NoBegun(events: seq<Event>) { forall k | 0 <= k < |events| :: !events[k].Begun? }

  /** At most one call begins. */
  ghost predicate OneBegun(events: seq<Event>) {
    forall k, m | 0 <= k < m < |events| :: !(events[k].Begun? && events[m].Begun?)
  }

  /** The blocks as the writes leave them, were there no crash. */
  function Overlay(events: seq<Event>, home: map<nat, Block>): map<nat, Block> {
    if events == [] then home
    else Overlay(events[1..], if events[0].Wrote? then home[events[0].b := events[0].data] else home)
  }

  lemma {:induction false} NoCallTx(events: seq<Event>, x: Tx, home: map<nat, Block>)
    requires AllAllowed(events, x) && x.active == {} && NoBegun(events)
    ensures Replay(events, x).durable in {x.durable, x.current} && Overlay(events, home) == home
  {
    if events != [] {
      NoCallTx(events[1..], Apply(events[0], x), home);
    }
  }

  /** Some call ends. */
  ghost predicate SomeEnded(events: seq<Event>) { exists k :: 0 <= k < |events| && events[k].Ended? }

  lemma {:induction false} EndedLater(events: seq<Event>)
    requires events != [] && SomeEnded(events[1..])
    ensures SomeEnded(events)
  {
    var k :| 0 <= k < |events| - 1 && events[1..][k].Ended?;
    assert events[k + 1].Ended?;
  }

  lemma {:induction false} InCallTx(events: seq<Event>, x: Tx, p: Pid)
    requires AllAllowed(events, x) && x.active == {p} && NoBegun(events)
    ensures var d := Replay(events, x).durable;
            d == x.durable || (SomeEnded(events) && d == Overlay(events, x.current))
  {
    if events != [] {
      var y, rest := Apply(events[0], x), events[1..];
      if y.active == {} {
        NoCallTx(rest, y, x.current);
        assert events[0].Ended? || events[0].Crashed?;
      } else {
        InCallTx(rest, y, p);
        if SomeEnded(rest) {
          EndedLater(events);
        }
      }
    }
  }

  lemma {:induction false} OneCallTx(events: seq<Event>, x: Tx)
    requires AllAllowed(events, x) && x.active == {} && x.durable == x.current && OneBegun(events)
    ensures var d := Replay(events, x).durable;
            d == x.current || (SomeEnded(events) && d == Overlay(events, x.current))
  {
    if events != [] {
      var y, rest := Apply(events[0], x), events[1..];
      assert forall k | 0 <= k < |rest| :: rest[k] == events[k + 1];
      if events[0].Begun? {
        InCallTx(rest, y, events[0].p);
      } else {
        OneCallTx(rest, y);
      }
      if SomeEnded(rest) {
        EndedLater(events);
      }
    }
  }

  /** A call that has the log to itself is all or nothing: whatever readers, evictions, commits,
      crashes and recoveries come in between, and wherever the run stops, what is durable is what
      was there before the call or, once it has ended, that with every one of its writes. */
  lemma {:induction false} OneCall(c: Config, s: State, steps: seq<Step>)
    requires c.Valid() && c.Roomy() && Inv(c, s) && Runs(c, s, steps) && OneBegun(Events(c, s, steps))
    requires s.ops == map[] && Abs(c, s).durable == Abs(c, s).current
    ensures Inv(c, After(c, s, steps))
    ensures var before, events := Abs(c, s).current, Events(c, s, steps);
            var d := Abs(c, After(c, s, steps)).durable;
            d == before || (SomeEnded(events) && d == Overlay(events, before))
  {
    RunRefines(c, s, steps);
    OneCallTx(Events(c, s, steps), Abs(c, s));
  }

  // ---- What group commit promises at every point of every run ----------------------

  /** Isolation: commit runs only between calls; neither panic of end_op nor the "outside
      of trans" panic of log_write can be reached; a held buffer reads as the current
      version; the header lists distinct blocks and space is reserved for every call. */
  lemma {:induction false} Isolation(c: Config, s: State, steps: seq<Step>)
    requires c.Valid() && c.Roomy() && Init(c, s) && Runs(c, s, steps)
    ensures var t := After(c, s, steps);
            && Inv(c, t)
            && (t.committing ==> t.ops == map[])
            && (forall p | p in t.ops :: !t.committing && t.outstanding >= 1)
            && (forall p, b | Booted(t) && Holds(t, p, b) ::
                  b in Abs(c, t).current && t.cache[b].data == Abs(c, t).current[b])
            && NoDup(t.lh) && |t.lh| <= c.L.size - 1
            && |t.lh| + Unspent(t.ops, MAXOPBLOCKS) <= LOGSIZE
  {
    InitInv(c, s);
    RunRefines(c, s, steps);
    IsolationAt(c, After(c, s, steps));
  }

  lemma {:induction false} IsolationAt(c: Config, t: State)
    requires c.Valid() && Inv(c, t)
    ensures t.committing ==> t.ops == map[]
    ensures forall p | p in t.ops :: !t.committing && t.outstanding >= 1
    ensures forall p, b | Booted(t) && Holds(t, p, b) ::
              b in Abs(c, t).current && t.cache[b].data == Abs(c, t).current[b]
  {
    hide HeadBlocks, HeadN, Word, InstallN, Unspent, PhaseInv, DurableHome;
    forall p | p in t.ops ensures t.outstanding >= 1 {
      assert t.ops.Keys != {};
    }
  }

  /** A write of the log's own blocks, or an install of the next block the header names. */
  ghost predicate InstallsNext(c: Config, s: State, t: State)
    requires c.Valid() && |s.disk| == |t.disk| == c.L.disksize
  {
    Home(c.L, t.disk) != Home(c.L, s.disk) ==>
      && (s.phase.Installing? || s.phase.Reinstalling?)
      && HeadN(s.disk[c.L.start]) < WORDS && HeadBlocks(s.disk[c.L.start]) == s.lh
      && s.phase.i < |s.lh| < c.L.size
      && Home(c.L, t.disk) == Home(c.L, s.disk)[s.lh[s.phase.i] := s.disk[c.L.start + 1 + s.phase.i]]
  }

  ghost predicate WritesInOrder(c: Config, t: State, a: Step)
    requires c.Valid() && Enabled(c, t, a)
  {
    |t.disk| == |Do(c, t, a).disk| == c.L.disksize && InstallsNext(c, t, Do(c, t, a))
  }

  lemma {:induction false} InstallWritesHome(c: Config, s: State, a: Step)
    requires c.Valid() && Inv(c, s) && Enabled(c, s, a) && (a.Commit? || a.Recover?)
    requires (s.phase.Installing? || s.phase.Reinstalling?) && s.phase.i < |s.lh|
    ensures InstallsNext(c, s, Do(c, s, a))
  {
    hide HeadBlocks, HeadN, Word, InstallN, Unspent, HeadBlock, PhaseInv, OpsInv, CacheInv;
    InLog(c, s, s.phase.i);
    LogBlockIsClean(c, s, c.L.start + 1 + s.phase.i);
    HeaderMatches(c, s);
  }

  lemma {:induction false} LogWritesSpareHome(c: Config, s: State, a: Step)
    requires c.Valid() && Inv(c, s) && Enabled(c, s, a) && (a.Commit? || a.Recover?)
    requires !((s.phase.Installing? || s.phase.Reinstalling?) && s.phase.i < |s.lh|)
    ensures Home(c.L, Do(c, s, a).disk) == Home(c.L, s.disk)
  {
    hide HeadBlocks, HeadN, Word, InstallN, Unspent, HeadBlock, PhaseInv, OpsInv, CacheInv;
    assert !c.L.IsHome(c.L.start);
    if s.phase.Logging? && s.phase.i < |s.lh| {
      InLog(c, s, s.phase.i);
    }
  }

  /** No home block on disk changes before the header write of its transaction: only the
      installs that follow a header on disk write home blocks, each with the block the
      header's log entry holds. */
  lemma {:induction false} HomeWritesFollowHeader(c: Config, s: State, a: Step)
    requires c.Valid() && Inv(c, s) && Enabled(c, s, a)
    ensures WritesInOrder(c, s, a)
  {
    hide Inv, Do, Enabled, Home, HeadBlocks;
    DiskSize(c, s, a);
    if a.Commit? || a.Recover? {
      if (s.phase.Installing? || s.phase.Reinstalling?) && s.phase.i < |s.lh| {
        InstallWritesHome(c, s, a);
      } else {
        LogWritesSpareHome(c, s, a);
      }
    } else {
      CallsSpareDisk(c, s, a);
    }
  }

  lemma {:induction false} DiskSize(c: Config, s: State, a: Step)
    requires c.Valid() && Inv(c, s) && Enabled(c, s, a)
    ensures |s.disk| == |Do(c, s, a).disk| == c.L.disksize
  {
    assert |s.disk| == c.L.disksize by { InvWf(c, s); }
    hide Inv, CommitEnabled, RecoverEnabled, DoCommit, DoRecover;
    if a.Commit? {
      CommitSize(c, s);
    } else if a.Recover? {
      RecoverSize(c, s);
    } else {
      CallsSpareDisk(c, s, a);
    }
  }

  lemma {:induction false} CommitSize(c: Config, s: State)
    requires c.Valid() && CommitEnabled(c, s)
    ensures |DoCommit(c, s).disk| == |s.disk|
  {
    hide HeadBlock, View;
  }

  lemma {:induction false} RecoverSize(c: Config, s: State)
    requires c.Valid() && RecoverEnabled(c, s)
    ensures |DoRecover(c, s).disk| == |s.disk|
  {
    hide HeadBlock, HeadBlocks, HeadN, View;
  }

  lemma {:induction false} CallsSpareDisk(c: Config, s: State, a: Step)
    requires c.Valid() && Enabled(c, s, a) && !a.Commit? && !a.Recover?
    ensures Do(c, s, a).disk == s.disk
  {
    hide CommitEnabled, RecoverEnabled, DoCommit, DoRecover;
  }

  lemma {:induction false} HeaderMatches(c: Config, s: State)
    requires c.Valid() && Inv(c, s) && (s.phase.Installing? || s.phase.Reinstalling?)
    ensures HeadBlocks(s.disk[c.L.start]) == s.lh
  {
  }

  lemma {:induction false} RecoveryGoesOn(c: Config, s: State)
    requires c.Valid() && Inv(c, s) && !Booted(s)
    ensures RecoverEnabled(c, s)
  {
    hide HeadBlocks, HeadN, Word, InstallN, Unspent, CacheInv, PastInv;
    if s.phase.Reinstalling? && s.phase.i < |s.lh| {
      InLog(c, s, s.phase.i);
    }
  }

  lemma {:induction false} CommitGoesOn(c: Config, s: State)
    requires c.Valid() && Inv(c, s) && s.committing && forall i | 0 <= i < |s.lh| :: Free(s, s.lh[i])
    ensures CommitEnabled(c, s)
  {
    hide HeadBlocks, HeadN, Word, InstallN, Unspent, CacheInv, PastInv;
    if !s.phase.Erased? && s.phase.i < |s.lh| {
      InLog(c, s, s.phase.i);
    }
  }

  lemma {:induction false} AppendGoesOn(c: Config, s: State)
    requires c.Valid() && Inv(c, s)
    ensures forall p | p in s.past :: Enabled(c, s, LogAppend(p))
  {
    hide DiskInv, CacheInv, OpsInv, PhaseInv, CommitEnabled, RecoverEnabled;
  }

  /** Recovery can always take its next step, a call past log_write's test can go on, and commit
      can unless a reader holds the buffer it needs. */
  lemma {:induction false} NeverStuck(c: Config, s: State)
    requires c.Valid() && Inv(c, s)
    ensures !Booted(s) ==> Enabled(c, s, Recover)
    ensures forall p | p in s.past :: Enabled(c, s, LogAppend(p))
    ensures s.committing && (forall i | 0 <= i < |s.lh| :: Free(s, s.lh[i])) ==> Enabled(c, s, Commit)
  {
    if !Booted(s) {
      RecoveryGoesOn(c, s);
    }
    if s.committing && (forall i | 0 <= i < |s.lh| :: Free(s, s.lh[i])) {
      CommitGoesOn(c, s);
    }
    AppendGoesOn(c, s);
    hide Inv, CommitEnabled, RecoverEnabled;
  }
}
