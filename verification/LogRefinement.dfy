/** What the log is for. Seen from outside, the buffers, the header and the disk behave
    as two versions of the home blocks: the current one, which calls read and write, and
    the durable one, which a power failure falls back to. The durable version is replaced
    only by a whole current version, and only while no call is under way. */
module LogRefinement {
  import opened Blocks
  import opened LogDisk
  import opened LogDevice
  import opened LogSystem
  import opened LogInvariant

  datatype Tx = Tx(durable: map<nat, Block>, current: map<nat, Block>, active: set<Pid>)

  datatype Event =
    | Skip
    | Begun(p: Pid)
    | Ended(p: Pid)
    | Wrote(p: Pid, b: nat, data: Block)
    | Committed
    | Crashed

  predicate Allowed(e: Event, x: Tx) {
    match e
    case Begun(p) => p !in x.active
    case Ended(p) => p in x.active
    case Wrote(p, b, _) => p in x.active && b in x.current
    case Committed => x.active == {}
    case _ => true
  }

  function Apply(e: Event, x: Tx): Tx {
    match e
    case Skip => x
    case Begun(p) => x.(active := x.active + {p})
    case Ended(p) => x.(active := x.active - {p})
    case Wrote(_, b, data) => x.(current := x.current[b := data])
    case Committed => x.(durable := x.current)
    case Crashed => x.(current := x.durable, active := {})
  }

  ghost function Abs(c: Config, s: State): Tx
    requires c.Valid() && c.L.Wf(s.disk)
  {
    var durable := DurableHome(c.L, s.disk);
    Tx(durable, if Booted(s) then Home(c.L, ViewDisk(s)) else durable, s.ops.Keys)
  }

  /** Only the header write that ends write_log is a commit. */
  function EventOf(s: State, step: Step): Event {
    match step
    case Begin(p) => Begun(p)
    case End(p) => Ended(p)
    case Modify(p, b, data) => Wrote(p, b, data)
    case Commit => if s.phase == Logging(|s.lh|) then Committed else Skip
    case Crash => Crashed
    case _ => Skip
  }

  // ---- One step ---------------------------------------------------------------

  /** The abstraction reads the disk only through what is durable and what readers see. */
  lemma {:induction false} SameAbs(c: Config, s: State, t: State)
    requires c.Valid() && c.L.Wf(s.disk) && c.L.Wf(t.disk) && Booted(s) == Booted(t)
    requires DurableHome(c.L, t.disk) == DurableHome(c.L, s.disk)
    requires Home(c.L, ViewDisk(t)) == Home(c.L, ViewDisk(s))
    ensures Abs(c, t) == Abs(c, s).(active := t.ops.Keys)
  {
  }

  lemma {:induction false} SameViewHome(L: Layout, s: State, t: State)
    requires L.Valid() && |s.disk| == |t.disk| == L.disksize
    requires forall b: nat | b < L.disksize :: View(t, b) == View(s, b)
    ensures Home(L, ViewDisk(t)) == Home(L, ViewDisk(s))
  {
  }

  /** Steps of the calls, other than writing to a buffer, change nothing readers see. */
  lemma {:induction false} CallKeepsView(c: Config, s: State, step: Step)
    requires c.Valid() && CacheInv(c, s) && Enabled(c, s, step)
    requires step.Begin? || step.Bread? || step.LogTest? || step.LogAppend? || step.Brelse? || step.Evict? || step.End?
    requires step.End? ==> s.phase == Running
    ensures var t := Do(c, s, step);
            && t.disk == s.disk && Booted(t) == Booted(s)
            && t.ops.Keys == Apply(EventOf(s, step), Tx(map[], map[], s.ops.Keys)).active
            && forall b: nat | b < c.L.disksize :: View(t, b) == View(s, b)
  {
    hide CommitEnabled, RecoverEnabled, DoCommit, DoRecover;
    if step.Evict? {
      EvictKeepsCache(c, s, step.b);
    }
  }

  lemma {:induction false} CallRefines(c: Config, s: State, step: Step)
    requires c.Valid() && (c.Roomy() || !step.LogAppend?) && Inv(c, s) && Enabled(c, s, step)
    requires step.Begin? || step.Bread? || step.LogTest? || step.LogAppend? || step.Brelse? || step.Evict? || step.End?
    ensures Inv(c, Do(c, s, step))
    ensures Allowed(EventOf(s, step), Abs(c, s))
    ensures Abs(c, Do(c, s, step)) == Apply(EventOf(s, step), Abs(c, s))
  {
    hide HeadBlocks, HeadN, Word, InstallN, Unspent, PhaseInv, CacheInv, Do, DurableHome, ViewDisk, Home;
    var t := Do(c, s, step);
    CallKeepsInv(c, s, step);
    CallKeepsView(c, s, step);
    SameViewHome(c.L, s, t);
    SameAbs(c, s, t);
  }

  lemma {:induction false} CallKeepsInv(c: Config, s: State, step: Step)
    requires c.Valid() && (c.Roomy() || !step.LogAppend?) && Inv(c, s) && Enabled(c, s, step)
    requires step.Begin? || step.Bread? || step.LogTest? || step.LogAppend? || step.Brelse? || step.Evict? || step.End?
    ensures Inv(c, Do(c, s, step))
  {
    hide Inv;
    match step
    case Begin(p) => BeginKeepsInv(c, s, p);
    case Bread(p, b) => BreadKeepsInv(c, s, p, b);
    case LogTest(p, b) => LogTestKeepsInv(c, s, p, b);
    case LogAppend(p) => LogAppendKeepsInv(c, s, p);
    case Brelse(p, b) => BrelseKeepsInv(c, s, p, b);
    case Evict(b) => EvictKeepsInv(c, s, b);
    case End(p) => EndKeepsInv(c, s, p);
  }

  lemma {:induction false} ModifyRefines(c: Config, s: State, p: Pid, b: nat, data: Block)
    requires c.Valid() && Inv(c, s) && Enabled(c, s, Modify(p, b, data))
    ensures Inv(c, Do(c, s, Modify(p, b, data)))
    ensures Allowed(Wrote(p, b, data), Abs(c, s))
    ensures Abs(c, Do(c, s, Modify(p, b, data))) == Apply(Wrote(p, b, data), Abs(c, s))
  {
    hide HeadBlocks, HeadN, Word, InstallN, Unspent, PhaseInv, CacheInv, DurableHome;
    var t := PutBuf(s, b, s.cache[b].(data := data, touched := true));
    ModifyKeepsInv(c, s, p, b, data);
    ModifyView(c.L, s, b, s.cache[b].(data := data, touched := true));
  }

  lemma {:induction false} ModifyView(L: Layout, s: State, b: nat, buf: Buf)
    requires L.Valid() && |s.disk| == L.disksize && L.IsHome(b)
    ensures b in Home(L, ViewDisk(s))
    ensures Home(L, ViewDisk(PutBuf(s, b, buf))) == Home(L, ViewDisk(s))[b := buf.data]
  {
  }

  /** What the proofs below need of the invariant. */
  lemma {:induction false} Quiet(c: Config, s: State)
    requires c.Valid() && Inv(c, s) && s.phase != Running
    ensures s.ops == map[] && WellSized(c, s) && c.L.Entries(s.lh) && DiskInv(c, s)
    ensures s.phase.Logging? ==> HeadBlocks(s.disk[c.L.start]) == []
    ensures s.phase.Installing? ==> HeadBlocks(s.disk[c.L.start]) == s.lh && Saved(c.L, s, |s.lh|)
  {
    hide HeadBlocks, HeadN, Word, InstallN, Unspent, CacheInv, PastInv;
  }

  lemma {:induction false} LoggingRefines(c: Config, s: State, i: nat)
    requires c.Valid() && Inv(c, s) && Enabled(c, s, Commit) && s.phase == Logging(i)
    ensures Inv(c, DoCommit(c, s))
    ensures Allowed(EventOf(s, Commit), Abs(c, s))
    ensures Abs(c, DoCommit(c, s)) == Apply(EventOf(s, Commit), Abs(c, s))
  {
    hide HeadBlocks, HeadN, Word, InstallN, Inv, HeadBlock, DurableHome, ViewDisk, Home;
    Quiet(c, s);
    if i < |s.lh| {
      LogBlockKeepsInv(c, s, i);
      LogBlockKeepsHome(c, s, i);
    } else {
      HeadWriteKeepsInv(c, s);
      HeadWriteCommits(c, s);
    }
  }

  lemma {:induction false} InstallingRefines(c: Config, s: State, i: nat)
    requires c.Valid() && Inv(c, s) && Enabled(c, s, Commit) && s.phase == Installing(i)
    ensures Inv(c, DoCommit(c, s))
    ensures Abs(c, DoCommit(c, s)) == Abs(c, s)
  {
    hide HeadBlocks, HeadN, Word, InstallN, Inv, HeadBlock, DurableHome, ViewDisk, Home, Saved;
    Quiet(c, s);
    if i < |s.lh| {
      LogBlockIsClean(c, s, c.L.start + 1 + i);
      InstallKeepsInv(c, s, i);
      InstallKeepsHome(c, s, i);
    } else {
      EraseKeepsInv(c, s);
      EraseKeepsHome(c, s);
    }
  }

  lemma {:induction false} CommitRefines(c: Config, s: State)
    requires c.Valid() && Inv(c, s) && Enabled(c, s, Commit)
    ensures Inv(c, Do(c, s, Commit))
    ensures Allowed(EventOf(s, Commit), Abs(c, s))
    ensures Abs(c, Do(c, s, Commit)) == Apply(EventOf(s, Commit), Abs(c, s))
  {
    hide HeadBlocks, HeadN, Word, InstallN, Unspent, Inv, DurableHome, ViewDisk, Home;
    match s.phase
    case Logging(i) => LoggingRefines(c, s, i);
    case Installing(i) => InstallingRefines(c, s, i);
    case Erased => ErasedRefines(c, s);
  }

  lemma {:induction false} ErasedRefines(c: Config, s: State)
    requires c.Valid() && Inv(c, s) && s.phase == Erased
    ensures Inv(c, s.(committing := false, phase := Running))
    ensures Abs(c, s.(committing := false, phase := Running)) == Abs(c, s)
  {
    FinishKeepsInv(c, s);
    SameViewHome(c.L, s, s.(committing := false, phase := Running));
  }

  lemma {:induction false} RecoverRefines(c: Config, s: State)
    requires c.Valid() && Inv(c, s) && Enabled(c, s, Recover)
    ensures Inv(c, Do(c, s, Recover))
    ensures Abs(c, Do(c, s, Recover)) == Abs(c, s)
  {
    hide HeadBlocks, HeadN, Word, InstallN, Inv, HeadBlock, DurableHome, ViewDisk, Home;
    Quiet(c, s);
    match s.phase
    case Booting =>
      assert View(s, c.L.start) == s.disk[c.L.start] by { LogBlockIsClean(c, s, c.L.start); }
      ReadHeadKeepsInv(c, s);
    case Reinstalling(i) =>
      if i < |s.lh| {
        LogBlockIsClean(c, s, c.L.start + 1 + i);
        ReinstallKeepsInv(c, s, i);
      } else {
        FinishRecoveryRefines(c, s);
      }
  }

  lemma {:induction false} FinishRecoveryRefines(c: Config, s: State)
    requires c.Valid() && Inv(c, s) && s.phase == Reinstalling(|s.lh|)
    ensures var t := WriteHead(c, s, [], Running); Inv(c, t) && Abs(c, t) == Abs(c, s)
  {
    hide HeadBlocks, HeadN, Word, InstallN, Unspent, CacheInv, HeadBlock, DurableHome, ViewDisk, Home;
    FinishRecoveryKeepsInv(c, s);
    QuietIsDurable(c, WriteHead(c, s, [], Running));
  }

  lemma {:induction false} CrashRefines(c: Config, s: State)
    requires c.Valid() && Inv(c, s)
    ensures Inv(c, Do(c, s, Crash))
    ensures Abs(c, Do(c, s, Crash)) == Apply(Crashed, Abs(c, s))
  {
    hide HeadBlocks, HeadN, Word, InstallN, Unspent, CacheInv, DurableHome, ViewDisk, Home;
    CrashKeepsInv(c, s);
  }

  /** Every step of the system is one step, or no step, of the two-version disk. Only listing a
      block needs the log to be roomy. */
  lemma {:induction false} StepRefines(c: Config, s: State, step: Step)
    requires c.Valid() && (c.Roomy() || !step.LogAppend?) && Inv(c, s) && Enabled(c, s, step)
    ensures Inv(c, Do(c, s, step))
    ensures Allowed(EventOf(s, step), Abs(c, s))
    ensures Abs(c, Do(c, s, step)) == Apply(EventOf(s, step), Abs(c, s))
  {
    hide Inv, Abs, Enabled, Do;
    match step
    case Modify(p, b, data) => ModifyRefines(c, s, p, b, data);
    case Commit => CommitRefines(c, s);
    case Recover => RecoverRefines(c, s);
    case Crash => CrashRefines(c, s);
    case _ => CallRefines(c, s, step);
  }
}
