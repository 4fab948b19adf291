/** The commit of the transition system is the commit of the code: however readers and evictions
    come in between, it takes the disk through exactly the writes log.c makes, in order. */
module LogTrace {
  import opened Blocks
  import opened LogDisk
  import opened LogDevice
  import opened LogSystem
  import opened LogInvariant
  import opened LogRefinement
  import opened LogRuns

  /** What a commit starts from: the disk, what readers see, and the blocks to write. */
  datatype Start = Start(d: Disk, view: Disk, blocks: seq<nat>)

  ghost predicate Proper(c: Config, o: Start)
    requires c.Valid()
  {
    c.L.Entries(o.blocks) && |o.d| == |o.view| == c.L.disksize
  }

  /** How many of commit's disk writes are done. */
  function Writes(s: State, n: nat): nat {
    match s.phase case Logging(i) => i case Installing(i) => n + 1 + i case _ => 2 * n + 2
  }

  ghost predicate OnTrack(c: Config, o: Start, s: State)
    requires c.Valid() && Proper(c, o)
  {
    && (s.phase.Logging? || s.phase.Installing? ==> s.lh == o.blocks && s.phase.i <= |s.lh|)
    && (s.phase.Logging? ==>
          |s.disk| == c.L.disksize && forall b | b in o.blocks :: b < |s.disk| && View(s, b) == o.view[b])
    && Writes(s, |o.blocks|) <= 2 * |o.blocks| + 2
    && s.disk == CommitDisk(c.L, o.d, o.view, o.blocks, Writes(s, |o.blocks|))
  }

  lemma {:induction false} NoCalls(c: Config, s: State)
    requires c.Valid() && Inv(c, s) && s.committing
    ensures s.ops == map[] && Booted(s) && forall b | b in s.cache :: b < |s.disk|
    ensures s.phase.Logging? ==> forall b | b in s.lh :: b in s.cache && s.cache[b].dirty
  {
    hide PhaseInv, DiskInv, Unspent;
    if s.phase.Logging? {
      forall b | b in s.lh ensures b in s.cache && s.cache[b].dirty {
        assert b in Pinned(s);
      }
    }
  }

  lemma {:induction false} NoAppends(c: Config, s: State, a: Step)
    requires c.Valid() && Inv(c, s) && s.committing && Enabled(c, s, a)
    ensures !a.LogAppend?
  {
    NoCalls(c, s);
  }

  lemma {:induction false} PutOnTrack(c: Config, o: Start, s: State, b: nat, buf: Buf)
    requires c.Valid() && Proper(c, o) && OnTrack(c, o, s) && b < |s.disk| && buf.data == View(s, b)
    ensures OnTrack(c, o, PutBuf(s, b, buf))
  {
    hide CommitDisk;
  }

  lemma {:induction false} EvictOnTrack(c: Config, o: Start, s: State, b: nat)
    requires c.Valid() && Proper(c, o) && OnTrack(c, o, s) && (s.phase.Logging? ==> b !in o.blocks)
    ensures OnTrack(c, o, s.(cache := s.cache - {b}))
  {
    hide CommitDisk;
  }

  /** Without a call under way nothing changes what readers see of the logged blocks. */
  lemma {:induction false} BystanderStep(c: Config, o: Start, s: State, a: Step)
    requires c.Valid() && Inv(c, s) && Enabled(c, s, a) && s.committing && !a.Crash? && !a.Commit?
    requires Proper(c, o) && OnTrack(c, o, s)
    ensures OnTrack(c, o, Do(c, s, a))
  {
    NoCalls(c, s);
    match a
    case Bread(p, b) => PutOnTrack(c, o, s, b, Do(c, s, a).cache[b]);
    case Brelse(p, b) => PutOnTrack(c, o, s, b, Do(c, s, a).cache[b]);
    case Evict(b) => EvictOnTrack(c, o, s, b);
    case _ =>
  }

  lemma {:induction false} LoggingStep(c: Config, o: Start, s: State)
    requires c.Valid() && Inv(c, s) && CommitEnabled(c, s) && s.phase.Logging? && s.phase.i < |s.lh|
    requires Proper(c, o) && OnTrack(c, o, s)
    ensures OnTrack(c, o, DoCommit(c, s))
  {
    hide HeadBlock, Inv, InstallN, HeadWritten;
    var i, n := s.phase.i, |s.lh|;
    LogBlockIsClean(c, s, c.L.start + 1 + i);
    assert s.lh[i] in o.blocks;
    forall b | b in o.blocks ensures View(DoCommit(c, s), b) == View(s, b) {
    }
  }

  lemma {:induction false} HeadStep(c: Config, o: Start, s: State)
    requires c.Valid() && Inv(c, s) && CommitEnabled(c, s) && s.phase.Logging? && s.phase.i == |s.lh|
    requires Proper(c, o) && OnTrack(c, o, s)
    ensures OnTrack(c, o, DoCommit(c, s))
  {
    hide HeadBlock, Inv, InstallN, LogN;
    LogBlockIsClean(c, s, c.L.start);
    LogAt(c.L, o.d, o.view, o.blocks, |s.lh|, c.L.start);
    InstallNone(c.L, HeadWritten(c.L, o.d, o.view, o.blocks), o.blocks);
  }

  lemma {:induction false} InstallNone(L: Layout, d: Disk, blocks: seq<nat>)
    requires L.Valid() && L.Entries(blocks) && |d| == L.disksize
    ensures InstallN(L, d, blocks, 0) == d
  {
  }

  lemma {:induction false} InstallingStep(c: Config, o: Start, s: State)
    requires c.Valid() && Inv(c, s) && CommitEnabled(c, s) && s.phase.Installing? && s.phase.i < |s.lh|
    requires Proper(c, o) && OnTrack(c, o, s)
    ensures OnTrack(c, o, DoCommit(c, s))
  {
    hide HeadBlock, Inv, LogN, HeadWritten;
    LogBlockIsClean(c, s, c.L.start + 1 + s.phase.i);
  }

  lemma {:induction false} EraseStep(c: Config, o: Start, s: State)
    requires c.Valid() && Inv(c, s) && CommitEnabled(c, s) && s.phase.Installing? && s.phase.i == |s.lh|
    requires Proper(c, o) && OnTrack(c, o, s)
    ensures OnTrack(c, o, DoCommit(c, s))
  {
    hide HeadBlock, Inv, LogN, HeadWritten, InstallN;
    LogBlockIsClean(c, s, c.L.start);
    InstallAt(c.L, HeadWritten(c.L, o.d, o.view, o.blocks), o.blocks, |s.lh|, c.L.start);
    assert !c.L.IsHome(c.L.start);
  }

  lemma {:induction false} TrackStep(c: Config, o: Start, s: State, a: Step)
    requires c.Valid() && Inv(c, s) && Enabled(c, s, a) && s.committing && !a.Crash?
    requires Proper(c, o) && OnTrack(c, o, s)
    ensures Do(c, s, a).committing ==> OnTrack(c, o, Do(c, s, a))
  {
    hide OnTrack, Inv;
    if !a.Commit? {
      BystanderStep(c, o, s, a);
    } else if s.phase.Logging? {
      if s.phase.i < |s.lh| {
        LoggingStep(c, o, s);
      } else {
        HeadStep(c, o, s);
      }
    } else if s.phase.Installing? {
      if s.phase.i < |s.lh| {
        InstallingStep(c, o, s);
      } else {
        EraseStep(c, o, s);
      }
    }
  }

  /** The whole run up to here is part of one commit. */
  ghost predicate Committing(c: Config, s: State, steps: seq<Step>)
    requires c.Valid() && Runs(c, s, steps)
    decreases |steps|
  {
    s.committing && (steps == [] || (!steps[0].Crash? && Committing(c, Do(c, s, steps[0]), steps[1..])))
  }

  /** From the moment end_op starts a commit, and for as long as it lasts, the disk is the one
      that many of log.c's writes leave. */
  lemma {:induction false} CommitTrace(c: Config, s: State, steps: seq<Step>, o: Start)
    requires c.Valid() && Inv(c, s) && Runs(c, s, steps) && Committing(c, s, steps)
    requires Proper(c, o) && OnTrack(c, o, s)
    ensures OnTrack(c, o, After(c, s, steps))
    decreases |steps|
  {
    hide OnTrack, Inv, Enabled, Do;
    if steps != [] {
      NoAppends(c, s, steps[0]);
      StepRefines(c, s, steps[0]);
      TrackStep(c, o, s, steps[0]);
      CommitTrace(c, Do(c, s, steps[0]), steps[1..], o);
    }
  }

  lemma {:induction false} CommitStarts(c: Config, s: State)
    requires c.Valid() && Inv(c, s) && s.phase == Logging(0)
    ensures var o := Start(s.disk, ViewDisk(s), s.lh); Proper(c, o) && OnTrack(c, o, s) && Writes(s, |s.lh|) == 0
  {
    hide HeadBlocks, HeadN, Word, Unspent, Saved, Copied;
  }

  /** So a crash during a commit, at any point of any interleaving, finds one of the disks that
      the crash theorem is about. */
  lemma {:induction false} CommitAsInCode(c: Config, s: State, steps: seq<Step>)
    requires c.Valid() && Inv(c, s) && s.phase == Logging(0) && Runs(c, s, steps) && Committing(c, s, steps)
    ensures c.L.Entries(s.lh) && |s.disk| == |ViewDisk(s)| == c.L.disksize
    ensures var k := Writes(After(c, s, steps), |s.lh|);
            k <= 2 * |s.lh| + 2 && After(c, s, steps).disk == CommitDisk(c.L, s.disk, ViewDisk(s), s.lh, k)
  {
    hide Inv, Enabled, Do, CommitDisk;
    CommitStarts(c, s);
    CommitTrace(c, s, steps, Start(s.disk, ViewDisk(s), s.lh));
  }
}
