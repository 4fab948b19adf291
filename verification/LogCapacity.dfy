/** What log_write's size test is worth. It comes before absorption, so calls that stay within
    their budget can meet its panic with nothing new to list; and it comes before the lock, so
    two calls can pass it together and list more blocks than the log has room for, which
    write_log then stores over home blocks. When each of these happens is proved exactly. */
module LogCapacity {
  import opened Blocks
  import opened LogDisk
  import opened LogDevice
  import opened LogSystem
  import opened LogInvariant
  import opened LogRuns

  ghost predicate Reaches(c: Config, s: State, t: State)
    requires c.Valid()
  {
    exists steps :: Runs(c, s, steps) && After(c, s, steps) == t
  }

  /** Some run from a consistent disk, every call within its budget, reaches the panic. */
  ghost predicate CanPanic(c: Config)
    requires c.Valid()
  {
    exists s, t, p, b :: Init(c, s) && Reaches(c, s, t) && PanicsAt(c, t, p, b)
  }

  ghost predicate PanicsAt(c: Config, t: State, p: Pid, b: nat)
    requires c.Valid()
  {
    Holds(t, p, b) && MayLog(c, t, p, b) && Full(|t.lh|, c.L.size)
  }

  // ---- No panic below the bound ----------------------------------------------------

  lemma {:induction false} RoomBelowBound(c: Config, t: State, p: Pid)
    requires c.Valid() && Inv(c, t) && p in t.ops && MAXOPBLOCKS + 2 * c.budget < c.L.Capacity()
    ensures !Full(|t.lh|, c.L.size)
  {
    UnspentNonneg(t.ops, c.budget);
  }

  // ---- A run to the panic, at or above it ------------------------------------------

  lemma {:induction false} RunsAppend(c: Config, s: State, steps: seq<Step>, step: Step)
    requires c.Valid() && Runs(c, s, steps) && Enabled(c, After(c, s, steps), step)
    ensures Runs(c, s, steps + [step])
    ensures After(c, s, steps + [step]) == Do(c, After(c, s, steps), step)
    decreases |steps|
  {
    hide Enabled, Do;
    if steps == [] {
      assert ([] + [step])[1..] == [];
    } else {
      RunsAppend(c, Do(c, s, steps[0]), steps[1..], step);
      assert (steps + [step])[1..] == steps[1..] + [step];
    }
  }

  lemma {:induction false} Reach(c: Config, s: State, t: State, step: Step)
    requires c.Valid() && Reaches(c, s, t) && Enabled(c, t, step)
    ensures Reaches(c, s, Do(c, t, step))
  {
    var steps :| Runs(c, s, steps) && After(c, s, steps) == t;
    RunsAppend(c, s, steps, step);
  }

  /** Distinct blocks outside the log. */
  ghost predicate Homes(c: Config, hs: seq<nat>) {
    NoDup(hs) && forall i | 0 <= i < |hs| :: c.L.IsHome(hs[i])
  }

  /** Between calls' steps: booted, nobody holding a buffer. */
  ghost predicate Idle(c: Config, t: State)
    requires c.Valid()
  {
    && t.phase == Running && !t.committing && |t.disk| == c.L.disksize && t.past == map[]
    && forall b | b in t.cache :: t.cache[b].holder == Nobody && !t.cache[b].touched
  }

  /** Call `p` reads a new block, logs it and lets it go. */
  lemma {:induction false} LogOne(c: Config, s: State, t: State, p: Pid, b: nat) returns (u: State)
    requires c.Valid() && Reaches(c, s, t) && Idle(c, t)
    requires p in t.ops && c.L.IsHome(b) && b !in t.lh && |t.ops[p] + {b}| <= c.budget
    requires !Full(|t.lh|, c.L.size)
    ensures Reaches(c, s, u) && Idle(c, u)
    ensures u.lh == t.lh + [b] && u.ops == t.ops[p := t.ops[p] + {b}] && u.outstanding == t.outstanding
  {
    hide Runs, After, CommitEnabled, RecoverEnabled, DoCommit, DoRecover, Reaches;
    Reach(c, s, t, Bread(p, b));
    var t1 := Do(c, t, Bread(p, b));
    Reach(c, s, t1, LogTest(p, b));
    var t2 := Do(c, t1, LogTest(p, b));
    Reach(c, s, t2, LogAppend(p));
    var t3 := Do(c, t2, LogAppend(p));
    assert t3.past == map[];
    Reach(c, s, t3, Brelse(p, b));
    u := Do(c, t3, Brelse(p, b));
  }

  lemma {:induction false} BeginOne(c: Config, s: State, t: State, p: Pid) returns (u: State)
    requires c.Valid() && Reaches(c, s, t) && Idle(c, t)
    requires p !in t.ops && |t.lh| + (t.outstanding + 1) * MAXOPBLOCKS <= LOGSIZE
    ensures Reaches(c, s, u) && Idle(c, u)
    ensures u.lh == t.lh && u.ops == t.ops[p := {}] && u.outstanding == t.outstanding + 1
  {
    hide Runs, After, CommitEnabled, RecoverEnabled, DoCommit, DoRecover;
    Reach(c, s, t, Begin(p));
    u := Do(c, t, Begin(p));
  }

  lemma {:induction false} EndOne(c: Config, s: State, t: State, p: Pid) returns (u: State)
    requires c.Valid() && Reaches(c, s, t) && Idle(c, t) && p in t.ops && t.outstanding > 1
    ensures Reaches(c, s, u) && Idle(c, u)
    ensures u.lh == t.lh && u.ops == t.ops - {p} && u.outstanding == t.outstanding - 1
  {
    hide Runs, After, CommitEnabled, RecoverEnabled, DoCommit, DoRecover;
    Reach(c, s, t, End(p));
    u := Do(c, t, End(p));
  }

  /** With call 0 idle in its transaction, calls that log one block each fill the header
      up to `n` entries, one reservation's worth at most. */
  lemma {:induction false} FillByShortCalls(c: Config, s: State, t: State, hs: seq<nat>, n: nat) returns (u: State)
    requires c.Valid() && Reaches(c, s, t) && Idle(c, t) && t.ops == map[0 := {}] && t.outstanding == 1 && t.lh == []
    requires Homes(c, hs) && n <= |hs| && n <= c.L.Capacity() && n <= MAXOPBLOCKS
    ensures Reaches(c, s, u) && Idle(c, u)
    ensures u.lh == hs[..n] && u.ops == map[0 := {}] && u.outstanding == 1
    decreases n
  {
    if n == 0 {
      u := t;
    } else {
      u := FillByShortCalls(c, s, t, hs, n - 1);
      u := BeginOne(c, s, u, 1);
      u := LogOne(c, s, u, 1, hs[n - 1]);
      u := EndOne(c, s, u, 1);
      assert hs[..n] == hs[..n - 1] + [hs[n - 1]];
      assert u.ops == map[0 := {}];
    }
  }

  lemma {:induction false} SetOfEmpty()
    ensures SetOf([]) == {}
  {
  }

  lemma {:induction false} SliceStep(hs: seq<nat>, k: nat, n: nat)
    requires NoDup(hs) && k < n <= |hs|
    ensures hs[n - 1] !in hs[..n - 1] && hs[n - 1] !in SetOf(hs[k..n - 1])
    ensures hs[..n] == hs[..n - 1] + [hs[n - 1]]
    ensures SetOf(hs[k..n]) == SetOf(hs[k..n - 1]) + {hs[n - 1]}
  {
    assert hs[k..n] == hs[k..n - 1] + [hs[n - 1]];
  }

  /** Call `p` logs the blocks `hs[k..n]`, one after the other. */
  lemma {:induction false} FillByCall(c: Config, s: State, t: State, hs: seq<nat>, p: Pid, k: nat, n: nat)
    returns (u: State)
    requires c.Valid() && Reaches(c, s, t) && Idle(c, t) && p in t.ops && t.ops[p] == {}
    requires Homes(c, hs) && k <= n <= |hs| && n <= c.L.Capacity() && t.lh == hs[..k]
    requires n - k <= c.budget
    ensures Reaches(c, s, u) && Idle(c, u)
    ensures u.lh == hs[..n] && u.ops == t.ops[p := SetOf(hs[k..n])] && u.outstanding == t.outstanding
    ensures |u.ops[p]| == n - k
    decreases n
  {
    hide Runs, After, Reaches, Idle, SetOf;
    if n == k {
      u := t;
      SetOfEmpty();
      assert hs[k..n] == [];
      assert t.ops[p := {}] == t.ops;
    } else {
      u := FillByCall(c, s, t, hs, p, k, n - 1);
      SliceStep(hs, k, n);
      u := LogOne(c, s, u, p, hs[n - 1]);
    }
  }

  /** A machine booted from an empty log, with call 0 begun. */
  lemma {:induction false} Boot(c: Config) returns (s: State, t: State)
    requires c.Valid()
    ensures Init(c, s) && Reaches(c, s, t) && Idle(c, t)
    ensures t.ops == map[0 := {}] && t.outstanding == 1 && t.lh == []
  {
    var disk: Disk := seq(c.L.disksize, _ => ZeroBlock());
    s := State(disk, map[], [], map[], map[], 0, false, Booting);
    WordOfZero(0);
    assert Runs(c, s, []) && After(c, s, []) == s;
    assert s.disk[c.L.start := View(s, c.L.start)] == s.disk;
    Reach(c, s, s, Recover);
    var s1 := Do(c, s, Recover);
    Reach(c, s, s1, Recover);
    var s2 := Do(c, s1, Recover);
    t := BeginOne(c, s, s2, 0);
  }

  lemma {:induction false} FillToCapacity(c: Config, hs: seq<nat>) returns (s: State, t: State)
    requires c.Valid() && Homes(c, hs) && |hs| == c.L.Capacity()
    requires c.L.Capacity() <= MAXOPBLOCKS + 2 * c.budget
    ensures Init(c, s) && Reaches(c, s, t) && Idle(c, t) && t.lh == hs && 0 in t.ops
    ensures t.ops[0] == {} || (hs != [] && hs[|hs| - 1] in t.ops[0] && |t.ops[0]| <= c.budget)
  {
    var cap := c.L.Capacity();
    s, t := Boot(c);
    var n := if cap < MAXOPBLOCKS then cap else MAXOPBLOCKS;
    t := FillByShortCalls(c, s, t, hs, n);
    if cap > n {
      t := BeginOne(c, s, t, 1);
      var m := if cap < n + c.budget then cap else n + c.budget;
      t := FillByCall(c, s, t, hs, 1, n, m);
      t := FillByCall(c, s, t, hs, 0, m, cap);
      if cap > m {
        assert hs[m..cap][cap - 1 - m] == hs[cap - 1];
      }
    }
    assert hs[..cap] == hs;
  }

  /** The panic is reachable exactly when two calls' budgets on top of one reservation
      reach the header's capacity. (`hs` only says the disk has that many home blocks.) */
  lemma {:induction false} PanicExactly(c: Config, hs: seq<nat>, home: nat)
    requires c.Valid() && Homes(c, hs) && |hs| == c.L.Capacity() && c.L.IsHome(home)
    ensures CanPanic(c) <==> c.L.Capacity() <= MAXOPBLOCKS + 2 * c.budget
  {
    if c.L.Capacity() <= MAXOPBLOCKS + 2 * c.budget {
      var s, t := FillToCapacity(c, hs);
      var b := if hs == [] then home else hs[|hs| - 1];
      if t.ops[0] != {} {
        assert t.ops[0] + {b} == t.ops[0];
      } else {
        assert t.ops[0] + {b} == {b};
      }
      ReachPanic(c, s, t, b);
    } else if CanPanic(c) {
      var s, t, p, b :| Init(c, s) && Reaches(c, s, t) && PanicsAt(c, t, p, b);
      var steps :| Runs(c, s, steps) && After(c, s, steps) == t;
      InitInv(c, s);
      RunRefines(c, s, steps);
      RoomBelowBound(c, t, p);
      assert false;
    }
  }

  lemma {:induction false} ReachPanic(c: Config, s: State, t: State, b: nat)
    requires c.Valid() && Init(c, s) && Reaches(c, s, t) && Idle(c, t) && 0 in t.ops
    requires c.L.IsHome(b) && |t.ops[0] + {b}| <= c.budget && |t.lh| == c.L.Capacity()
    ensures CanPanic(c)
  {
    hide Runs, After, CommitEnabled, RecoverEnabled, DoCommit, DoRecover;
    Reach(c, s, t, Bread(0, b));
    assert PanicsAt(c, Do(c, t, Bread(0, b)), 0, b);
  }

  /** On the log mkfs makes (LOGSIZE blocks, header included), and on any larger one, calls
      that log at most MAXOPBLOCKS - 1 distinct blocks never see the panic; calls that use
      all MAXOPBLOCKS can. */
  lemma {:induction false} PanicOnRealLog(c: Config, hs: seq<nat>, home: nat)
    requires c.Valid() && c.L.size >= LOGSIZE
    requires Homes(c, hs) && |hs| == c.L.Capacity() && c.L.IsHome(home)
    ensures CanPanic(c) <==> c.budget == MAXOPBLOCKS
  {
    PanicExactly(c, hs, home);
  }

  // ---- The race of the test and the lock --------------------------------------------

  /** Some run from a consistent disk, every call within its budget, lists more blocks than the
      log has room for. */
  ghost predicate CanOverflow(c: Config)
    requires c.Valid()
  {
    exists s, t :: Init(c, s) && Reaches(c, s, t) && |t.lh| > c.L.size - 1
  }

  /** Calls 0 and 1 are under way, each with budget left, two entries short of overflow. */
  lemma {:induction false} FillToTwoShort(c: Config, hs: seq<nat>) returns (s: State, t: State)
    requires c.Valid() && Homes(c, hs) && |hs| == c.L.size && 2 <= c.L.size <= MAXOPBLOCKS + 2 * c.budget
    ensures Init(c, s) && Reaches(c, s, t) && Idle(c, t) && t.lh == hs[..c.L.size - 2]
    ensures t.ops.Keys == {0, 1} && t.outstanding == 2 && |t.ops[0]| < c.budget && |t.ops[1]| < c.budget
  {
    hide Runs, After, Reaches, Idle, SetOf, Homes;
    var k := c.L.size - 2;
    s, t := Boot(c);
    var n := if k < MAXOPBLOCKS then k else MAXOPBLOCKS;
    t := FillByShortCalls(c, s, t, hs, n);
    t := BeginOne(c, s, t, 1);
    var m := if k < n + c.budget - 1 then k else n + c.budget - 1;
    t := FillByCall(c, s, t, hs, 1, n, m);
    t := FillByCall(c, s, t, hs, 0, m, k);
  }

  /** Calls 0 and 1 hold a new block each and have both passed the test. */
  ghost predicate BothPast(c: Config, t: State, b0: nat, b1: nat)
    requires c.Valid()
  {
    && t.phase == Running && !t.committing && |t.disk| == c.L.disksize && t.outstanding == 2
    && t.ops.Keys == {0, 1} && t.past == map[0 := b0, 1 := b1]
    && b0 != b1 && Holds(t, 0, b0) && Holds(t, 1, b1) && MayLog(c, t, 0, b0) && MayLog(c, t, 1, b1)
    && b0 !in t.lh && b1 !in t.lh
    && forall b | b in t.cache && b != b0 && b != b1 :: t.cache[b].holder == Nobody && !t.cache[b].touched
  }

  lemma {:induction false} PassTogether(c: Config, s: State, t: State, b0: nat, b1: nat, data: Block) returns (u: State)
    requires c.Valid() && Reaches(c, s, t) && Idle(c, t) && t.ops.Keys == {0, 1} && t.outstanding == 2
    requires |t.ops[0]| < c.budget && |t.ops[1]| < c.budget && !Full(|t.lh|, c.L.size)
    requires b0 != b1 && c.L.IsHome(b0) && c.L.IsHome(b1) && b0 !in t.lh && b1 !in t.lh
    ensures Reaches(c, s, u) && BothPast(c, u, b0, b1)
    ensures u.lh == t.lh && u.ops == t.ops && u.disk == t.disk && u.cache[b1].data == data
  {
    hide Runs, After, CommitEnabled, RecoverEnabled, DoCommit, DoRecover, Reaches;
    Reach(c, s, t, Bread(0, b0));
    var t1 := Do(c, t, Bread(0, b0));
    Reach(c, s, t1, Bread(1, b1));
    var t2 := Do(c, t1, Bread(1, b1));
    Reach(c, s, t2, Modify(1, b1, data));
    var t3 := Do(c, t2, Modify(1, b1, data));
    Reach(c, s, t3, LogTest(0, b0));
    var t4 := Do(c, t3, LogTest(0, b0));
    Reach(c, s, t4, LogTest(1, b1));
    u := Do(c, t4, LogTest(1, b1));
  }

  /** Call 0 has listed its block, call 1 is still past the test. */
  ghost predicate OnePast(c: Config, t: State, b0: nat, b1: nat)
    requires c.Valid()
  {
    && t.phase == Running && !t.committing && t.outstanding == 2
    && t.ops.Keys == {0, 1} && t.past == map[1 := b1]
    && b0 != b1 && Holds(t, 0, b0) && Holds(t, 1, b1) && MayLog(c, t, 1, b1) && b1 !in t.lh
    && forall b | b in t.cache && b != b1 :: (b != b0 ==> t.cache[b].holder == Nobody) && !t.cache[b].touched
  }

  lemma {:induction false} AppendFirst(c: Config, s: State, t: State, b0: nat, b1: nat) returns (u: State)
    requires c.Valid() && Reaches(c, s, t) && BothPast(c, t, b0, b1)
    ensures Reaches(c, s, u) && OnePast(c, u, b0, b1)
    ensures u.lh == t.lh + [b0] && u.disk == t.disk && u.cache[b1].data == t.cache[b1].data
  {
    hide Runs, After, CommitEnabled, RecoverEnabled, DoCommit, DoRecover, Reaches;
    Reach(c, s, t, LogAppend(0));
    u := DoAppend(t, 0, b0);
    assert u.past == map[1 := b1];
  }

  lemma {:induction false} AppendBoth(c: Config, s: State, t: State, b0: nat, b1: nat) returns (u: State)
    requires c.Valid() && Reaches(c, s, t) && BothPast(c, t, b0, b1)
    ensures Reaches(c, s, u) && u.lh == t.lh + [b0, b1] && u.disk == t.disk
    ensures u.phase == Running && !u.committing && u.ops.Keys == {0, 1} && u.outstanding == 2 && u.past == map[]
    ensures Holds(u, 0, b0) && Holds(u, 1, b1) && u.cache[b1].data == t.cache[b1].data
    ensures forall b | b in u.cache :: !u.cache[b].touched && (b != b0 && b != b1 ==> u.cache[b].holder == Nobody)
  {
    hide Runs, After, CommitEnabled, RecoverEnabled, DoCommit, DoRecover, Reaches, BothPast;
    var t1 := AppendFirst(c, s, t, b0, b1);
    Reach(c, s, t1, LogAppend(1));
    u := DoAppend(t1, 1, b1);
    assert u.past == map[];
  }

  /** The log overflows in some run exactly when it takes a block at all but fewer than one
      reservation and two budgets. (`hs` only says the disk has that many home blocks.) */
  lemma {:induction false} OverflowExactly(c: Config, hs: seq<nat>)
    requires c.Valid() && Homes(c, hs) && |hs| == c.L.size
    ensures CanOverflow(c) <==> 2 <= c.L.size <= MAXOPBLOCKS + 2 * c.budget
    ensures CanOverflow(c) <==> !c.Roomy()
  {
    if 2 <= c.L.size <= MAXOPBLOCKS + 2 * c.budget {
      var s, t := FillToTwoShort(c, hs);
      var k := c.L.size - 2;
      LastTwo(hs);
      t := PassTogether(c, s, t, hs[k], hs[k + 1], ZeroBlock());
      t := AppendBoth(c, s, t, hs[k], hs[k + 1]);
      assert |t.lh| > c.L.size - 1;
    } else if CanOverflow(c) {
      var s, t :| Init(c, s) && Reaches(c, s, t) && |t.lh| > c.L.size - 1;
      var steps :| Runs(c, s, steps) && After(c, s, steps) == t;
      Isolation(c, s, steps);
      assert false;
    }
  }

  lemma {:induction false} LastTwo(hs: seq<nat>)
    requires NoDup(hs) && |hs| >= 2
    ensures var k := |hs| - 2; hs[k] !in hs[..k] && hs[k + 1] !in hs[..k] && hs[k] != hs[k + 1]
    ensures hs[..|hs| - 2] + [hs[|hs| - 2], hs[|hs| - 1]] == hs
  {
  }

  /** In every run, home blocks on disk change only by installs the header on disk names. */
  ghost predicate HeaderFirst(c: Config)
    requires c.Valid()
  {
    forall s, t, a | Init(c, s) && Reaches(c, s, t) && Enabled(c, t, a) :: WritesInOrder(c, t, a)
  }

  /** A commit that has `i` blocks left before the one that does not fit. */
  ghost predicate Spilling(c: Config, t: State, hs: seq<nat>, i: nat)
    requires c.Valid()
  {
    && t.phase == Logging(i) && |t.disk| == c.L.disksize && t.lh == hs
    && forall b | b in t.cache :: t.cache[b].holder == Nobody
  }

  lemma {:induction false} EndBoth(c: Config, s: State, t: State, hs: seq<nat>, b0: nat, b1: nat) returns (u: State)
    requires c.Valid() && Reaches(c, s, t) && t.lh == hs && hs != [] && |t.disk| == c.L.disksize
    requires t.phase == Running && !t.committing && t.ops.Keys == {0, 1} && t.outstanding == 2 && t.past == map[]
    requires b0 != b1 && Holds(t, 0, b0) && Holds(t, 1, b1)
    requires forall b | b in t.cache :: !t.cache[b].touched && (b != b0 && b != b1 ==> t.cache[b].holder == Nobody)
    ensures Reaches(c, s, u) && Spilling(c, u, hs, 0) && u.disk == t.disk
    ensures b1 in u.cache && u.cache[b1].data == t.cache[b1].data
  {
    hide Runs, After, CommitEnabled, RecoverEnabled, DoCommit, DoRecover, Reaches;
    Reach(c, s, t, Brelse(0, b0));
    var t1 := Do(c, t, Brelse(0, b0));
    Reach(c, s, t1, Brelse(1, b1));
    var t2 := Do(c, t1, Brelse(1, b1));
    Reach(c, s, t2, End(0));
    var t3 := Do(c, t2, End(0));
    Reach(c, s, t3, End(1));
    u := Do(c, t3, End(1));
  }

  /** write_log, as far as the log goes. */
  lemma {:induction false} SpillUpTo(c: Config, s: State, t: State, hs: seq<nat>, i: nat, b1: nat) returns (u: State)
    requires c.Valid() && Reaches(c, s, t) && Spilling(c, t, hs, 0) && Homes(c, hs)
    requires |hs| == c.L.size <= LOGSIZE && i < c.L.size && b1 in t.cache && c.L.IsHome(b1)
    ensures Reaches(c, s, u) && Spilling(c, u, hs, i) && b1 in u.cache && u.cache[b1] == t.cache[b1]
    ensures forall b: nat | b < c.L.disksize && c.L.IsHome(b) :: u.disk[b] == t.disk[b]
  {
    hide Runs, After, Reaches, RecoverEnabled, DoRecover;
    if i == 0 {
      u := t;
    } else {
      u := SpillUpTo(c, s, t, hs, i - 1, b1);
      assert c.L.IsHome(hs[i - 1]) && !c.L.IsHome(c.L.start + i);
      Reach(c, s, u, Commit);
      u := Do(c, u, Commit);
    }
  }

  /** The block that does not fit goes home: to the first block after the log. */
  lemma {:induction false} SpillsHome(c: Config, t: State, hs: seq<nat>, b1: nat)
    requires c.Valid() && Spilling(c, t, hs, c.L.size - 1) && Homes(c, hs) && |hs| == c.L.size <= LOGSIZE
    requires b1 == hs[|hs| - 1] && b1 in t.cache
    requires c.L.start + c.L.size < c.L.disksize && c.L.start + c.L.size != b1
    requires t.cache[b1].data != t.disk[c.L.start + c.L.size]
    ensures Enabled(c, t, Commit) && !WritesInOrder(c, t, Commit)
  {
    var b := c.L.start + c.L.size;
    var u := Do(c, t, Commit);
    assert u.disk[b] == t.cache[b1].data;
    assert Home(c.L, u.disk)[b] != Home(c.L, t.disk)[b];
  }

  /** A block with other bytes. */
  function Other(d: Block): (e: Block)
    ensures e != d
  {
    RawBlock(d.data[0 := if d.data[0] == 0 then 1 else 0])
  }

  /** Two calls that pass the test together, and the commit after them, which overwrites a home
      block before the header is on disk. */
  lemma {:induction false} OverwriteHome(c: Config, hs: seq<nat>) returns (s: State, full: State, t: State)
    requires c.Valid() && Homes(c, hs) && |hs| == c.L.size && 2 <= c.L.size <= MAXOPBLOCKS + 2 * c.budget
    requires c.L.start + c.L.size < c.L.disksize && c.L.start + c.L.size != hs[c.L.size - 1]
    ensures Init(c, s) && Reaches(c, s, full) && BothPast(c, full, hs[c.L.size - 2], hs[c.L.size - 1])
    ensures |full.lh| == c.L.size - 2
    ensures Reaches(c, s, t) && t.lh == hs && Enabled(c, t, Commit) && !WritesInOrder(c, t, Commit)
  {
    hide Runs, After, Reaches, Do, Enabled, Idle, BothPast, Spilling;
    var k := c.L.size - 2;
    s, t := FillToTwoShort(c, hs);
    assert |t.disk| == c.L.disksize by { IdleSize(c, t); }
    var data := Other(t.disk[c.L.start + c.L.size]);
    LastTwo(hs);
    full := PassTogether(c, s, t, hs[k], hs[k + 1], data);
    t := AppendBoth(c, s, full, hs[k], hs[k + 1]);
    t := EndBoth(c, s, t, hs, hs[k], hs[k + 1]);
    assert c.L.IsHome(c.L.start + c.L.size);
    t := SpillUpTo(c, s, t, hs, c.L.size - 1, hs[k + 1]);
    SpillsHome(c, t, hs, hs[k + 1]);
    assert t.lh == hs by { SpillingLists(c, t, hs); }
  }

  lemma {:induction false} IdleSize(c: Config, t: State)
    requires c.Valid() && Idle(c, t)
    ensures |t.disk| == c.L.disksize
  {
  }

  lemma {:induction false} SpillingLists(c: Config, t: State, hs: seq<nat>)
    requires c.Valid() && Spilling(c, t, hs, c.L.size - 1)
    ensures t.lh == hs
  {
  }

  /** The home blocks after the log's end, bar the first. */
  function Beyond(c: Config): (hs: seq<nat>)
    requires c.Valid() && c.L.start + 2 * c.L.size < c.L.disksize
    ensures |hs| == c.L.size && Homes(c, hs) && forall i | 0 <= i < |hs| :: hs[i] != c.L.start + c.L.size
  {
    seq(c.L.size, i requires 0 <= i < c.L.size => c.L.start + c.L.size + 1 + i)
  }

  /** No home block is written before its header, in any run, exactly when the log is roomy. */
  lemma {:induction false} HeaderFirstExactly(c: Config)
    requires c.Valid() && c.L.start + 2 * c.L.size < c.L.disksize
    ensures HeaderFirst(c) <==> c.Roomy()
  {
    hide Runs, After, Do, Enabled, Inv;
    if c.Roomy() {
      forall s, t, a | Init(c, s) && Reaches(c, s, t) && Enabled(c, t, a) ensures WritesInOrder(c, t, a) {
        var steps :| Runs(c, s, steps) && After(c, s, steps) == t;
        InitInv(c, s);
        RunRefines(c, s, steps);
        HomeWritesFollowHeader(c, t, a);
      }
    } else {
      var s, full, t := OverwriteHome(c, Beyond(c));
      assert Enabled(c, t, Commit) && !WritesInOrder(c, t, Commit);
    }
  }

  /** On the disk mkfs makes: 28 blocks listed, two calls within MAXOPBLOCKS both past the test,
      and then 30 entries in a log of 30 blocks, whose commit writes block 32, where the inodes
      start, before the header. With one block less a call none of this can happen. */
  lemma {:induction false} MkfsOverflow(budget: nat) returns (s: State, full: State, t: State)
    requires 1 <= budget <= MAXOPBLOCKS
    ensures var c := Config(Layout(2, LOGSIZE, 1000), budget);
            && c.Valid() && (HeaderFirst(c) <==> budget < MAXOPBLOCKS)
            && (budget == MAXOPBLOCKS ==>
                  && Init(c, s) && Reaches(c, s, full) && |full.lh| == 28 && full.past.Keys == {0, 1}
                  && Reaches(c, s, t) && |t.lh| == 30 && Enabled(c, t, Commit) && !WritesInOrder(c, t, Commit))
  {
    hide Runs, After, Do, Enabled, Inv;
    var c := Config(Layout(2, LOGSIZE, 1000), budget);
    HeaderFirstExactly(c);
    if budget == MAXOPBLOCKS {
      s, full, t := OverwriteHome(c, Beyond(c));
    } else {
      s, full := Boot(c);
      t := s;
    }
  }
}
