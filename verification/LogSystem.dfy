/** The log, the buffers and the file system calls that share them, as one transition
    system: any number of processes, any interleaving, a power failure before any step,
    recovery that can itself be cut short. */
module LogSystem {
  import opened Blocks
  import opened LogDisk
  import opened LogDevice

  type Pid = nat

  datatype Holder = Nobody | By(pid: Pid)

  /** A valid buffer: B_DIRTY, who holds its sleep lock, and whether the holder has
      changed the data without calling log_write yet. */
  datatype Buf = Buf(data: Block, dirty: bool, holder: Holder, touched: bool)

  /** Where the commit, or the recovery, in progress stands. */
  datatype Phase =
    | Running
    | Logging(i: nat)
    | Installing(i: nat)
    | Erased
    | Booting
    | Reinstalling(i: nat)

  /** `ops` maps each process between begin_op and end_op to the blocks it has logged. `past`
      maps each process that is inside log_write, past the size test and before the lock, to the
      block it is about to list; it takes no other step until it has. */
  datatype State = State(
    disk: Disk,
    cache: map<nat, Buf>,
    lh: seq<nat>,
    ops: map<Pid, set<nat>>,
    past: map<Pid, nat>,
    outstanding: int,
    committing: bool,
    phase: Phase)

  datatype Step =
    | Begin(p: Pid)
    | Bread(p: Pid, b: nat)
    | Modify(p: Pid, b: nat, data: Block)
    | LogTest(p: Pid, b: nat)
    | LogAppend(p: Pid)
    | Brelse(p: Pid, b: nat)
    | Evict(b: nat)
    | End(p: Pid)
    | Commit
    | Crash
    | Recover

  /** The log's place on disk, and the most distinct blocks one call logs. */
  datatype Config = Config(L: Layout, budget: nat) {
    predicate Valid() {
      L.Valid() && 1 <= budget <= MAXOPBLOCKS
    }

    /** The log takes nothing at all, or everything that calls within their budget can list. */
    predicate Roomy() {
      L.size == 1 || MAXOPBLOCKS + 2 * budget < L.size
    }
  }

  predicate Booted(s: State) {
    !s.phase.Booting? && !s.phase.Reinstalling?
  }

  predicate Holds(s: State, p: Pid, b: nat) {
    b in s.cache && s.cache[b].holder == By(p)
  }

  predicate Free(s: State, b: nat) {
    b in s.cache ==> s.cache[b].holder == Nobody
  }

  function View(s: State, b: nat): Block
    requires b < |s.disk|
  {
    if b in s.cache then s.cache[b].data else s.disk[b]
  }

  predicate Enabled(c: Config, s: State, step: Step)
    requires c.Valid()
  {
    match step
    case Begin(p) => Booted(s) && p !in s.ops && Admits(|s.lh|, s.outstanding, s.committing)
    case Bread(p, b) => Booted(s) && p !in s.past && c.L.IsHome(b) && b < |s.disk| && Free(s, b)
    case Modify(p, b, _) => p !in s.past && Holds(s, p, b) && p in s.ops && c.L.IsHome(b)
    case LogTest(p, b) => p !in s.past && Holds(s, p, b) && MayLog(c, s, p, b) && !Full(|s.lh|, c.L.size)
    case LogAppend(p) => p in s.past && Holds(s, p, s.past[p]) && MayLog(c, s, p, s.past[p])
    case Brelse(p, b) => p !in s.past && Holds(s, p, b) && !s.cache[b].touched
    case Evict(b) => b in s.cache && s.cache[b].holder == Nobody && !s.cache[b].dirty
    case End(p) =>
      && p in s.ops && p !in s.past && !s.committing
      && forall b | b in s.cache && s.cache[b].touched :: s.cache[b].holder != By(p)
    case Commit => CommitEnabled(c, s)
    case Crash => true
    case Recover => RecoverEnabled(c, s)
  }

  /** A call stays within its budget of distinct blocks. */
  predicate MayLog(c: Config, s: State, p: Pid, b: nat) {
    p in s.ops && c.L.IsHome(b) && |s.ops[p] + {b}| <= c.budget
  }

  /** What the in-memory header has room for, whether or not the log on disk does. */
  predicate Listed(c: Config, lh: seq<nat>)
    requires c.Valid()
  {
    |lh| <= LOGSIZE && forall i | 0 <= i < |lh| :: c.L.IsHome(lh[i])
  }

  predicate WellSized(c: Config, s: State)
    requires c.Valid()
  {
    |s.disk| == c.L.disksize && Listed(c, s.lh)
  }

  /** The `i`-th log block and the block it stands for are two blocks of the disk. */
  predicate Pair(c: Config, s: State, i: nat)
    requires c.Valid() && WellSized(c, s) && i < |s.lh|
  {
    c.L.start + 1 + i < c.L.disksize && c.L.start + 1 + i != s.lh[i]
  }

  predicate PairFree(c: Config, s: State, i: nat)
    requires c.Valid() && WellSized(c, s) && i < |s.lh|
  {
    Pair(c, s, i) && Free(s, c.L.start + 1 + i) && Free(s, s.lh[i])
  }

  predicate CommitEnabled(c: Config, s: State)
    requires c.Valid()
  {
    WellSized(c, s) &&
    match s.phase
    case Logging(i) => i <= |s.lh| && (i < |s.lh| ==> PairFree(c, s, i))
    case Installing(i) => i <= |s.lh| && (i < |s.lh| ==> PairFree(c, s, i))
    case Erased => true
    case _ => false
  }

  predicate RecoverEnabled(c: Config, s: State)
    requires c.Valid()
  {
    WellSized(c, s) &&
    match s.phase
    case Booting => var h := View(s, c.L.start); HeadN(h) < WORDS && Listed(c, HeadBlocks(h))
    case Reinstalling(i) => i <= |s.lh| && (i < |s.lh| ==> Pair(c, s, i))
    case _ => false
  }

  /** One bwrite by commit or recovery, which goes on to `phase` with header `lh`. */
  function Bwrite(s: State, b: nat, data: Block, lh: seq<nat>, phase: Phase): State
    requires b < |s.disk|
  {
    s.(disk := s.disk[b := data], cache := s.cache[b := Buf(data, false, Nobody, false)], lh := lh, phase := phase)
  }

  function WriteHead(c: Config, s: State, lh: seq<nat>, phase: Phase): State
    requires c.Valid() && WellSized(c, s) && Listed(c, lh)
  {
    Bwrite(s, c.L.start, HeadBlock(View(s, c.L.start), lh), lh, phase)
  }

  function DoCommit(c: Config, s: State): State
    requires c.Valid() && CommitEnabled(c, s)
  {
    match s.phase
    case Logging(i) =>
      if i < |s.lh| then Bwrite(s, c.L.start + 1 + i, View(s, s.lh[i]), s.lh, Logging(i + 1))
      else WriteHead(c, s, s.lh, Installing(0))
    case Installing(i) =>
      if i < |s.lh| then Bwrite(s, s.lh[i], View(s, c.L.start + 1 + i), s.lh, Installing(i + 1))
      else WriteHead(c, s, [], Erased)
    case Erased => s.(committing := false, phase := Running)
  }

  function DoRecover(c: Config, s: State): State
    requires c.Valid() && RecoverEnabled(c, s)
  {
    match s.phase
    case Booting => s.(lh := HeadBlocks(View(s, c.L.start)), phase := Reinstalling(0))
    case Reinstalling(i) =>
      if i < |s.lh| then Bwrite(s, s.lh[i], View(s, c.L.start + 1 + i), s.lh, Reinstalling(i + 1))
      else WriteHead(c, s, [], Running)
  }

  function DoEnd(s: State, p: Pid): State {
    var t := s.(ops := s.ops - {p}, outstanding := s.outstanding - 1);
    if t.outstanding == 0
    then t.(committing := true, phase := if t.lh == [] then Erased else Logging(0))
    else t
  }

  /** log_write under the lock, which does not test the size again. */
  function DoAppend(s: State, p: Pid, b: nat): State
    requires Holds(s, p, b) && p in s.ops
  {
    PutBuf(s, b, s.cache[b].(dirty := true, touched := false))
    .(lh := Absorb(s.lh, b), ops := s.ops[p := s.ops[p] + {b}], past := s.past - {p})
  }

  function PutBuf(s: State, b: nat, buf: Buf): State {
    s.(cache := s.cache[b := buf])
  }

  function Do(c: Config, s: State, step: Step): State
    requires c.Valid() && Enabled(c, s, step)
  {
    match step
    case Begin(p) => s.(ops := s.ops[p := {}], outstanding := s.outstanding + 1)
    case Bread(p, b) => PutBuf(s, b, Buf(View(s, b), b in s.cache && s.cache[b].dirty, By(p), false))
    case Modify(p, b, data) => PutBuf(s, b, s.cache[b].(data := data, touched := true))
    case LogTest(p, b) => s.(past := s.past[p := b])
    case LogAppend(p) => DoAppend(s, p, s.past[p])
    case Brelse(p, b) => PutBuf(s, b, s.cache[b].(holder := Nobody))
    case Evict(b) => s.(cache := s.cache - {b})
    case End(p) => DoEnd(s, p)
    case Commit => DoCommit(c, s)
    case Crash => State(s.disk, map[], [], map[], map[], 0, false, Booting)
    case Recover => DoRecover(c, s)
  }

  // ---- What every reachable state keeps ------------------------------------

  ghost predicate NoDup(blocks: seq<nat>) {
    forall i, j | 0 <= i < j < |blocks| :: blocks[i] != blocks[j]
  }

  /** Unspent budget of every outstanding call, at `c` blocks a call. */
  ghost function Unspent(ops: map<Pid, set<nat>>, c: int): int {
    if ops == map[] then 0 else
    var p :| p in ops;
    c - |ops[p]| + Unspent(ops - {p}, c)
  }

  ghost predicate DiskInv(c: Config, s: State)
    requires c.Valid()
  {
    c.L.Wf(s.disk) && NoDup(HeadBlocks(s.disk[c.L.start]))
  }

  ghost predicate CacheInv(c: Config, s: State)
    requires c.Valid()
  {
    && |s.disk| == c.L.disksize
    && (forall b | b in s.cache :: b < c.L.disksize)
    && (forall b | b in s.cache && !s.cache[b].dirty && !s.cache[b].touched :: s.cache[b].data == s.disk[b])
    && (forall b | b in s.cache && s.cache[b].touched ::
          s.cache[b].holder.By? && s.cache[b].holder.pid in s.ops)
    && (forall b | b in s.cache && (s.cache[b].touched || s.cache[b].holder.By?) :: c.L.IsHome(b))
    && (forall b | b in s.cache && s.cache[b].dirty :: b in Pinned(s))
    && (forall b | b in Pinned(s) :: b in s.cache && s.cache[b].dirty)
  }

  /** The logged blocks that have not reached home yet: exactly the dirty buffers. */
  ghost function Pinned(s: State): seq<nat> {
    match s.phase
    case Running => s.lh
    case Logging(_) => s.lh
    case Installing(i) => if i <= |s.lh| then s.lh[i..] else []
    case _ => []
  }

  ghost predicate OpsInv(c: Config, s: State)
    requires c.Valid()
  {
    && c.L.Entries(s.lh) && NoDup(s.lh)
    && s.outstanding == |s.ops|
    && (forall p | p in s.ops :: s.ops[p] <= SetOf(s.lh) && |s.ops[p]| <= c.budget)
    && |s.lh| + Unspent(s.ops, MAXOPBLOCKS) <= LOGSIZE
    && (Booted(s) ==> |s.lh| + Unspent(s.ops, c.budget) <= MAXOPBLOCKS + 2 * c.budget)
    && (s.phase != Running ==> s.ops == map[])
    && (s.phase == Running && s.ops == map[] ==> s.lh == [])
    && s.committing == (s.phase.Logging? || s.phase.Installing? || s.phase.Erased?)
  }

  /** A call past the size test still holds its buffer and stays within its budget. */
  ghost predicate PastInv(c: Config, s: State)
    requires c.Valid()
  {
    && (forall p | p in s.past :: Holds(s, p, s.past[p]) && MayLog(c, s, p, s.past[p]))
    && (c.L.size == 1 ==> s.past == map[])
  }

  /** The first `i` log blocks have been copied home. */
  ghost predicate Copied(L: Layout, d: Disk, lh: seq<nat>, i: nat)
    requires L.Valid() && |d| == L.disksize && L.Entries(lh)
  {
    i <= |lh| && forall j | 0 <= j < i :: d[lh[j]] == d[L.start + 1 + j]
  }

  /** The first `i` log blocks hold what readers of the logged blocks see. */
  ghost predicate Saved(L: Layout, s: State, i: nat)
    requires L.Valid() && |s.disk| == L.disksize && L.Entries(s.lh)
  {
    i <= |s.lh| && forall j | 0 <= j < i :: s.disk[L.start + 1 + j] == View(s, s.lh[j])
  }

  ghost predicate PhaseInv(c: Config, s: State)
    requires c.Valid() && DiskInv(c, s) && c.L.Entries(s.lh)
  {
    var head := HeadBlocks(s.disk[c.L.start]);
    match s.phase
    case Running => head == []
    case Logging(i) => head == [] && |s.lh| > 0 && Saved(c.L, s, i)
    case Installing(i) => head == s.lh && Saved(c.L, s, |s.lh|) && Copied(c.L, s.disk, s.lh, i)
    case Erased => head == [] && s.lh == []
    case Booting => s.cache == map[] && s.lh == []
    case Reinstalling(i) => head == s.lh && Copied(c.L, s.disk, s.lh, i)
  }

  ghost predicate Inv(c: Config, s: State)
    requires c.Valid()
  {
    DiskInv(c, s) && CacheInv(c, s) && OpsInv(c, s) && PastInv(c, s) && PhaseInv(c, s)
  }

  ghost predicate Init(c: Config, s: State)
    requires c.Valid()
  {
    DiskInv(c, s) && s == State(s.disk, map[], [], map[], map[], 0, false, Booting)
  }
}
