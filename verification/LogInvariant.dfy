/** Every step of the log's transition system keeps its invariant: space accounting,
    commits only between calls, dirty buffers pinned exactly while they are needed. */
module LogInvariant {
  import opened Blocks
  import opened LogDisk
  import opened LogDevice
  import opened LogSystem

  // ---- Accounting -----------------------------------------------------------

  lemma {:induction false} UnspentRemove(ops: map<Pid, set<nat>>, p: Pid, c: int)
    requires p in ops
    ensures Unspent(ops, c) == c - |ops[p]| + Unspent(ops - {p}, c)
    decreases |ops|
  {
    var q :| q in ops && Unspent(ops, c) == c - |ops[q]| + Unspent(ops - {q}, c);
    if q != p {
      UnspentRemove(ops - {q}, p, c);
      UnspentRemove(ops - {p}, q, c);
      assert ops - {q} - {p} == ops - {p} - {q};
    }
  }

  lemma {:induction false} UnspentPut(ops: map<Pid, set<nat>>, p: Pid, blocks: set<nat>, c: int)
    ensures Unspent(ops[p := blocks], c) == c - |blocks| + Unspent(ops - {p}, c)
    ensures p !in ops ==> ops - {p} == ops
  {
    UnspentRemove(ops[p := blocks], p, c);
    assert ops[p := blocks] - {p} == ops - {p};
  }

  lemma {:induction false} UnspentNonneg(ops: map<Pid, set<nat>>, c: int)
    requires forall p | p in ops :: |ops[p]| <= c
    ensures Unspent(ops, c) >= 0
    decreases |ops|
  {
    if ops != map[] {
      var p :| p in ops;
      UnspentRemove(ops, p, c);
      UnspentNonneg(ops - {p}, c);
    }
  }

  /** At `c` blocks a call the unspent budget is at most what begin_op reserves. */
  lemma {:induction false} UnspentAtMost(ops: map<Pid, set<nat>>, c: nat)
    ensures Unspent(ops, c) <= c * |ops|
    decreases |ops|
  {
    if ops != map[] {
      var p :| p in ops;
      UnspentRemove(ops, p, c);
      UnspentAtMost(ops - {p}, c);
      assert (ops - {p}).Keys == ops.Keys - {p};
      assert |ops - {p}| == |ops| - 1;
    }
  }

  lemma {:induction false} SizeOfPut<V>(m: map<nat, V>, k: nat, v: V)
    ensures |m[k := v]| == if k in m then |m| else |m| + 1
  {
    assert m[k := v].Keys == m.Keys + {k};
  }

  lemma {:induction false} SizeOfRemove<V>(m: map<nat, V>, k: nat)
    requires k in m
    ensures |m - {k}| == |m| - 1
  {
    assert (m - {k}).Keys == m.Keys - {k};
  }

  /** What begin_op lets in, it has reserved room for. */
  lemma {:induction false} Reserve(budget: nat, n: nat, calls: nat)
    requires 1 <= budget <= MAXOPBLOCKS && 1 <= calls
    requires n + calls * MAXOPBLOCKS <= LOGSIZE && (calls == 1 ==> n == 0)
    ensures n + calls * budget <= MAXOPBLOCKS + 2 * budget
  {
    assert calls == 1 || calls == 2 || calls == 3;
  }

  lemma {:induction false} BeginKeepsOps(c: Config, s: State, p: Pid)
    requires c.Valid() && OpsInv(c, s) && Booted(s) && p !in s.ops
    requires Admits(|s.lh|, s.outstanding, s.committing)
    ensures OpsInv(c, s.(ops := s.ops[p := {}], outstanding := s.outstanding + 1))
  {
    hide Unspent;
    SizeOfPut(s.ops, p, {});
    BeginReserves(c, s, p);
  }

  /** Both reservations, at MAXOPBLOCKS a call and at the calls' own budget. */
  lemma {:induction false} BeginReserves(c: Config, s: State, p: Pid)
    requires c.Valid() && OpsInv(c, s) && Booted(s) && p !in s.ops
    requires Admits(|s.lh|, s.outstanding, s.committing)
    ensures |s.lh| + Unspent(s.ops[p := {}], MAXOPBLOCKS) <= LOGSIZE
    ensures |s.lh| + Unspent(s.ops[p := {}], c.budget) <= MAXOPBLOCKS + 2 * c.budget
  {
    hide Unspent;
    UnspentPut(s.ops, p, {}, MAXOPBLOCKS);
    UnspentPut(s.ops, p, {}, c.budget);
    UnspentAtMost(s.ops, MAXOPBLOCKS);
    UnspentAtMost(s.ops, c.budget);
    Reserve(c.budget, |s.lh|, |s.ops| + 1);
  }

  lemma {:induction false} SpendOne(ops: map<Pid, set<nat>>, lh: seq<nat>, p: Pid, b: nat, k: int)
    requires p in ops && ops[p] <= SetOf(lh)
    ensures |Absorb(lh, b)| + Unspent(ops[p := ops[p] + {b}], k) <= |lh| + Unspent(ops, k)
  {
    UnspentRemove(ops, p, k);
    UnspentPut(ops, p, ops[p] + {b}, k);
    if b in ops[p] {
      assert ops[p] + {b} == ops[p];
    }
  }

  /** On a roomy log the reservation alone leaves room for the next entry, and the test of
      log_write, however long ago it was, is not needed. */
  lemma {:induction false} AppendFits(c: Config, s: State, p: Pid, b: nat)
    requires c.Valid() && c.Roomy() && c.L.size > 1 && OpsInv(c, s) && MayLog(c, s, p, b) && Booted(s)
    ensures |Absorb(s.lh, b)| <= c.L.Capacity()
  {
    var ops := s.ops[p := s.ops[p] + {b}];
    SpendOne(s.ops, s.lh, p, b, c.budget);
    UnspentNonneg(ops, c.budget);
  }

  lemma {:induction false} AbsorbKeeps(L: Layout, lh: seq<nat>, b: nat)
    requires L.Valid() && L.Entries(lh) && NoDup(lh) && L.IsHome(b) && |Absorb(lh, b)| <= L.Capacity()
    ensures L.Entries(Absorb(lh, b)) && NoDup(Absorb(lh, b))
    ensures SetOf(Absorb(lh, b)) == SetOf(lh) + {b}
  {
  }

  lemma {:induction false} AppendKeepsOps(c: Config, s: State, p: Pid, b: nat)
    requires c.Valid() && c.Roomy() && c.L.size > 1 && OpsInv(c, s) && Holds(s, p, b) && MayLog(c, s, p, b)
    ensures OpsInv(c, DoAppend(s, p, b))
  {
    hide Unspent;
    AppendFits(c, s, p, b);
    SizeOfPut(s.ops, p, s.ops[p] + {b});
    SpendOne(s.ops, s.lh, p, b, MAXOPBLOCKS);
    SpendOne(s.ops, s.lh, p, b, c.budget);
    AbsorbKeeps(c.L, s.lh, b);
  }

  lemma {:induction false} EndKeepsOps(c: Config, s: State, p: Pid)
    requires c.Valid() && OpsInv(c, s) && p in s.ops && !s.committing
    ensures OpsInv(c, DoEnd(s, p))
  {
    UnspentRemove(s.ops, p, MAXOPBLOCKS);
    UnspentRemove(s.ops, p, c.budget);
    SizeOfRemove(s.ops, p);
  }

  // ---- Steps of the file system calls -----------------------------------------

  /** Steps of calls leave the disk alone, so its part of the invariant, and what the phase
      promises, come for free as long as the header and what readers see of it stay. */
  lemma {:induction false} CallFrame(c: Config, s: State, t: State)
    requires c.Valid() && Inv(c, s) && t.disk == s.disk && t.lh == s.lh && t.phase == s.phase
    requires CacheInv(c, t) && OpsInv(c, t) && PastInv(c, t)
    requires s.phase.Booting? ==> t.cache == map[]
    requires s.phase != Running ==> forall i | 0 <= i < |s.lh| :: View(t, s.lh[i]) == View(s, s.lh[i])
    ensures Inv(c, t)
  {
    hide HeadBlocks, HeadN, HeadBlock, Word, InstallN, Unspent, CacheInv, PastInv;
    PhaseFrame(c, s, t);
  }

  lemma {:induction false} OpsFrame(c: Config, s: State, t: State)
    requires c.Valid() && OpsInv(c, s) && t.lh == s.lh && t.ops == s.ops && t.outstanding == s.outstanding
    requires t.committing == s.committing && t.phase == s.phase
    ensures OpsInv(c, t)
  {
    hide Unspent;
  }

  lemma {:induction false} PastFrame(c: Config, s: State, t: State)
    requires c.Valid() && PastInv(c, s) && t.past == s.past
    requires forall p | p in s.past :: p in s.ops && p in t.ops && t.ops[p] == s.ops[p]
    requires forall p, b | p in s.past && s.past[p] == b && Holds(s, p, b) :: Holds(t, p, b)
    ensures PastInv(c, t)
  {
  }

  lemma {:induction false} BeginKeepsInv(c: Config, s: State, p: Pid)
    requires c.Valid() && Inv(c, s) && Enabled(c, s, Begin(p))
    ensures Inv(c, Do(c, s, Begin(p)))
  {
    hide HeadBlocks, HeadN, HeadBlock, Word, InstallN, Unspent, PhaseInv, OpsInv;
    BeginKeepsOps(c, s, p);
    CallFrame(c, s, Do(c, s, Begin(p)));
  }

  lemma {:induction false} OpsOnlyRunning(c: Config, s: State, p: Pid)
    requires c.Valid() && Inv(c, s) && p in s.ops
    ensures s.phase == Running && !s.committing
  {
    hide DiskInv, CacheInv, PastInv, PhaseInv, Unspent;
  }

  /** Changing one buffer, not who is dirty, keeps the rest as long as the buffer does. */
  lemma {:induction false} PutBufKeepsInv(c: Config, s: State, b: nat, buf: Buf)
    requires c.Valid() && Inv(c, s) && b < c.L.disksize && !s.phase.Booting?
    requires buf.dirty == (b in s.cache && s.cache[b].dirty)
    requires !buf.dirty && !buf.touched ==> buf.data == s.disk[b]
    requires buf.touched ==> buf.holder.By? && buf.holder.pid in s.ops
    requires buf.touched || buf.holder.By? ==> c.L.IsHome(b)
    requires buf.touched || buf.data == View(s, b)
    requires forall p | p in s.past && s.past[p] == b :: buf.holder == By(p)
    ensures Inv(c, PutBuf(s, b, buf))
  {
    hide HeadBlocks, HeadN, HeadBlock, Word, InstallN, Unspent, PhaseInv, CacheInv, OpsInv, DiskInv;
    var t := PutBuf(s, b, buf);
    assert CacheInv(c, t) by { PutBufKeepsCache(c, s, b, buf); }
    OpsFrame(c, s, t);
    assert PastInv(c, t) by { PastFrame(c, s, t); }
    hide PastInv, Inv;
    if buf.touched {
      OpsOnlyRunning(c, s, buf.holder.pid);
    }
    CallFrame(c, s, t);
  }

  lemma {:induction false} PutBufKeepsCache(c: Config, s: State, b: nat, buf: Buf)
    requires c.Valid() && CacheInv(c, s) && b < c.L.disksize
    requires buf.dirty == (b in s.cache && s.cache[b].dirty)
    requires !buf.dirty && !buf.touched ==> buf.data == s.disk[b]
    requires buf.touched ==> buf.holder.By? && buf.holder.pid in s.ops
    requires buf.touched || buf.holder.By? ==> c.L.IsHome(b)
    ensures CacheInv(c, PutBuf(s, b, buf))
  {
  }

  /** What a phase promises depends only on the disk, the header and what readers of the
      logged blocks see; no call is under way when a phase promises anything of those. */
  lemma {:induction false} PhaseFrame(c: Config, s: State, t: State)
    requires c.Valid() && DiskInv(c, s) && c.L.Entries(s.lh) && CacheInv(c, s) && CacheInv(c, t)
    requires PhaseInv(c, s) && t.disk == s.disk && t.lh == s.lh && t.phase == s.phase
    requires s.phase.Booting? ==> t.cache == map[]
    requires s.phase != Running ==> forall i | 0 <= i < |s.lh| :: View(t, s.lh[i]) == View(s, s.lh[i])
    ensures PhaseInv(c, t)
  {
  }

  lemma {:induction false} BreadKeepsInv(c: Config, s: State, p: Pid, b: nat)
    requires c.Valid() && Inv(c, s) && Booted(s) && c.L.IsHome(b) && Free(s, b)
    ensures Inv(c, PutBuf(s, b, Buf(View(s, b), b in s.cache && s.cache[b].dirty, By(p), false)))
  {
    PutBufKeepsInv(c, s, b, Buf(View(s, b), b in s.cache && s.cache[b].dirty, By(p), false));
  }

  lemma {:induction false} ModifyKeepsInv(c: Config, s: State, p: Pid, b: nat, data: Block)
    requires c.Valid() && Inv(c, s) && Holds(s, p, b) && p in s.ops && c.L.IsHome(b)
    ensures Inv(c, PutBuf(s, b, s.cache[b].(data := data, touched := true)))
  {
    hide HeadBlocks, HeadN, HeadBlock, Word, InstallN, Unspent, PhaseInv, CacheInv, OpsInv, DiskInv;
    OpsOnlyRunning(c, s, p);
    PutBufKeepsInv(c, s, b, s.cache[b].(data := data, touched := true));
  }

  lemma {:induction false} BrelseKeepsInv(c: Config, s: State, p: Pid, b: nat)
    requires c.Valid() && Inv(c, s) && p !in s.past && Holds(s, p, b) && !s.cache[b].touched
    ensures Inv(c, PutBuf(s, b, s.cache[b].(holder := Nobody)))
  {
    hide HeadBlocks, HeadN, HeadBlock, Word, InstallN, Unspent;
    PutBufKeepsInv(c, s, b, s.cache[b].(holder := Nobody));
  }

  lemma {:induction false} EvictKeepsCache(c: Config, s: State, b: nat)
    requires c.Valid() && CacheInv(c, s) && b in s.cache && s.cache[b].holder == Nobody && !s.cache[b].dirty
    ensures CacheInv(c, s.(cache := s.cache - {b}))
    ensures forall x: nat | x < c.L.disksize :: View(s.(cache := s.cache - {b}), x) == View(s, x)
  {
    assert !s.cache[b].touched;
  }

  lemma {:induction false} EvictKeepsInv(c: Config, s: State, b: nat)
    requires c.Valid() && Inv(c, s) && b in s.cache && s.cache[b].holder == Nobody && !s.cache[b].dirty
    ensures Inv(c, s.(cache := s.cache - {b}))
  {
    hide HeadBlocks, HeadN, HeadBlock, Word, InstallN, Unspent, PhaseInv, CacheInv, OpsInv, DiskInv;
    var t := s.(cache := s.cache - {b});
    EvictKeepsCache(c, s, b);
    OpsFrame(c, s, t);
    PastFrame(c, s, t);
    NothingCached(c, s, b);
    hide PastInv;
    CallFrame(c, s, t);
  }

  lemma {:induction false} NothingCached(c: Config, s: State, b: nat)
    requires c.Valid() && Inv(c, s) && b in s.cache
    ensures !s.phase.Booting? && c.L.Entries(s.lh) && |s.disk| == c.L.disksize
  {
    hide HeadBlocks, HeadN, HeadBlock, Word, InstallN, Unspent;
  }

  lemma {:induction false} LogTestKeepsInv(c: Config, s: State, p: Pid, b: nat)
    requires c.Valid() && Inv(c, s) && Enabled(c, s, LogTest(p, b))
    ensures Inv(c, s.(past := s.past[p := b]))
  {
    hide HeadBlocks, HeadN, HeadBlock, Word, InstallN, Unspent, PhaseInv, OpsInv, DiskInv;
    var t := s.(past := s.past[p := b]);
    OpsFrame(c, s, t);
    OpsOnlyRunning(c, s, p);
    CallFrame(c, s, t);
  }

  lemma {:induction false} LogAppendKeepsInv(c: Config, s: State, p: Pid)
    requires c.Valid() && c.Roomy() && Inv(c, s) && p in s.past
    ensures Inv(c, DoAppend(s, p, s.past[p]))
  {
    hide HeadBlocks, HeadN, HeadBlock, Word, InstallN, Unspent, CacheInv, OpsInv, DiskInv;
    var b := s.past[p];
    var t := DoAppend(s, p, b);
    OpsOnlyRunning(c, s, p);
    AppendKeepsOps(c, s, p, b);
    AppendKeepsCache(c, s, p, b);
    assert PastInv(c, t);
    hide PastInv, DoAppend;
    AppendKeepsHead(c, s, p, b);
  }

  lemma {:induction false} AppendKeepsHead(c: Config, s: State, p: Pid, b: nat)
    requires c.Valid() && Inv(c, s) && Holds(s, p, b) && p in s.ops && OpsInv(c, DoAppend(s, p, b))
    ensures DiskInv(c, DoAppend(s, p, b)) && PhaseInv(c, DoAppend(s, p, b))
  {
    hide HeadBlocks, HeadN, HeadBlock, Word, InstallN, Unspent, CacheInv;
  }

  lemma {:induction false} AppendKeepsCache(c: Config, s: State, p: Pid, b: nat)
    requires c.Valid() && CacheInv(c, s) && Holds(s, p, b) && p in s.ops && c.L.IsHome(b) && s.phase == Running
    ensures CacheInv(c, DoAppend(s, p, b))
  {
  }

  lemma {:induction false} EndKeepsInv(c: Config, s: State, p: Pid)
    requires c.Valid() && Inv(c, s) && Enabled(c, s, End(p))
    ensures Inv(c, Do(c, s, End(p)))
  {
    hide HeadBlocks, HeadN, HeadBlock, Word, InstallN, Unspent, OpsInv;
    var t := DoEnd(s, p);
    OpsOnlyRunning(c, s, p);
    assert OpsInv(c, t) by { EndKeepsOps(c, s, p); }
    assert CacheInv(c, t) by { EndKeepsCache(c, s, p); }
    assert PastInv(c, t);
    hide CacheInv, PastInv;
    EndKeepsHead(c, s, p);
  }

  lemma {:induction false} EndKeepsCache(c: Config, s: State, p: Pid)
    requires c.Valid() && CacheInv(c, s) && s.phase == Running
    requires forall b | b in s.cache && s.cache[b].touched :: s.cache[b].holder != By(p)
    requires s.outstanding - 1 == 0 && s.lh == [] ==> Pinned(s) == []
    ensures CacheInv(c, DoEnd(s, p))
  {
  }

  lemma {:induction false} EndKeepsHead(c: Config, s: State, p: Pid)
    requires c.Valid() && Inv(c, s) && s.phase == Running && OpsInv(c, DoEnd(s, p))
    ensures DiskInv(c, DoEnd(s, p)) && PhaseInv(c, DoEnd(s, p))
  {
    hide HeadBlocks, HeadN, HeadBlock, Word, InstallN, Unspent, CacheInv, PastInv;
  }

  lemma {:induction false} CrashKeepsInv(c: Config, s: State)
    requires c.Valid() && Inv(c, s)
    ensures Inv(c, Do(c, s, Crash))
  {
  }

  // ---- Steps of commit and recovery ---------------------------------------------

  /** What recovery would leave in the home blocks. */
  ghost function DurableHome(L: Layout, d: Disk): map<nat, Block>
    requires L.Valid() && L.Wf(d)
  {
    Home(L, Durable(L, d))
  }

  ghost function Home(L: Layout, d: Disk): map<nat, Block>
    requires |d| == L.disksize
  {
    map b: nat | b < L.disksize && L.IsHome(b) :: d[b]
  }

  ghost function ViewDisk(s: State): Disk {
    seq(|s.disk|, b requires 0 <= b < |s.disk| => View(s, b))
  }

  lemma {:induction false} BwriteKeepsCache(c: Config, s: State, b: nat, data: Block, lh: seq<nat>, phase: Phase)
    requires c.Valid() && CacheInv(c, s) && b < c.L.disksize
    requires forall x :: x in Pinned(Bwrite(s, b, data, lh, phase)) <==> x in Pinned(s) && x != b
    ensures CacheInv(c, Bwrite(s, b, data, lh, phase))
  {
  }

  lemma {:induction false} BwriteKeepsOps(c: Config, s: State, b: nat, data: Block, lh: seq<nat>, phase: Phase)
    requires c.Valid() && |s.disk| == c.L.disksize && b < c.L.disksize && OpsInv(c, s) && s.phase != Running
    requires s.phase != Erased
    requires lh == s.lh || lh == []
    requires phase == Running ==> lh == []
    requires Booted(s) || lh == [] || phase.Reinstalling?
    requires (s.phase.Logging? || s.phase.Installing?) == (phase.Logging? || phase.Installing? || phase.Erased?)
    ensures OpsInv(c, Bwrite(s, b, data, lh, phase))
  {
  }

  /** While no call is under way, a block that is not pinned reads as it is on disk. */
  lemma {:induction false} QuietView(c: Config, s: State, b: nat)
    requires c.Valid() && CacheInv(c, s) && s.ops == map[] && b < c.L.disksize && b !in Pinned(s)
    ensures View(s, b) == s.disk[b]
  {
  }

  /** The log area is written only by commit and recovery, so it reads as it is on disk. */
  lemma {:induction false} LogBlockIsClean(c: Config, s: State, b: nat)
    requires c.Valid() && Inv(c, s) && c.L.start <= b < c.L.start + c.L.size
    ensures View(s, b) == s.disk[b]
    ensures forall j | 0 <= j < |s.lh| :: s.lh[j] != b
  {
    assert !c.L.IsHome(b);
    assert forall j | 0 <= j < |s.lh| :: c.L.IsHome(s.lh[j]);
  }

  lemma {:induction false} InLog(c: Config, s: State, i: nat)
    requires c.Valid() && Inv(c, s) && i < |s.lh|
    ensures WellSized(c, s) && c.L.Entries(s.lh) && c.L.start + 1 + i < c.L.start + c.L.size
    ensures Pair(c, s, i) && Free(s, c.L.start + 1 + i) && !c.L.IsHome(c.L.start + 1 + i) && c.L.IsHome(s.lh[i])
  {
    hide HeadBlocks, HeadN, Word, InstallN, Unspent, HeadBlock, PhaseInv, PastInv;
  }

  lemma {:induction false} BwriteOutsideHome(L: Layout, s: State, b: nat, data: Block, lh: seq<nat>, phase: Phase)
    requires L.Valid() && |s.disk| == L.disksize && b < L.disksize && !L.IsHome(b)
    ensures Home(L, ViewDisk(Bwrite(s, b, data, lh, phase))) == Home(L, ViewDisk(s))
  {
    var t := Bwrite(s, b, data, lh, phase);
    assert forall x: nat | x < L.disksize && L.IsHome(x) :: View(t, x) == View(s, x);
  }

  // -- a log block is written: nothing recovery reads changes

  lemma {:induction false} LogBlockKeepsInv(c: Config, s: State, i: nat)
    requires c.Valid() && Inv(c, s) && s.phase == Logging(i) && i < |s.lh|
    ensures Inv(c, Bwrite(s, c.L.start + 1 + i, View(s, s.lh[i]), s.lh, Logging(i + 1)))
  {
    hide HeadBlocks, HeadN, HeadBlock, Word, InstallN, Unspent;
    var b, data := c.L.start + 1 + i, View(s, s.lh[i]);
    var t := Bwrite(s, b, data, s.lh, Logging(i + 1));
    assert t.disk[c.L.start] == s.disk[c.L.start];
    assert CacheInv(c, t) by {
      LogBlockIsClean(c, s, b);
      BwriteKeepsCache(c, s, b, data, s.lh, Logging(i + 1));
    }
    assert OpsInv(c, t) by { BwriteKeepsOps(c, s, b, data, s.lh, Logging(i + 1)); }
    assert Saved(c.L, t, i + 1) by { SavedOneMore(c.L, s, i); }
  }

  lemma {:induction false} SavedOneMore(L: Layout, s: State, i: nat)
    requires L.Valid() && |s.disk| == L.disksize && L.Entries(s.lh) && i < |s.lh| && Saved(L, s, i)
    ensures Saved(L, Bwrite(s, L.start + 1 + i, View(s, s.lh[i]), s.lh, Logging(i + 1)), i + 1)
  {
    assert forall j | 0 <= j < |s.lh| :: L.IsHome(s.lh[j]);
    assert !L.IsHome(L.start + 1 + i);
  }

  lemma {:induction false} LogBlockKeepsHome(c: Config, s: State, i: nat)
    requires c.Valid() && DiskInv(c, s) && HeadBlocks(s.disk[c.L.start]) == []
    requires c.L.Entries(s.lh) && i < |s.lh|
    ensures var t := Bwrite(s, c.L.start + 1 + i, View(s, s.lh[i]), s.lh, Logging(i + 1));
            && DiskInv(c, t) && DurableHome(c.L, t.disk) == DurableHome(c.L, s.disk)
            && Home(c.L, ViewDisk(t)) == Home(c.L, ViewDisk(s))
  {
    var b, data := c.L.start + 1 + i, View(s, s.lh[i]);
    var t := Bwrite(s, b, data, s.lh, Logging(i + 1));
    EmptyLogIsDurable(c.L, s.disk);
    EmptyLogIsDurable(c.L, t.disk);
    assert !c.L.IsHome(b);
    BwriteOutsideHome(c.L, s, b, data, s.lh, Logging(i + 1));
  }

  // -- the header write commits: what recovery would leave becomes what readers see

  lemma {:induction false} HeadWriteKeepsInv(c: Config, s: State)
    requires c.Valid() && Inv(c, s) && s.phase == Logging(|s.lh|)
    ensures Inv(c, WriteHead(c, s, s.lh, Installing(0)))
  {
    hide HeadBlocks, HeadN, HeadBlock, Word, InstallN, Unspent;
    var data := HeadBlock(View(s, c.L.start), s.lh);
    var t := WriteHead(c, s, s.lh, Installing(0));
    assert DiskInv(c, t) && HeadBlocks(t.disk[c.L.start]) == s.lh by { HeadRoundTrip(View(s, c.L.start), s.lh); }
    assert CacheInv(c, t) by {
      LogBlockIsClean(c, s, c.L.start);
      BwriteKeepsCache(c, s, c.L.start, data, s.lh, Installing(0));
    }
    assert OpsInv(c, t) by { BwriteKeepsOps(c, s, c.L.start, data, s.lh, Installing(0)); }
    assert Saved(c.L, t, |t.lh|) by { LogBlockIsClean(c, s, c.L.start); }
  }

  lemma {:induction false} HeadWriteCommits(c: Config, s: State)
    requires c.Valid() && Inv(c, s) && s.phase == Logging(|s.lh|)
    ensures var t := WriteHead(c, s, s.lh, Installing(0));
            && c.L.Wf(t.disk) && DurableHome(c.L, t.disk) == Home(c.L, ViewDisk(s))
            && Home(c.L, ViewDisk(t)) == Home(c.L, ViewDisk(s))
  {
    var data := HeadBlock(View(s, c.L.start), s.lh);
    assert !c.L.IsHome(c.L.start);
    HeadRoundTrip(View(s, c.L.start), s.lh);
    CommittedHome(c, s, data);
    BwriteOutsideHome(c.L, s, c.L.start, data, s.lh, Installing(0));
  }

  lemma {:induction false} CommittedHome(c: Config, s: State, head: Block)
    requires c.Valid() && CacheInv(c, s) && s.ops == map[] && s.phase.Logging?
    requires c.L.Entries(s.lh) && Saved(c.L, s, |s.lh|)
    requires c.L.Wf(s.disk[c.L.start := head]) && HeadBlocks(head) == s.lh
    ensures DurableHome(c.L, s.disk[c.L.start := head]) == Home(c.L, ViewDisk(s))
  {
    forall b: nat | b < c.L.disksize && c.L.IsHome(b)
      ensures Durable(c.L, s.disk[c.L.start := head])[b] == View(s, b)
    {
      CommittedAt(c, s, head, b);
    }
  }

  lemma {:induction false} CommittedAt(c: Config, s: State, head: Block, b: nat)
    requires c.Valid() && CacheInv(c, s) && s.ops == map[] && s.phase.Logging?
    requires c.L.Entries(s.lh) && Saved(c.L, s, |s.lh|)
    requires b < c.L.disksize && c.L.IsHome(b)
    ensures InstallN(c.L, s.disk[c.L.start := head], s.lh, |s.lh|)[b] == View(s, b)
  {
    InstallAt(c.L, s.disk[c.L.start := head], s.lh, |s.lh|, b);
    var i := Slot(s.lh, |s.lh|, b);
    if i >= 0 {
      assert s.disk[c.L.start + 1 + i] == View(s, s.lh[i]);
    } else {
      QuietView(c, s, b);
    }
  }

  // -- a log block is copied home: nothing recovery would leave changes

  lemma {:induction false} InstallOneKeepsDurable(L: Layout, d: Disk, lh: seq<nat>, i: nat)
    requires L.Valid() && L.Wf(d) && HeadBlocks(d[L.start]) == lh && i < |lh|
    ensures var e := d[lh[i] := d[L.start + 1 + i]];
            L.Wf(e) && DurableHome(L, e) == DurableHome(L, d) && e[L.start] == d[L.start]
  {
    hide Word, HeadBlocks;
    assert L.IsHome(lh[i]);
    var e := d[lh[i] := d[L.start + 1 + i]];
    forall b: nat | b < L.disksize && L.IsHome(b) ensures InstallN(L, e, lh, |lh|)[b] == InstallN(L, d, lh, |lh|)[b] {
      InstallOneAt(L, d, lh, i, b);
    }
    assert HeadN(d[L.start]) == |lh| by { HeadLength(d[L.start]); }
  }

  lemma {:induction false} HeadLength(h: Block)
    requires HeadN(h) < WORDS
    ensures |HeadBlocks(h)| == HeadN(h)
  {
  }

  lemma {:induction false} InstallOneAt(L: Layout, d: Disk, lh: seq<nat>, i: nat, b: nat)
    requires L.Valid() && |d| == L.disksize && L.Entries(lh) && i < |lh| && b < L.disksize && L.IsHome(b)
    ensures InstallN(L, d[lh[i] := d[L.start + 1 + i]], lh, |lh|)[b] == InstallN(L, d, lh, |lh|)[b]
  {
    InstallAt(L, d, lh, |lh|, b);
    InstallAt(L, d[lh[i] := d[L.start + 1 + i]], lh, |lh|, b);
    assert L.IsHome(lh[i]);
    var j := Slot(lh, |lh|, b);
    if j >= 0 {
      assert !L.IsHome(L.start + 1 + j);
    }
  }

  lemma {:induction false} CopiedSoFar(L: Layout, d: Disk, lh: seq<nat>, i: nat)
    requires L.Valid() && |d| == L.disksize && L.Entries(lh) && NoDup(lh) && i < |lh| && Copied(L, d, lh, i)
    ensures Copied(L, d[lh[i] := d[L.start + 1 + i]], lh, i + 1)
  {
    assert forall j | 0 <= j < |lh| :: L.IsHome(lh[j]);
    forall j | 0 <= j <= i ensures !L.IsHome(L.start + 1 + j) && (j < i ==> lh[j] != lh[i]) {
    }
  }

  lemma {:induction false} InstallKeepsView(L: Layout, s: State, i: nat, phase: Phase)
    requires L.Valid() && |s.disk| == L.disksize && L.Entries(s.lh) && i < |s.lh| && Saved(L, s, |s.lh|)
    ensures var t := Bwrite(s, s.lh[i], s.disk[L.start + 1 + i], s.lh, phase);
            && Saved(L, t, |t.lh|)
            && forall b: nat | b < L.disksize :: View(t, b) == View(s, b)
  {
    var t := Bwrite(s, s.lh[i], s.disk[L.start + 1 + i], s.lh, phase);
    assert s.disk[L.start + 1 + i] == View(s, s.lh[i]);
    assert L.IsHome(s.lh[i]);
    forall j | 0 <= j < |s.lh| ensures t.disk[L.start + 1 + j] == View(t, t.lh[j]) {
      assert L.IsHome(s.lh[j]) && !L.IsHome(L.start + 1 + j);
    }
  }

  lemma {:induction false} PinnedShrinks(lh: seq<nat>, i: nat)
    requires NoDup(lh) && i < |lh|
    ensures forall x :: x in lh[i + 1..] <==> x in lh[i..] && x != lh[i]
  {
    assert lh[i..] == [lh[i]] + lh[i + 1..];
    assert forall j | i < j < |lh| :: lh[j] != lh[i];
  }

  lemma {:induction false} InstallKeepsCache(c: Config, s: State, i: nat, data: Block)
    requires c.Valid() && CacheInv(c, s) && NoDup(s.lh) && c.L.Entries(s.lh) && s.phase == Installing(i) && i < |s.lh|
    ensures CacheInv(c, Bwrite(s, s.lh[i], data, s.lh, Installing(i + 1)))
  {
    PinnedShrinks(s.lh, i);
    BwriteKeepsCache(c, s, s.lh[i], data, s.lh, Installing(i + 1));
  }

  lemma {:induction false} InstallKeepsInv(c: Config, s: State, i: nat)
    requires c.Valid() && Inv(c, s) && s.phase == Installing(i) && i < |s.lh|
    ensures Inv(c, Bwrite(s, s.lh[i], s.disk[c.L.start + 1 + i], s.lh, Installing(i + 1)))
  {
    hide HeadBlocks, HeadN, HeadBlock, Word, InstallN, Unspent, CacheInv;
    var data := s.disk[c.L.start + 1 + i];
    var t := Bwrite(s, s.lh[i], data, s.lh, Installing(i + 1));
    assert DiskInv(c, t) && t.disk[c.L.start] == s.disk[c.L.start] by { InstallOneKeepsDurable(c.L, s.disk, s.lh, i); }
    assert CacheInv(c, t) by { InstallKeepsCache(c, s, i, data); }
    assert OpsInv(c, t) by { BwriteKeepsOps(c, s, s.lh[i], data, s.lh, Installing(i + 1)); }
    assert Copied(c.L, t.disk, s.lh, i + 1) by { CopiedSoFar(c.L, s.disk, s.lh, i); }
    assert Saved(c.L, t, |t.lh|) by { InstallKeepsView(c.L, s, i, Installing(i + 1)); }
  }

  lemma {:induction false} InstallKeepsHome(c: Config, s: State, i: nat)
    requires c.Valid() && DiskInv(c, s) && c.L.Entries(s.lh) && Saved(c.L, s, |s.lh|)
    requires HeadBlocks(s.disk[c.L.start]) == s.lh && i < |s.lh|
    ensures var t := Bwrite(s, s.lh[i], s.disk[c.L.start + 1 + i], s.lh, Installing(i + 1));
            && c.L.Wf(t.disk) && DurableHome(c.L, t.disk) == DurableHome(c.L, s.disk)
            && Home(c.L, ViewDisk(t)) == Home(c.L, ViewDisk(s))
  {
    InstallOneKeepsDurable(c.L, s.disk, s.lh, i);
    InstallKeepsView(c.L, s, i, Installing(i + 1));
  }

  // -- with every log block home, clearing the header changes nothing for recovery

  lemma {:induction false} ClearKeepsDurable(L: Layout, d: Disk)
    requires L.Valid() && L.Wf(d)
    requires Copied(L, d, HeadBlocks(d[L.start]), HeadN(d[L.start]))
    ensures var e := d[L.start := HeadBlock(d[L.start], [])];
            && L.Wf(e) && HeadBlocks(e[L.start]) == []
            && DurableHome(L, e) == DurableHome(L, d) == Home(L, d)
  {
    var e := d[L.start := HeadBlock(d[L.start], [])];
    HeadRoundTrip(d[L.start], []);
    EmptyLogIsDurable(L, e);
    var blocks := HeadBlocks(d[L.start]);
    forall b: nat | b < L.disksize && L.IsHome(b) ensures Durable(L, d)[b] == d[b] {
      InstallAt(L, d, blocks, |blocks|, b);
    }
  }

  lemma {:induction false} EraseKeepsInv(c: Config, s: State)
    requires c.Valid() && Inv(c, s) && s.phase == Installing(|s.lh|)
    ensures Inv(c, WriteHead(c, s, [], Erased))
  {
    var data := HeadBlock(View(s, c.L.start), []);
    LogBlockIsClean(c, s, c.L.start);
    ClearKeepsDurable(c.L, s.disk);
    BwriteKeepsCache(c, s, c.L.start, data, [], Erased);
    BwriteKeepsOps(c, s, c.L.start, data, [], Erased);
  }

  lemma {:induction false} EraseKeepsHome(c: Config, s: State)
    requires c.Valid() && Inv(c, s) && s.phase == Installing(|s.lh|)
    ensures var t := WriteHead(c, s, [], Erased);
            && c.L.Wf(t.disk) && DurableHome(c.L, t.disk) == DurableHome(c.L, s.disk)
            && Home(c.L, ViewDisk(t)) == Home(c.L, ViewDisk(s))
  {
    LogBlockIsClean(c, s, c.L.start);
    ClearKeepsDurable(c.L, s.disk);
    assert !c.L.IsHome(c.L.start);
    BwriteOutsideHome(c.L, s, c.L.start, HeadBlock(View(s, c.L.start), []), [], Erased);
  }

  lemma {:induction false} FinishKeepsInv(c: Config, s: State)
    requires c.Valid() && Inv(c, s) && s.phase == Erased
    ensures Inv(c, s.(committing := false, phase := Running))
  {
  }

  // -- recovery

  lemma {:induction false} ReadHeadKeepsInv(c: Config, s: State)
    requires c.Valid() && Inv(c, s) && s.phase == Booting
    ensures Inv(c, s.(lh := HeadBlocks(s.disk[c.L.start]), phase := Reinstalling(0)))
  {
  }

  lemma {:induction false} ReinstallKeepsInv(c: Config, s: State, i: nat)
    requires c.Valid() && Inv(c, s) && s.phase == Reinstalling(i) && i < |s.lh|
    ensures var t := Bwrite(s, s.lh[i], s.disk[c.L.start + 1 + i], s.lh, Reinstalling(i + 1));
            Inv(c, t) && DurableHome(c.L, t.disk) == DurableHome(c.L, s.disk)
  {
    hide HeadBlocks, HeadN, HeadBlock, Word, InstallN, Unspent, CacheInv;
    var data := s.disk[c.L.start + 1 + i];
    var t := Bwrite(s, s.lh[i], data, s.lh, Reinstalling(i + 1));
    InstallOneKeepsDurable(c.L, s.disk, s.lh, i);
    assert CacheInv(c, t) by { BwriteKeepsCache(c, s, s.lh[i], data, s.lh, Reinstalling(i + 1)); }
    assert OpsInv(c, t) by { BwriteKeepsOps(c, s, s.lh[i], data, s.lh, Reinstalling(i + 1)); }
    assert Copied(c.L, t.disk, s.lh, i + 1) by { CopiedSoFar(c.L, s.disk, s.lh, i); }
  }

  lemma {:induction false} FinishRecoveryKeepsInv(c: Config, s: State)
    requires c.Valid() && Inv(c, s) && s.phase == Reinstalling(|s.lh|)
    ensures var t := WriteHead(c, s, [], Running);
            Inv(c, t) && DurableHome(c.L, t.disk) == DurableHome(c.L, s.disk)
  {
    var data := HeadBlock(View(s, c.L.start), []);
    LogBlockIsClean(c, s, c.L.start);
    ClearKeepsDurable(c.L, s.disk);
    BwriteKeepsCache(c, s, c.L.start, data, [], Running);
    BwriteKeepsOps(c, s, c.L.start, data, [], Running);
  }

  /** With nothing logged and no call under way, readers see what is durable. */
  lemma {:induction false} QuietIsDurable(c: Config, s: State)
    requires c.Valid() && CacheInv(c, s) && DiskInv(c, s) && HeadBlocks(s.disk[c.L.start]) == []
    requires s.ops == map[] && Pinned(s) == []
    ensures Home(c.L, ViewDisk(s)) == DurableHome(c.L, s.disk)
  {
    forall b: nat | b < c.L.disksize ensures View(s, b) == s.disk[b] {
      QuietView(c, s, b);
    }
    EmptyLogIsDurable(c.L, s.disk);
  }
}
