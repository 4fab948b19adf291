/** log.c as it runs: the in-memory log header, the buffers it reads through, and the
    disk it writes. `trace` is ghost: every disk there has been, one per disk write,
    which is what a crash can leave behind. */
module LogDevice {
  import opened Blocks
  import opened LogDisk

  /** Recording a block number, with absorption. */
  function Absorb(blocks: seq<nat>, b: nat): seq<nat> {
    if b in blocks then blocks else blocks + [b]
  }

  /** begin_op's test for room and for no commit in progress. */
  predicate Admits(n: nat, outstanding: int, committing: bool) {
    !committing && n + (outstanding + 1) * MAXOPBLOCKS <= LOGSIZE
  }

  /** log_write's size test. */
  predicate Full(n: nat, size: nat) {
    n >= LOGSIZE || n >= size - 1
  }

  /** The disks write_log, install_trans, commit and recovery pass through. */
  function LogWrites(L: Layout, d: Disk, view: Disk, blocks: seq<nat>, k: nat): seq<Disk>
    requires L.Valid() && L.Entries(blocks) && |d| == |view| == L.disksize && k <= |blocks|
  {
    seq(k, i requires 0 <= i < k => LogN(L, d, view, blocks, i + 1))
  }

  function InstallWrites(L: Layout, d: Disk, blocks: seq<nat>, k: nat): seq<Disk>
    requires L.Valid() && L.Entries(blocks) && |d| == L.disksize && k <= |blocks|
  {
    seq(k, i requires 0 <= i < k => InstallN(L, d, blocks, i + 1))
  }

  function CommitWrites(L: Layout, d: Disk, view: Disk, blocks: seq<nat>): seq<Disk>
    requires L.Valid() && L.Entries(blocks) && |d| == |view| == L.disksize
  {
    seq(2 * |blocks| + 2, i requires 0 <= i < 2 * |blocks| + 2 => CommitDisk(L, d, view, blocks, i + 1))
  }

  function RecoverWrites(L: Layout, d: Disk): seq<Disk>
    requires L.Valid() && L.Wf(d)
  {
    seq(HeadN(d[L.start]) + 1, i requires 0 <= i < HeadN(d[L.start]) + 1 => RecoverDisk(L, d, i + 1))
  }

  /** What has been written up to the header, and what is left to do. */
  lemma {:induction false} AfterHead(L: Layout, d: Disk, view: Disk, blocks: seq<nat>, e: Disk, trace: seq<Disk>)
    requires L.Valid() && L.Entries(blocks) && |d| == |view| == L.disksize && e == HeadWritten(L, d, view, blocks)
    ensures L.Wf(e) && HeadBlocks(e[L.start]) == blocks && HeadN(e[L.start]) == |blocks|
    ensures trace + LogWrites(L, d, view, blocks, |blocks|) + [e] + RecoverWrites(L, e) ==
            trace + CommitWrites(L, d, view, blocks)
    ensures var f := RecoverDisk(L, e, |blocks| + 1);
            HeadN(f[L.start]) == 0 && L.SameHome(f, Updated(d, view, blocks))
  {
    hide HeadWritten, LogWrites, RecoverWrites, CommitWrites, RecoverDisk, Updated, Durable, HeadBlock;
    AtHeadWrite(L, d, view, blocks);
    CommitWritesParts(L, d, view, blocks, e);
    Regroup(trace, LogWrites(L, d, view, blocks, |blocks|), [e], RecoverWrites(L, e));
    RecoveryKeepsDurable(L, e, |blocks| + 1);
  }

  /** What a reader sees through the cache. */
  function Through(disk: Disk, cache: map<nat, Block>): Disk {
    seq(|disk|, b requires 0 <= b < |disk| => if b in cache then cache[b] else disk[b])
  }

  lemma {:induction false} InstallStep(view: Disk, disk: Disk, blocks: seq<nat>, k: nat, data: Block)
    requires |view| == |disk| && k < |blocks| && blocks[k] < |disk|
    ensures Updated(view, disk, blocks[..k])[blocks[k] := data]
         == Updated(view, disk[blocks[k] := data], blocks[..k + 1])
    ensures SetOf(blocks[..k + 1]) == SetOf(blocks[..k]) + {blocks[k]}
  {
    assert blocks[..k + 1] == blocks[..k] + [blocks[k]];
  }

  lemma {:induction false} InstallWritesStep(L: Layout, d: Disk, blocks: seq<nat>, k: nat)
    requires L.Valid() && L.Entries(blocks) && |d| == L.disksize && k < |blocks|
    ensures InstallWrites(L, d, blocks, k + 1) == InstallWrites(L, d, blocks, k) + [InstallN(L, d, blocks, k + 1)]
  {
  }

  lemma {:induction false} LogWritesStep(L: Layout, d: Disk, view: Disk, blocks: seq<nat>, k: nat)
    requires L.Valid() && L.Entries(blocks) && |d| == |view| == L.disksize && k < |blocks|
    ensures LogWrites(L, d, view, blocks, k + 1) == LogWrites(L, d, view, blocks, k) + [LogN(L, d, view, blocks, k + 1)]
  {
  }

  /** After its header write, commit writes what recovery would. */
  lemma {:induction false} CommitTail(L: Layout, d: Disk, view: Disk, blocks: seq<nat>, k: nat)
    requires L.Valid() && L.Entries(blocks) && |d| == |view| == L.disksize && k <= |blocks| + 1
    ensures var e := HeadWritten(L, d, view, blocks);
            && L.Wf(e) && HeadBlocks(e[L.start]) == blocks
            && CommitDisk(L, d, view, blocks, |blocks| + 1 + k) == RecoverDisk(L, e, k)
  {
    AtHeadWrite(L, d, view, blocks);
  }

  lemma {:induction false} CommitWritesParts(L: Layout, d: Disk, view: Disk, blocks: seq<nat>, e: Disk)
    requires L.Valid() && L.Entries(blocks) && |d| == |view| == L.disksize
    requires e == HeadWritten(L, d, view, blocks)
    ensures L.Wf(e) && HeadBlocks(e[L.start]) == blocks
    ensures CommitWrites(L, d, view, blocks)
         == LogWrites(L, d, view, blocks, |blocks|) + [e] + RecoverWrites(L, e)
  {
    hide HeadBlock, PutEntries, Word, LogN;
    CommitTail(L, d, view, blocks, 0);
    var n := |blocks|;
    var whole, front, back := CommitWrites(L, d, view, blocks), LogWrites(L, d, view, blocks, n), RecoverWrites(L, e);
    forall i | 0 <= i < |whole| ensures whole[i] == (front + [e] + back)[i] {
      if i > n {
        CommitTail(L, d, view, blocks, i - n);
        assert whole[i] == back[i - n - 1];
      }
    }
  }

  /** Once everything is installed, readers still see what they saw before. */
  lemma {:induction false} CommittedView(L: Layout, d: Disk, view: Disk, blocks: seq<nat>, e: Disk, mid: Disk,
                                         after: Disk)
    requires L.Valid() && L.Entries(blocks) && |d| == |view| == |mid| == |after| == L.disksize
    requires L.SameHome(mid, view) && L.SameHome(e, Updated(d, view, blocks))
    requires L.SameHome(after, Updated(mid, e, blocks))
    ensures L.SameHome(after, view)
  {
  }

  lemma {:induction false} RecoverWritesParts(L: Layout, d: Disk)
    requires L.Valid() && L.Wf(d)
    ensures var blocks := HeadBlocks(d[L.start]);
            RecoverWrites(L, d) == InstallWrites(L, d, blocks, |blocks|)
            + [InstallN(L, d, blocks, |blocks|)[L.start := HeadBlock(d[L.start], [])]]
  {
  }

  lemma {:induction false} Regroup<T>(a: seq<T>, b: seq<T>, c: seq<T>, d: seq<T>)
    ensures a + b + c + d == a + (b + c + d)
  {
  }

  function SetOf(blocks: seq<nat>): set<nat> { set b | b in blocks }

  lemma {:induction false} NothingLogged(d: Disk, view: Disk)
    requires |d| == |view|
    ensures Updated(d, view, []) == d && SetOf([]) == {}
  {
  }

  datatype EndOutcome = PanicCommitting | MustCommit | WakeWaiters
  datatype WriteOutcome = PanicTooBig | PanicOutsideTransaction | Logged

  class Log {
    const L: Layout
    var disk: Disk
    var cache: map<nat, Block>
    var dirty: set<nat>
    var n: nat
    var block: seq<nat>
    var outstanding: int
    var committing: bool
    ghost var trace: seq<Disk>

    ghost predicate Valid()
      reads this
    {
      && L.Valid() && |disk| == L.disksize
      && |block| == LOGSIZE
      && n <= L.Capacity() && L.Entries(block[..n])
      && (forall b | b in cache :: b < L.disksize)
      && dirty <= cache.Keys
      && (forall b | b in cache && b !in dirty :: cache[b] == disk[b])
      && (forall b | b in dirty :: L.IsHome(b))
      && trace != [] && trace[|trace| - 1] == disk
    }

    /** What a reader of each block sees. */
    ghost function View(): (v: Disk)
      reads this
    {
      Through(disk, cache)
    }

    constructor (layout: Layout, image: Disk)
      requires layout.Valid() && |image| == layout.disksize
      ensures Valid() && L == layout && disk == image && trace == [image] && View() == image
      ensures n == 0 && outstanding == 0 && !committing && dirty == {}
    {
      L, disk, cache, dirty := layout, image, map[], {};
      n, outstanding, committing := 0, 0, false;
      block := seq(LOGSIZE, _ => 0);
      trace := [image];
    }

    method Bread(b: nat) returns (data: Block)
      requires Valid() && b < L.disksize
      modifies this`cache
      ensures Valid() && data == old(View())[b] && View() == old(View())
    {
      if b !in cache {
        cache := cache[b := disk[b]];
      }
      data := cache[b];
    }

    method Bwrite(b: nat, data: Block)
      requires Valid() && b < L.disksize
      modifies this`disk, this`cache, this`dirty, this`trace
      ensures Valid() && disk == old(disk)[b := data] && trace == old(trace) + [disk]
      ensures dirty == old(dirty) - {b} && View() == old(View())[b := data]
    {
      disk := disk[b := data];
      cache := cache[b := data];
      dirty := dirty - {b};
      trace := trace + [disk];
    }

    /** One pass of write_log's loop; the home blocks read as in `view`. */
    method LogOne(tail: nat, ghost view: Disk)
      requires Valid() && tail < n && L.SameHome(View(), view)
      modifies this`disk, this`cache, this`dirty, this`trace
      ensures Valid() && dirty == old(dirty) && L.SameHome(View(), view)
      ensures block[tail] < |view| && disk == old(disk)[L.start + tail + 1 := view[block[tail]]]
      ensures trace == old(trace) + [disk]
    {
      assert L.IsHome(block[..n][tail]);
      assert !L.IsHome(L.start + tail + 1);
      var from := Bread(block[tail]);
      Bwrite(L.start + tail + 1, from);
    }

    method WriteLog()
      requires Valid()
      modifies this`disk, this`cache, this`dirty, this`trace
      ensures Valid() && dirty == old(dirty)
      ensures disk == LogN(L, old(disk), old(View()), block[..n], n)
      ensures trace == old(trace) + LogWrites(L, old(disk), old(View()), block[..n], n)
      ensures L.SameHome(View(), old(View()))
    {
      ghost var d, view, blocks := disk, View(), block[..n];
      for tail := 0 to n
        invariant Valid() && dirty == old(dirty)
        invariant disk == LogN(L, d, view, blocks, tail)
        invariant trace == old(trace) + LogWrites(L, d, view, blocks, tail)
        invariant L.SameHome(View(), view)
      {
        LogOne(tail, view);
        LogWritesStep(L, d, view, blocks, tail);
      }
    }

    method WriteHead()
      requires Valid()
      modifies this`disk, this`cache, this`dirty, this`trace
      ensures Valid() && dirty == old(dirty)
      ensures disk == old(disk)[L.start := HeadBlock(old(disk)[L.start], block[..n])]
      ensures trace == old(trace) + [disk]
      ensures View() == old(View())[L.start := disk[L.start]]
    {
      var hb := Bread(L.start);
      assert !L.IsHome(L.start);
      assert hb == disk[L.start];
      ghost var h := hb;
      hb := SetWord(hb, 0, n);
      for i := 0 to n
        invariant Valid() && hb == PutEntries(SetWord(h, 0, n), block[..n], i)
      {
        assert L.IsHome(block[..n][i]);
        hb := SetWord(hb, i + 1, block[i]);
      }
      Bwrite(L.start, hb);
    }

    /** One pass of install_trans's loop. */
    method InstallOne(tail: nat)
      requires Valid() && tail < n
      modifies this`disk, this`cache, this`dirty, this`trace
      ensures Valid() && disk == old(disk)[block[tail] := old(disk)[L.start + tail + 1]]
      ensures trace == old(trace) + [disk] && dirty == old(dirty) - {block[tail]}
      ensures View() == old(View())[block[tail] := disk[block[tail]]]
    {
      assert L.IsHome(block[..n][tail]);
      assert !L.IsHome(L.start + tail + 1);
      var lbuf := Bread(L.start + tail + 1);
      var dbuf := Bread(block[tail]);
      dbuf := lbuf;
      Bwrite(block[tail], dbuf);
    }

    method InstallTrans()
      requires Valid()
      modifies this`disk, this`cache, this`dirty, this`trace
      ensures Valid()
      ensures disk == InstallN(L, old(disk), block[..n], n)
      ensures trace == old(trace) + InstallWrites(L, old(disk), block[..n], n)
      ensures dirty == old(dirty) - SetOf(block[..n])
      ensures View() == Updated(old(View()), disk, block[..n])
    {
      ghost var d, view, blocks := disk, View(), block[..n];
      for tail := 0 to n
        invariant Valid() && block[..n] == blocks
        invariant disk == InstallN(L, d, blocks, tail)
        invariant trace == old(trace) + InstallWrites(L, d, blocks, tail)
        invariant dirty == old(dirty) - SetOf(blocks[..tail])
        invariant View() == Updated(view, disk, blocks[..tail])
      {
        InstallStep(view, disk, blocks, tail, disk[L.start + tail + 1]);
        InstallWritesStep(L, d, blocks, tail);
        InstallOne(tail);
      }
      assert blocks[..n] == blocks;
    }

    /** What commit does after its header write, and recovery after reading the header. */
    method InstallAndClear()
      requires Valid() && L.Wf(disk) && block[..n] == HeadBlocks(disk[L.start])
      modifies this`disk, this`cache, this`dirty, this`trace, this`n
      ensures Valid() && n == 0
      ensures disk == RecoverDisk(L, old(disk), old(n) + 1)
      ensures trace == old(trace) + RecoverWrites(L, old(disk))
      ensures dirty == old(dirty) - SetOf(old(block[..n]))
      ensures L.SameHome(View(), Updated(old(View()), disk, old(block[..n])))
    {
      hide HeadBlock, PutEntries, Word, InstallWrites, RecoverWrites;
      ghost var d, blocks := disk, block[..n];
      InstallTrans();
      assert disk[L.start] == d[L.start] by {
        assert !L.IsHome(L.start);
        InstallAt(L, d, blocks, n, L.start);
      }
      n := 0;
      assert block[..n] == [];
      WriteHead();
      RecoverWritesParts(L, d);
      Regroup(old(trace), InstallWrites(L, d, blocks, |blocks|), [], [disk]);
    }

    /** Every write of commit, in order; afterwards the log is empty and every logged
        block is on the disk as readers saw it. */
    method Commit()
      requires Valid() && HeadN(disk[L.start]) == 0
      modifies this`disk, this`cache, this`dirty, this`trace, this`n
      ensures Valid() && n == 0 && HeadN(disk[L.start]) == 0
      ensures trace == old(trace) + if old(n) == 0 then [] else
                       CommitWrites(L, old(disk), old(View()), old(block[..n]))
      ensures L.SameHome(View(), old(View()))
      ensures L.SameHome(disk, Updated(old(disk), old(View()), old(block[..n])))
      ensures dirty == old(dirty) - SetOf(old(block[..n]))
    {
      hide HeadBlock, PutEntries, Word, InstallN, LogN, RecoverDisk, CommitDisk;
      hide CommitWrites, RecoverWrites, LogWrites, InstallWrites, Updated, SetOf;
      ghost var d, view, blocks := disk, View(), block[..n];
      NothingLogged(d, view);
      if n > 0 {
        WriteLog();
        assert disk[L.start] == d[L.start] by { LogAt(L, d, view, blocks, n, L.start); }
        WriteHead();
        ghost var e, mid := disk, View();
        AfterHead(L, d, view, blocks, e, old(trace));
        InstallAndClear();
        CommittedView(L, d, view, blocks, disk, mid, View());
      }
    }

    /** A reboot: memory is lost, then every write of recovery, in order. */
    method RecoverFromLog()
      requires Valid() && L.Wf(disk) && n == 0 && cache == map[] && dirty == {}
      modifies this`disk, this`cache, this`dirty, this`trace, this`n, this`block
      ensures Valid() && n == 0 && HeadN(disk[L.start]) == 0 && dirty == {}
      ensures trace == old(trace) + RecoverWrites(L, old(disk))
      ensures L.SameHome(disk, Durable(L, old(disk)))
    {
      ReadHead();
      RecoveryKeepsDurable(L, disk, n + 1);
      InstallAndClear();
    }

    method ReadHead()
      requires Valid() && L.Wf(disk) && L.start !in dirty
      modifies this`cache, this`n, this`block
      ensures Valid() && View() == old(View())
      ensures n == HeadN(disk[L.start]) && block[..n] == HeadBlocks(disk[L.start])
    {
      n := 0;
      assert block[..n] == [];
      var buf := Bread(L.start);
      ghost var blocks := HeadBlocks(buf);
      var count := Word(buf, 0);
      for i := 0 to count
        invariant Valid() && n == 0 && View() == old(View()) && buf == disk[L.start]
        invariant block[..i] == blocks[..i]
      {
        block := block[i := Word(buf, i + 1)];
        assert block[..n] == [];
      }
      n := count;
      assert block[..n] == blocks;
    }

    /** One pass of begin_op's loop under the lock: admitted, or back to sleep. A call that is
        let in can list MAXOPBLOCKS blocks without touching what the others were promised; one
        that is not could not have been promised as much. */
    method BeginOp() returns (admitted: bool)
      modifies this`outstanding
      ensures admitted ==>
                && !committing && outstanding == old(outstanding) + 1
                && n + outstanding * MAXOPBLOCKS <= LOGSIZE
                && (n + MAXOPBLOCKS) + old(outstanding) * MAXOPBLOCKS <= LOGSIZE
      ensures !admitted ==>
                outstanding == old(outstanding) && (committing || n + (outstanding + 1) * MAXOPBLOCKS > LOGSIZE)
    {
      if committing {
        admitted := false;
      } else if n + (outstanding + 1) * MAXOPBLOCKS > LOGSIZE {
        admitted := false;
      } else {
        outstanding := outstanding + 1;
        admitted := true;
      }
    }

    /** end_op up to the release of the lock. The last call out must commit, and until it has
        nobody is admitted; any other frees its reservation, so that a waiter it wakes gets in. */
    method EndOp() returns (r: EndOutcome)
      modifies this`outstanding, this`committing
      ensures outstanding == old(outstanding) - 1 && (r == PanicCommitting <==> old(committing))
      ensures n + old(outstanding) * MAXOPBLOCKS <= LOGSIZE ==> n + outstanding * MAXOPBLOCKS <= LOGSIZE
      ensures r == PanicCommitting ==> committing
      ensures r == MustCommit ==> outstanding == 0 && forall m: nat, calls: int :: !Admits(m, calls, committing)
      ensures r == WakeWaiters ==>
                && outstanding != 0 && !committing
                && (n + old(outstanding) * MAXOPBLOCKS <= LOGSIZE ==> Admits(n, outstanding, committing))
    {
      outstanding := outstanding - 1;
      if committing {
        return PanicCommitting;
      }
      if outstanding == 0 {
        committing := true;
        r := MustCommit;
      } else {
        r := WakeWaiters;
      }
    }

    /** The caller has changed `b`'s buffer to `data`; record it in the transaction. */
    method LogWrite(b: nat, data: Block) returns (r: WriteOutcome)
      requires Valid() && L.IsHome(b)
      modifies this`cache, this`dirty, this`n, this`block
      ensures Valid()
      ensures r == PanicTooBig <==> old(n) >= LOGSIZE || old(n) >= L.size - 1
      ensures r == Logged <==> old(n) < LOGSIZE && old(n) < L.size - 1 && outstanding >= 1
      ensures r == Logged ==>
                && block[..n] == Absorb(old(block[..n]), b)
                && (b in old(block[..n]) ==> block[..n] == old(block[..n]))
                && (b !in old(block[..n]) ==> block[..n] == old(block[..n]) + [b])
                && dirty == old(dirty) + {b}
                && View() == old(View())[b := data]
      ensures r != Logged ==>
                block[..n] == old(block[..n]) && dirty == old(dirty) && View() == old(View())
    {
      if n >= LOGSIZE || n >= L.size - 1 {
        return PanicTooBig;
      }
      if outstanding < 1 {
        return PanicOutsideTransaction;
      }
      ghost var blocks := block[..n];
      var i := 0;
      while i < n && block[i] != b
        invariant i <= n && b !in blocks[..i]
      {
        assert blocks[..i + 1] == blocks[..i] + [blocks[i]];
        i := i + 1;
      }
      block := block[i := b];
      if i == n {
        assert blocks[..i] == blocks;
        n := n + 1;
        assert block[..n] == blocks + [b];
      } else {
        assert b == blocks[i];
        assert block[..n] == blocks;
      }
      cache := cache[b := data];
      dirty := dirty + {b};
      r := Logged;
    }
  }
}
