/** The on-disk redo log of log.c: what one commit writes, in order, what recovery
    writes, in order, and what is left on the disk wherever a crash cuts them short. */
module LogDisk {
  import opened Blocks

  type Disk = seq<Block>

  /** Where the log lies (`log.start`, `log.size`) on a disk of `disksize` blocks. */
  datatype Layout = Layout(start: nat, size: nat, disksize: nat) {
    predicate Valid() {
      1 <= size && start + size <= disksize < 0x1_0000_0000
    }

    /** A block outside the log. */
    predicate IsHome(b: int) {
      0 <= b < disksize && !(start <= b < start + size)
    }

    /** The most entries log_write lets the header list. */
    function Capacity(): nat
      requires Valid()
    {
      if size - 1 < LOGSIZE then size - 1 else LOGSIZE
    }

    predicate Entries(blocks: seq<nat>)
      requires Valid()
    {
      |blocks| <= Capacity() && forall i | 0 <= i < |blocks| :: IsHome(blocks[i])
    }

    predicate Wf(d: Disk)
      requires Valid()
    {
      |d| == disksize && HeadN(d[start]) < WORDS && Entries(HeadBlocks(d[start]))
    }

    ghost predicate SameHome(d: Disk, e: Disk) {
      |d| == |e| == disksize && forall b | IsHome(b) :: d[b] == e[b]
    }
  }

  // ---- The header block -------------------------------------------------

  function HeadN(h: Block): nat { Word(h, 0) }

  function HeadBlocks(h: Block): seq<nat>
    requires HeadN(h) < WORDS
  {
    seq(HeadN(h), i requires 0 <= i < HeadN(h) => Word(h, i + 1))
  }

  function PutEntries(h: Block, blocks: seq<nat>, k: nat): Block
    requires k <= |blocks| < WORDS
    requires forall i | 0 <= i < |blocks| :: blocks[i] < 0x1_0000_0000
  {
    if k == 0 then h else SetWord(PutEntries(h, blocks, k - 1), k, blocks[k - 1])
  }

  /** What write_head stores: the count and the entries, over the old header block. */
  function HeadBlock(h: Block, blocks: seq<nat>): Block
    requires |blocks| < WORDS
    requires forall i | 0 <= i < |blocks| :: blocks[i] < 0x1_0000_0000
  {
    PutEntries(SetWord(h, 0, |blocks|), blocks, |blocks|)
  }

  lemma {:induction false} PutEntriesWords(h: Block, blocks: seq<nat>, k: nat)
    requires k <= |blocks| < WORDS
    requires forall i | 0 <= i < |blocks| :: blocks[i] < 0x1_0000_0000
    ensures Word(PutEntries(h, blocks, k), 0) == Word(h, 0)
    ensures forall i | 0 <= i < k :: Word(PutEntries(h, blocks, k), i + 1) == blocks[i]
  {
    if k > 0 {
      PutEntriesWords(h, blocks, k - 1);
      WordOfSetWord(PutEntries(h, blocks, k - 1), k, blocks[k - 1]);
    }
  }

  /** Reading back a header gives exactly the block numbers that were written. */
  lemma {:induction false} HeadRoundTrip(h: Block, blocks: seq<nat>)
    requires |blocks| < WORDS
    requires forall i | 0 <= i < |blocks| :: blocks[i] < 0x1_0000_0000
    ensures HeadN(HeadBlock(h, blocks)) == |blocks|
    ensures HeadBlocks(HeadBlock(h, blocks)) == blocks
    ensures Word(HeadBlock(h, blocks), 0) == |blocks|
    ensures forall i | 0 <= i < |blocks| :: Word(HeadBlock(h, blocks), i + 1) == blocks[i]
  {
    WordOfSetWord(h, 0, |blocks|);
    PutEntriesWords(SetWord(h, 0, |blocks|), blocks, |blocks|);
  }

  // ---- Copying to and from the log ---------------------------------------

  /** The disk once install_trans has copied the first `k` log blocks home. */
  function InstallN(L: Layout, d: Disk, blocks: seq<nat>, k: nat): Disk
    requires L.Valid() && L.Entries(blocks) && k <= |blocks| && |d| == L.disksize
    ensures |InstallN(L, d, blocks, k)| == L.disksize
  {
    if k == 0 then d else
    var e := InstallN(L, d, blocks, k - 1);
    e[blocks[k - 1] := e[L.start + k]]
  }

  /** The last of the first `k` entries that names `b`, or -1. */
  function Slot(blocks: seq<nat>, k: nat, b: nat): (i: int)
    requires k <= |blocks|
    ensures -1 <= i < k
    ensures i >= 0 ==> blocks[i] == b
    ensures i < 0 ==> forall j | 0 <= j < k :: blocks[j] != b
  {
    if k == 0 then -1 else if blocks[k - 1] == b then k - 1 else Slot(blocks, k - 1, b)
  }

  lemma {:induction false} InstallAt(L: Layout, d: Disk, blocks: seq<nat>, k: nat, b: nat)
    requires L.Valid() && L.Entries(blocks) && k <= |blocks| && |d| == L.disksize && b < L.disksize
    ensures InstallN(L, d, blocks, k)[b] ==
            if Slot(blocks, k, b) >= 0 then d[L.start + 1 + Slot(blocks, k, b)] else d[b]
  {
    if k > 0 {
      InstallAt(L, d, blocks, k - 1, b);
      InstallAt(L, d, blocks, k - 1, L.start + k);
      assert !L.IsHome(L.start + k);
    }
  }

  /** The disk once write_log has copied the first `k` cached blocks into the log. */
  function LogN(L: Layout, d: Disk, view: Disk, blocks: seq<nat>, k: nat): Disk
    requires L.Valid() && L.Entries(blocks) && k <= |blocks| && |d| == |view| == L.disksize
    ensures |LogN(L, d, view, blocks, k)| == L.disksize
  {
    if k == 0 then d else LogN(L, d, view, blocks, k - 1)[L.start + k := view[blocks[k - 1]]]
  }

  lemma {:induction false} LogAt(L: Layout, d: Disk, view: Disk, blocks: seq<nat>, k: nat, b: nat)
    requires L.Valid() && L.Entries(blocks) && k <= |blocks| && |d| == |view| == L.disksize && b < L.disksize
    ensures LogN(L, d, view, blocks, k)[b] ==
            if L.start < b <= L.start + k then view[blocks[b - L.start - 1]] else d[b]
  {
    if k > 0 {
      LogAt(L, d, view, blocks, k - 1, b);
    }
  }

  // ---- Commit and recovery, write by write ---------------------------------

  /** The disk right after the header write that commits. */
  function HeadWritten(L: Layout, d: Disk, view: Disk, blocks: seq<nat>): Disk
    requires L.Valid() && L.Entries(blocks) && |d| == |view| == L.disksize
    ensures |HeadWritten(L, d, view, blocks)| == L.disksize
  {
    LogN(L, d, view, blocks, |blocks|)[L.start := HeadBlock(d[L.start], blocks)]
  }

  /** The disk after the first `k` of the `2n+2` writes of commit. */
  function CommitDisk(L: Layout, d: Disk, view: Disk, blocks: seq<nat>, k: nat): Disk
    requires L.Valid() && L.Entries(blocks) && |d| == |view| == L.disksize
    requires k <= 2 * |blocks| + 2
    ensures |CommitDisk(L, d, view, blocks, k)| == L.disksize
  {
    var n := |blocks|;
    if k <= n then LogN(L, d, view, blocks, k) else
    var e := HeadWritten(L, d, view, blocks);
    if k <= 2 * n + 1 then InstallN(L, e, blocks, k - n - 1)
    else InstallN(L, e, blocks, n)[L.start := HeadBlock(e[L.start], [])]
  }

  /** The disk after the first `k` of the writes of recover_from_log. */
  function RecoverDisk(L: Layout, d: Disk, k: nat): Disk
    requires L.Valid() && L.Wf(d) && k <= HeadN(d[L.start]) + 1
    ensures |RecoverDisk(L, d, k)| == L.disksize
  {
    var blocks := HeadBlocks(d[L.start]);
    if k <= |blocks| then InstallN(L, d, blocks, k)
    else InstallN(L, d, blocks, |blocks|)[L.start := HeadBlock(d[L.start], [])]
  }

  /** The home blocks a completed recovery would leave behind. */
  function Durable(L: Layout, d: Disk): Disk
    requires L.Valid() && L.Wf(d)
    ensures |Durable(L, d)| == L.disksize
  {
    InstallN(L, d, HeadBlocks(d[L.start]), HeadN(d[L.start]))
  }

  /** `d` with the listed blocks taken from `view`. */
  function Updated(d: Disk, view: Disk, blocks: seq<nat>): Disk
    requires |view| == |d|
  {
    seq(|d|, b requires 0 <= b < |d| => if b in blocks then view[b] else d[b])
  }

  lemma {:induction false} EmptyLogIsDurable(L: Layout, d: Disk)
    requires L.Valid() && |d| == L.disksize && HeadN(d[L.start]) == 0
    ensures L.Wf(d) && Durable(L, d) == d
  {
  }

  lemma {:induction false} BeforeHeadWrite(L: Layout, d: Disk, view: Disk, blocks: seq<nat>, k: nat)
    requires L.Valid() && L.Entries(blocks) && |d| == |view| == L.disksize
    requires HeadN(d[L.start]) == 0 && k <= |blocks|
    ensures L.Wf(LogN(L, d, view, blocks, k))
    ensures L.SameHome(Durable(L, LogN(L, d, view, blocks, k)), d)
  {
    LogAt(L, d, view, blocks, k, L.start);
    EmptyLogIsDurable(L, LogN(L, d, view, blocks, k));
    forall b | L.IsHome(b) ensures LogN(L, d, view, blocks, k)[b] == d[b] {
      LogAt(L, d, view, blocks, k, b);
    }
  }

  /** Once the header is written the log holds exactly the new blocks. */
  lemma {:induction false} AtHeadWrite(L: Layout, d: Disk, view: Disk, blocks: seq<nat>)
    requires L.Valid() && L.Entries(blocks) && |d| == |view| == L.disksize
    ensures L.Wf(HeadWritten(L, d, view, blocks))
    ensures HeadBlocks(HeadWritten(L, d, view, blocks)[L.start]) == blocks
    ensures L.SameHome(Durable(L, HeadWritten(L, d, view, blocks)), Updated(d, view, blocks))
  {
    var e := HeadWritten(L, d, view, blocks);
    HeadRoundTrip(d[L.start], blocks);
    forall i | 0 <= i < |blocks| ensures e[L.start + 1 + i] == view[blocks[i]] {
      LogAt(L, d, view, blocks, |blocks|, L.start + 1 + i);
    }
    forall b | L.IsHome(b) ensures Durable(L, e)[b] == Updated(d, view, blocks)[b] {
      LogAt(L, d, view, blocks, |blocks|, b);
      InstallPoint(L, d, view, blocks, e, b);
    }
  }

  /** Wherever commit is cut, recovery would leave the old blocks before the header
      write and all the new ones from it on. */
  lemma {:induction false} CommitPoint(L: Layout, d: Disk, view: Disk, blocks: seq<nat>, k: nat)
    requires L.Valid() && L.Entries(blocks) && |d| == |view| == L.disksize
    requires HeadN(d[L.start]) == 0 && k <= 2 * |blocks| + 2
    ensures L.Wf(CommitDisk(L, d, view, blocks, k))
    ensures L.SameHome(Durable(L, CommitDisk(L, d, view, blocks, k)),
                       if k <= |blocks| then d else Updated(d, view, blocks))
    ensures k == 2 * |blocks| + 2 ==> HeadN(CommitDisk(L, d, view, blocks, k)[L.start]) == 0
  {
    if k <= |blocks| {
      BeforeHeadWrite(L, d, view, blocks, k);
    } else {
      AtHeadWrite(L, d, view, blocks);
      // From here on commit writes what recovery would write.
      RecoveryKeepsDurable(L, HeadWritten(L, d, view, blocks), k - |blocks| - 1);
    }
  }

  lemma {:induction false} InstallPoint(L: Layout, d: Disk, view: Disk, blocks: seq<nat>, committed: Disk, b: nat)
    requires L.Valid() && L.Entries(blocks) && |d| == |view| == |committed| == L.disksize && L.IsHome(b)
    requires committed[b] == d[b]
    requires forall i | 0 <= i < |blocks| :: committed[L.start + 1 + i] == view[blocks[i]]
    ensures InstallN(L, committed, blocks, |blocks|)[b] == Updated(d, view, blocks)[b]
  {
    InstallAt(L, committed, blocks, |blocks|, b);
    var i := Slot(blocks, |blocks|, b);
    if i >= 0 {
      assert committed[L.start + 1 + i] == view[blocks[i]];
      assert b in blocks;
    } else {
      assert b !in blocks;
    }
  }

  /** Installing the whole log over a partly installed one changes nothing more. */
  lemma {:induction false} InstallTwice(L: Layout, d: Disk, blocks: seq<nat>, j: nat, b: nat)
    requires L.Valid() && L.Entries(blocks) && j <= |blocks| && |d| == L.disksize && L.IsHome(b)
    ensures InstallN(L, InstallN(L, d, blocks, j), blocks, |blocks|)[b] == InstallN(L, d, blocks, |blocks|)[b]
  {
    var n, e := |blocks|, InstallN(L, d, blocks, j);
    InstallAt(L, d, blocks, n, b);
    InstallAt(L, e, blocks, n, b);
    var i := Slot(blocks, n, b);
    if i >= 0 {
      InstallAt(L, d, blocks, j, L.start + 1 + i);
      assert !L.IsHome(L.start + 1 + i);
    } else {
      InstallAt(L, d, blocks, j, b);
    }
  }

  /** Recovery never changes what a completed recovery would leave behind. */
  lemma {:induction false} RecoveryKeepsDurable(L: Layout, d: Disk, k: nat)
    requires L.Valid() && L.Wf(d) && k <= HeadN(d[L.start]) + 1
    ensures L.Wf(RecoverDisk(L, d, k))
    ensures L.SameHome(Durable(L, RecoverDisk(L, d, k)), Durable(L, d))
    ensures k == HeadN(d[L.start]) + 1 ==>
              HeadN(RecoverDisk(L, d, k)[L.start]) == 0 && L.SameHome(RecoverDisk(L, d, k), Durable(L, d))
  {
    var blocks := HeadBlocks(d[L.start]);
    var e := RecoverDisk(L, d, k);
    if k <= |blocks| {
      InstallAt(L, d, blocks, k, L.start);
      assert !L.IsHome(L.start);
      forall b | L.IsHome(b) ensures Durable(L, e)[b] == Durable(L, d)[b] {
        InstallTwice(L, d, blocks, k, b);
      }
    } else {
      HeadRoundTrip(d[L.start], []);
      EmptyLogIsDurable(L, e);
    }
  }

  /** Reboot after reboot, each losing power after `ks[i]` writes of its recovery. */
  ghost function Reboots(L: Layout, d: Disk, ks: seq<nat>): (e: Disk)
    requires L.Valid() && L.Wf(d)
    ensures L.Wf(e)
    ensures L.SameHome(Durable(L, e), Durable(L, d))
    decreases |ks|
  {
    if ks == [] then d else
    var n := HeadN(d[L.start]) + 1;
    var k := if ks[0] < n then ks[0] else n;
    RecoveryKeepsDurable(L, d, k);
    Reboots(L, RecoverDisk(L, d, k), ks[1..])
  }

  /** Crash atomicity: cut commit after any number of its writes, crash any number of
      times inside recovery, then let one recovery finish. The home blocks are all old
      or all new, and all new exactly when the first header write was reached. */
  lemma {:induction false} CrashAtomicity(L: Layout, d: Disk, view: Disk, blocks: seq<nat>, k: nat, ks: seq<nat>)
    requires L.Valid() && L.Entries(blocks) && |d| == |view| == L.disksize
    requires HeadN(d[L.start]) == 0 && k <= 2 * |blocks| + 2
    ensures L.Wf(CommitDisk(L, d, view, blocks, k))
    ensures var crashed := Reboots(L, CommitDisk(L, d, view, blocks, k), ks);
            var rebooted := RecoverDisk(L, crashed, HeadN(crashed[L.start]) + 1);
            && HeadN(rebooted[L.start]) == 0
            && L.SameHome(rebooted, if k <= |blocks| then d else Updated(d, view, blocks))
  {
    CommitPoint(L, d, view, blocks, k);
    var crashed := Reboots(L, CommitDisk(L, d, view, blocks, k), ks);
    RecoveryKeepsDurable(L, crashed, HeadN(crashed[L.start]) + 1);
  }
}
