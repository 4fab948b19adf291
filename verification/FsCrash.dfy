/** The log and the files together: what a power failure can do to a file system whose calls go
    through the log, and how much log one call of filewrite needs. */
module FsCrash {
  import opened Basics
  import opened Blocks
  import opened LogDisk
  import opened LogDevice
  import opened LogSystem
  import opened LogInvariant
  import opened LogRefinement
  import opened LogRuns
  import opened LogCapacity
  import opened FsLayout
  import opened FsTable
  import FileSystem
  import File

  /** The log is where the super block says. */
  ghost predicate LaidOut(sb: Super, L: Layout) {
    sb.Valid() && L.Valid() && L == Layout(sb.logstart, sb.nlog, sb.size)
  }

  ghost function DiskTable(sb: Super, d: Disk): (t: seq<Dinode>)
    requires sb.Valid() && |d| == sb.size
    ensures |t| == sb.ninodes && forall i: nat | i < |t| :: t[i] == DiskInode(sb, d, i)
  {
    seq(sb.ninodes, i requires 0 <= i < sb.ninodes => DiskInode(sb, d, i))
  }

  ghost predicate NoHolesIn(d: Disk, t: seq<Dinode>)
    requires forall i | 0 <= i < |t| :: t[i].Valid()
  {
    forall i: nat | i < |t| :: t[i].size <= MAXBYTES && FileSystem.MappedUpTo(d, t[i], t[i].size)
  }

  /** What is on disk is a file system: some ownership fits its bit map and its inodes exactly,
      and no file has holes. */
  ghost predicate Sane(sb: Super, d: Disk) {
    && sb.Valid() && |d| == sb.size && NoHolesIn(d, DiskTable(sb, d))
    && exists owner :: Owns(sb, d, DiskTable(sb, d), owner)
  }

  /** The bytes of file `i`, as far as a file can reach. */
  ghost function DiskFile(sb: Super, d: Disk, i: nat): seq<Byte>
    requires sb.Valid() && |d| == sb.size && i < sb.ninodes
  {
    Flat(d, DiskInode(sb, d, i))
  }

  /** The same inodes and the same files. */
  ghost predicate SameFiles(sb: Super, d: Disk, e: Disk)
    requires sb.Valid() && |d| == |e| == sb.size
  {
    forall i: nat | i < sb.ninodes :: DiskInode(sb, e, i) == DiskInode(sb, d, i) &&
                                      DiskFile(sb, e, i) == DiskFile(sb, d, i)
  }

  lemma {:induction false} SameInode(sb: Super, L: Layout, d: Disk, e: Disk, i: nat)
    requires LaidOut(sb, L) && L.SameHome(d, e) && i < sb.ninodes
    ensures DiskInode(sb, e, i) == DiskInode(sb, d, i)
  {
    hide GetDinode;
    InodeNumbers(sb, i);
    assert L.IsHome(sb.IBlock(i));
  }

  /** The log's own blocks do not bear on the file system. */
  lemma {:induction false} LogApart(sb: Super, L: Layout, d: Disk, e: Disk)
    requires LaidOut(sb, L) && L.SameHome(d, e) && Sane(sb, d)
    ensures Sane(sb, e) && SameFiles(sb, d, e)
  {
    hide GetDinode, DiskInode, Owns, Addr, Used, Flat, FlatAt, SameData;
    var t := DiskTable(sb, d);
    forall i: nat | i < sb.ninodes ensures DiskInode(sb, e, i) == DiskInode(sb, d, i) {
      SameInode(sb, L, d, e, i);
    }
    assert DiskTable(sb, e) == t;
    var owner :| Owns(sb, d, t, owner);
    forall x | sb.bmapstart <= x < sb.size ensures e[x] == d[x] {
      InodeNumbers(sb, 0);
      assert L.IsHome(x);
    }
    UpdateKeepsOwns(sb, d, t, owner, e);
    StillNoHoles(d, t, e);
    forall i: nat | i < sb.ninodes ensures DiskFile(sb, e, i) == DiskFile(sb, d, i) {
      SameBytes(d, t, e, i);
    }
  }

  lemma {:induction false} SameBytes(d: Disk, t: seq<Dinode>, e: Disk, i: nat)
    requires (forall j | 0 <= j < |t| :: t[j].Valid()) && SameData(d, t, e, t) && i < |t|
    ensures Flat(e, t[i]) == Flat(d, t[i])
  {
    hide Data, Flat;
    SameFlat(d, t[i], e, t[i]);
  }

  lemma {:induction false} StillNoHoles(d: Disk, t: seq<Dinode>, e: Disk)
    requires (forall j | 0 <= j < |t| :: t[j].Valid()) && NoHolesIn(d, t)
    requires forall j: nat, m: nat | j < |t| && m < SLOTS :: Addr(e, t[j], m) == Addr(d, t[j], m)
    ensures NoHolesIn(e, t)
  {
    hide Addr, FileSystem.MappedUpTo;
    forall i: nat | i < |t| ensures FileSystem.MappedUpTo(e, t[i], t[i].size) {
      FileSystem.MappedSame(d, t[i], e, t[i], t[i].size);
    }
  }

  /** A disk whose home blocks are these. */
  ghost function Image(L: Layout, home: map<nat, Block>): (d: Disk)
    requires L.Valid()
    ensures |d| == L.disksize && forall b: nat | b < |d| && b in home :: d[b] == home[b]
  {
    seq(L.disksize, b requires 0 <= b < L.disksize => if b in home then home[b] else ZeroBlock())
  }

  lemma {:induction false} ImageOfHome(L: Layout, d: Disk)
    requires L.Valid() && |d| == L.disksize
    ensures L.SameHome(Image(L, Home(L, d)), d) && L.SameHome(d, Image(L, Home(L, d)))
  {
  }

  /** What recovery would leave of the home blocks, as a disk. */
  lemma {:induction false} SaneHome(c: Config, sb: Super, d: Disk)
    requires c.Valid() && LaidOut(sb, c.L) && |d| == sb.size
    ensures Sane(sb, Image(c.L, Home(c.L, d))) <==> Sane(sb, d)
  {
    hide Sane;
    ImageOfHome(c.L, d);
    if Sane(sb, d) {
      LogApart(sb, c.L, d, Image(c.L, Home(c.L, d)));
    } else if Sane(sb, Image(c.L, Home(c.L, d))) {
      LogApart(sb, c.L, Image(c.L, Home(c.L, d)), d);
    }
  }

  /** If calls keep the file system, crashes do: when the disk at the start is a file system and
      every group of overlapping calls takes one to one, what recovery leaves after a crash at any
      point of any run is one too, and nothing needs checking or repair. */
  lemma {:induction false} CrashLeavesFileSystem(c: Config, sb: Super, s: State, steps: seq<Step>)
    requires c.Valid() && c.Roomy() && LaidOut(sb, c.L) && Init(c, s) && Runs(c, s, steps)
    requires Sane(sb, Durable(c.L, s.disk))
    requires GroupsKeep(c, s, steps, (home: map<nat, Block>) => Sane(sb, Image(c.L, home)))
    ensures c.L.Wf(After(c, s, steps).disk) && Sane(sb, Durable(c.L, After(c, s, steps).disk))
  {
    var keeps := (home: map<nat, Block>) => Sane(sb, Image(c.L, home));
    AtEnd(c, s, steps);
    AtInv(c, s, steps, |steps|);
    InvWf(c, After(c, s, steps));
    hide Runs, After, Sane, Inv, GroupsKeep, Durable;
    SaneHome(c, sb, Durable(c.L, s.disk));
    CrashesKeep(c, s, steps, keeps);
    SaneHome(c, sb, Durable(c.L, After(c, s, steps).disk));
  }

  /** No call is under way, and readers see `home`, which is also what is durable. */
  ghost predicate Between(c: Config, s: State, home: map<nat, Block>)
    requires c.Valid()
  {
    Inv(c, s) && s.ops == map[] && Abs(c, s).durable == Abs(c, s).current == home
  }

  /** A call that has the log to itself is all or nothing for every file at once: wherever the run
      stops, recovery finds the inodes and bytes of the disk `d0` it started from or, once the
      call has ended, of the disk `d1` its writes amount to. */
  lemma {:induction false} CallAllOrNothing(c: Config, sb: Super, s: State, steps: seq<Step>, d0: Disk, d1: Disk)
    requires c.Valid() && c.Roomy() && LaidOut(sb, c.L) && |d0| == |d1| == sb.size && Sane(sb, d0)
    requires Between(c, s, Home(c.L, d0)) && Runs(c, s, steps) && OneBegun(Events(c, s, steps))
    requires SomeEnded(Events(c, s, steps)) ==>
               Sane(sb, d1) && Overlay(Events(c, s, steps), Home(c.L, d0)) == Home(c.L, d1)
    ensures c.L.Wf(After(c, s, steps).disk)
    ensures var d := Durable(c.L, After(c, s, steps).disk);
            && |d| == sb.size && Sane(sb, d)
            && (SameFiles(sb, d0, d) || (SomeEnded(Events(c, s, steps)) && SameFiles(sb, d1, d)))
  {
    OneCall(c, s, steps);
    InvWf(c, After(c, s, steps));
    hide Runs, After, Sane, Inv, SameFiles, Overlay, Events, OneBegun, SomeEnded;
    var d := Durable(c.L, After(c, s, steps).disk);
    if Home(c.L, d) == Home(c.L, d0) {
      HomeTells(c.L, d0, d);
      LogApart(sb, c.L, d0, d);
    } else {
      HomeTells(c.L, d1, d);
      LogApart(sb, c.L, d1, d);
    }
  }

  lemma {:induction false} HomeTells(L: Layout, d: Disk, e: Disk)
    requires L.Valid() && |d| == |e| == L.disksize && Home(L, d) == Home(L, e)
    ensures L.SameHome(d, e)
  {
    forall b | L.IsHome(b) ensures d[b] == e[b] {
      assert Home(L, d)[b] == Home(L, e)[b];
    }
  }

  // ---- Calls that keep the file system -------------------------------------------------

  /** Nothing in core is ahead of the disk, and no file has holes. */
  ghost predicate Settled(fs: FileSystem.Fs, ip: FileSystem.Inode)
    reads fs`blk, fs`core, fs`owner, ip
  {
    && fs.Consistent(ip) && fs.core == map[] && DiskInode(fs.sb, fs.blk, ip.inum) == ip.D()
    && NoHolesIn(fs.blk, fs.Inodes(ip))
  }

  /** Then the kernel's invariant is the disk's. */
  lemma {:induction false} SettledIsSane(fs: FileSystem.Fs, ip: FileSystem.Inode)
    requires Settled(fs, ip)
    ensures Sane(fs.sb, fs.blk) && fs.Inodes(ip) == DiskTable(fs.sb, fs.blk)
  {
    hide GetDinode, DiskInode, Owns;
    assert fs.Inodes(ip) == DiskTable(fs.sb, fs.blk);
  }

  lemma {:induction false} NoHolesKept(d: Disk, t: seq<Dinode>, e: Disk, u: seq<Dinode>, i: nat)
    requires |t| == |u| && (forall j | 0 <= j < |t| :: t[j].Valid() && u[j].Valid()) && i < |t| && u == t[i := u[i]]
    requires NoHolesIn(d, t) && FileSystem.OthersSame(d, t, e, u, i)
    requires u[i].size <= MAXBYTES && FileSystem.MappedUpTo(e, u[i], u[i].size)
    ensures NoHolesIn(e, u)
  {
    hide FileSystem.MappedUpTo;
    forall j: nat | j < |u| ensures u[j].size <= MAXBYTES && FileSystem.MappedUpTo(e, u[j], u[j].size) {
      if j != i {
        MappedAsBefore(d, t, e, u, i, j);
      }
    }
  }

  lemma {:induction false} MappedAsBefore(d: Disk, t: seq<Dinode>, e: Disk, u: seq<Dinode>, i: nat, j: nat)
    requires |t| == |u| && (forall k | 0 <= k < |t| :: t[k].Valid() && u[k].Valid()) && j < |t| && j != i
    requires u[j] == t[j]
    requires FileSystem.OthersSame(d, t, e, u, i) && FileSystem.MappedUpTo(d, t[j], t[j].size)
    ensures FileSystem.MappedUpTo(e, u[j], u[j].size)
  {
    hide Mapped, FileSystem.MappedUpTo;
    FileSystem.MappedSame(d, t[j], e, u[j], t[j].size);
  }

  /** File `i` of `d1` is that of `d0` with `bytes` written at `off`; the others are the same. */
  ghost predicate ChunkWritten(sb: Super, d0: Disk, d1: Disk, i: nat, off: nat, bytes: seq<Byte>)
    requires sb.Valid() && |d0| == |d1| == sb.size && i < sb.ninodes
  {
    && off + |bytes| <= MAXBYTES && DiskFile(sb, d1, i) == Splice(DiskFile(sb, d0, i), off, bytes)
    && DiskInode(sb, d1, i).size ==
       (if off + |bytes| > DiskInode(sb, d0, i).size then off + |bytes| else DiskInode(sb, d0, i).size)
    && forall j: nat | j < sb.ninodes && j != i ::
         DiskInode(sb, d1, j) == DiskInode(sb, d0, j) && DiskFile(sb, d1, j) == DiskFile(sb, d0, j)
  }

  /** One transaction of filewrite takes a file system to a file system, in which one file has the
      bytes and every other is as it was. */
  method ChunkKeepsFileSystem(f: File.OpenFile, bytes: seq<Byte>) returns (r: FileSystem.Outcome)
    requires Settled(f.fs, f.ip) && f.fs.NoHoles(f.ip) && 0 < |bytes| <= FileSystem.CHUNK
    modifies f`off, f.fs`blk, f.fs`logged, f.fs`owner, f.ip`addrs, f.ip`size
    ensures f.fs.Sound() && (r.Error? || r.ToDevice? ==> f.fs.blk == old(f.fs.blk))
    ensures !r.Panic? ==> Settled(f.fs, f.ip) && f.fs.NoHoles(f.ip) && Sane(f.fs.sb, f.fs.blk)
    ensures r.Ok? ==>
              && Sane(f.fs.sb, old(f.fs.blk))
              && ChunkWritten(f.fs.sb, old(f.fs.blk), f.fs.blk, f.ip.inum, old(f.off), bytes)
              && FileSystem.Recorded(old(f.fs.blk), {}, f.fs.blk, f.fs.logged)
  {
    hide Sane, Owns, Flat, Data, Addr, Mapped, DiskInode, Table, FileSystem.OthersSame, FileSystem.Recorded;
    hide NoHolesIn, FileSystem.MappedUpTo, ChunkWritten, Splice;
    ghost var fs, ip, d0, t0, at := f.fs, f.ip, f.fs.blk, f.fs.Inodes(f.ip), f.off;
    SettledIsSane(fs, ip);
    r := f.WriteChunk(bytes, 0, |bytes|, Flat(fs.blk, ip.D()), f.off);
    if r.Ok? {
      assert bytes[..|bytes|] == bytes;
      NoHolesKept(d0, t0, fs.blk, fs.Inodes(ip), ip.inum);
      SettledIsSane(fs, ip);
      ChunkIsWritten(fs.sb, d0, t0, fs.blk, fs.Inodes(ip), ip.inum, at, bytes);
    } else if !r.Panic? {
      SettledIsSane(fs, ip);
    }
  }

  lemma {:induction false} ChunkIsWritten(sb: Super, d0: Disk, t: seq<Dinode>, d1: Disk, u: seq<Dinode>, i: nat,
                                          off: nat,
                                          bytes: seq<Byte>)
    requires sb.Valid() && |d0| == |d1| == sb.size && i < sb.ninodes && off + |bytes| <= MAXBYTES
    requires t == DiskTable(sb, d0) && u == DiskTable(sb, d1) && u == t[i := u[i]]
    requires FileSystem.OthersSame(d0, t, d1, u, i) && Flat(d1, u[i]) == Splice(Flat(d0, t[i]), off, bytes)
    requires u[i].size == if off + |bytes| > t[i].size then off + |bytes| else t[i].size
    ensures ChunkWritten(sb, d0, d1, i, off, bytes)
  {
    hide Flat, Data, Splice, Mapped, DiskInode;
    forall j: nat | j < sb.ninodes && j != i
      ensures DiskInode(sb, d1, j) == DiskInode(sb, d0, j) && DiskFile(sb, d1, j) == DiskFile(sb, d0, j)
    {
      assert u[j] == t[j];
      SameFlat(d0, t[j], d1, u[j]);
    }
  }

  /** A chunk of filewrite, alone in the log, against a power failure at any point: recovery finds
      every file as it was or, once end_op has been called, that one file with all the bytes. */
  lemma {:induction false} ChunkAllOrNothing(c: Config, sb: Super, s: State, steps: seq<Step>, d0: Disk, d1: Disk,
                                             i: nat,
                                             off: nat, bytes: seq<Byte>)
    requires c.Valid() && c.Roomy() && LaidOut(sb, c.L) && |d0| == |d1| == sb.size && Sane(sb, d0) && i < sb.ninodes
    requires Between(c, s, Home(c.L, d0)) && Runs(c, s, steps) && OneBegun(Events(c, s, steps))
    requires SomeEnded(Events(c, s, steps)) ==>
               && Sane(sb, d1) && ChunkWritten(sb, d0, d1, i, off, bytes)
               && Overlay(Events(c, s, steps), Home(c.L, d0)) == Home(c.L, d1)
    ensures c.L.Wf(After(c, s, steps).disk)
    ensures var d := Durable(c.L, After(c, s, steps).disk);
            && |d| == sb.size && Sane(sb, d)
            && (SameFiles(sb, d0, d) || (SomeEnded(Events(c, s, steps)) && ChunkWritten(sb, d0, d, i, off, bytes)))
  {
    hide Runs, After, Sane, Overlay, Events, OneBegun, SomeEnded, Between, Durable, DiskFile, DiskInode;
    CallAllOrNothing(c, sb, s, steps, d0, d1);
  }

  /** Dropping a reference does, whether or not it is the last. */
  method IputKeepsFileSystem(fs: FileSystem.Fs, ip: FileSystem.Inode, refs: nat) returns (r: FileSystem.Outcome)
    requires Settled(fs, ip) && FileSystem.FreeEmpty(fs.Inodes(ip)) && refs > 0
    modifies fs`blk, fs`logged, fs`owner, ip`addrs, ip`size, ip`kind
    ensures Settled(fs, ip) && Sane(fs.sb, fs.blk) && FileSystem.FreeEmpty(fs.Inodes(ip))
    ensures forall j: nat | j < fs.sb.ninodes && j != ip.inum ::
              DiskInode(fs.sb, fs.blk, j) == DiskInode(fs.sb, old(fs.blk), j) &&
              DiskFile(fs.sb, fs.blk, j) == DiskFile(fs.sb, old(fs.blk), j)
  {
    hide Sane, Owns, Flat, Data, Addr, Mapped, DiskInode, Table, FileSystem.OthersSame, FileSystem.Recorded;
    hide NoHolesIn, FileSystem.MappedUpTo, FileSystem.FreeEmpty, Without, FileSystem.Blank;
    ghost var d0, t0 := fs.blk, fs.Inodes(ip);
    SettledIsSane(fs, ip);
    r := fs.Iput(ip, refs);
    if fs.blk != d0 || ip.D() != t0[ip.inum] {
      EmptyUpTo(fs.blk, ip.D());
      NoHolesKept(d0, t0, fs.blk, fs.Inodes(ip), ip.inum);
      SettledIsSane(fs, ip);
      OtherFilesSame(fs.sb, d0, t0, fs.blk, fs.Inodes(ip), ip.inum);
    }
  }

  lemma {:induction false} EmptyUpTo(d: Disk, e: Dinode)
    requires e.Valid() && e.size == 0
    ensures FileSystem.MappedUpTo(d, e, e.size)
  {
  }

  lemma {:induction false} OtherFilesSame(sb: Super, d0: Disk, t: seq<Dinode>, d1: Disk, u: seq<Dinode>, i: nat)
    requires sb.Valid() && |d0| == |d1| == sb.size && i < sb.ninodes
    requires t == DiskTable(sb, d0) && u == DiskTable(sb, d1) && u == t[i := u[i]]
    requires FileSystem.OthersSame(d0, t, d1, u, i)
    ensures forall j: nat | j < sb.ninodes && j != i ::
              DiskInode(sb, d1, j) == DiskInode(sb, d0, j) && DiskFile(sb, d1, j) == DiskFile(sb, d0, j)
  {
    hide Flat, Data, Mapped, DiskInode;
    forall j: nat | j < sb.ninodes && j != i
      ensures DiskInode(sb, d1, j) == DiskInode(sb, d0, j) && DiskFile(sb, d1, j) == DiskFile(sb, d0, j)
    {
      assert u[j] == t[j];
      SameFlat(d0, t[j], d1, u[j]);
    }
  }

  /** The disk mkfs starts from: the metadata's bits set, everything else zero. */
  ghost function Formatted(sb: Super, n: nat): (d: Disk)
    requires sb.Valid() && n <= sb.size
    ensures |d| == sb.size
  {
    if n == 0 then ZeroDisk(sb.size) else SetUsed(sb, Formatted(sb, n - 1), n - 1, true)
  }

  lemma {:induction false} FormattedBits(sb: Super, n: nat)
    requires sb.Valid() && n <= sb.size
    ensures forall b: nat | b < sb.size :: Used(sb, Formatted(sb, n), b) <==> b < n
    ensures forall i: nat | i < sb.ninodes :: FileSystem.Blank(DiskInode(sb, Formatted(sb, n), i))
    ensures forall i: nat | i < sb.ninodes :: DiskInode(sb, Formatted(sb, n), i).size == 0
  {
    hide GetDinode, DiskInode, Used, SetUsed, FileSystem.Blank;
    if n == 0 {
      BlankDisk(sb);
    } else {
      FormattedBits(sb, n - 1);
      SetUsedFrame(sb, Formatted(sb, n - 1), n - 1, true);
      forall b: nat | b < sb.size ensures Used(sb, Formatted(sb, n), b) <==> b < n {
        UsedOfSet(sb, Formatted(sb, n - 1), n - 1, true, b);
      }
    }
  }

  ghost function ZeroDisk(n: nat): Disk { seq(n, _ => ZeroBlock()) }

  lemma {:induction false} BlankDisk(sb: Super)
    requires sb.Valid()
    ensures forall b: nat | b < sb.size :: !Used(sb, ZeroDisk(sb.size), b)
    ensures forall i: nat | i < sb.ninodes ::
              var d := DiskInode(sb, ZeroDisk(sb.size), i); FileSystem.Blank(d) && d.size == 0
  {
    hide GetDinode, MapBit, FileSystem.Blank;
    forall b: nat | b < sb.size ensures !Used(sb, ZeroDisk(sb.size), b) {
      BlockNumbers(sb, b);
      NoMapBit(b % BPB);
    }
    forall i: nat | i < sb.ninodes
      ensures var d := DiskInode(sb, ZeroDisk(sb.size), i); FileSystem.Blank(d) && d.size == 0
    {
      InodeNumbers(sb, i);
      ZeroInode(i % IPB);
    }
  }

  lemma {:induction false} NoMapBit(k: nat)
    requires k < BPB
    ensures !MapBit(ZeroBlock(), k)
  {
    hide Bit;
    NoBits(k % 8);
  }

  lemma {:induction false} NoBits(k: nat)
    ensures !Bit(0, k)
  {
    if k > 0 {
      NoBits(k - 1);
    }
  }

  lemma {:induction false} ZeroInode(k: nat)
    requires k < IPB
    ensures FileSystem.Blank(GetDinode(ZeroBlock(), k)) && GetDinode(ZeroBlock(), k).size == 0
  {
    hide Word;
    forall i: nat | i < WORDS ensures Word(ZeroBlock(), i) == 0 {
      WordOfZero(i);
    }
  }

  /** A file system to start from exists for every layout. */
  lemma {:induction false} FormattedIsSane(sb: Super)
    requires sb.Valid()
    ensures sb.DataStart() >= 0 && Sane(sb, Formatted(sb, sb.DataStart()))
  {
    BlockNumbers(sb, 0);
    FormattedBits(sb, sb.DataStart());
    hide Formatted, Used, Sane, DiskInode, FileSystem.Blank;
    EmptyIsSane(sb, Formatted(sb, sb.DataStart()));
  }

  lemma {:induction false} EmptyIsSane(sb: Super, d: Disk)
    requires sb.Valid() && |d| == sb.size
    requires forall i: nat | i < sb.ninodes :: FileSystem.Blank(DiskInode(sb, d, i)) && DiskInode(sb, d, i).size == 0
    requires forall b: nat | b < sb.size :: Used(sb, d, b) <==> b < sb.DataStart()
    ensures Sane(sb, d)
  {
    hide GetDinode, DiskInode, Used, Owns, FileSystem.Blank, FileSystem.MappedUpTo, Table;
    FileSystem.EmptyDisk(sb, d, 0);
    var t, u := Table(sb, d, map[], 0, DiskInode(sb, d, 0)), DiskTable(sb, d);
    forall i: nat | i < sb.ninodes ensures t[i] == u[i] && FileSystem.MappedUpTo(d, u[i], u[i].size) {
      FileSystem.TableAt(sb, d, map[], 0, DiskInode(sb, d, 0), i);
      EmptyUpTo(d, u[i]);
    }
    assert t == u;
  }

  // ---- The log one call needs -----------------------------------------------------------

  /** On a log of mkfs's size calls that log no more than a chunk of filewrite does meet neither
      the panic nor the overflow of log_write exactly if the bit map has at most three blocks,
      that is, up to 12288 blocks of disk. mkfs's disk has one. */
  lemma {:induction false} ChunksFit(c: Config, sb: Super, hs: seq<nat>, home: nat)
    requires c.Valid() && sb.Valid() && c.L.size == LOGSIZE && c.budget == FileSystem.ChunkBudget(sb)
    requires Homes(c, hs) && |hs| == c.L.size && c.L.IsHome(home)
    ensures !CanPanic(c) && !CanOverflow(c) <==> sb.Bitmaps() <= 3
    ensures sb.Bitmaps() <= 3 <==> sb.size <= 3 * BPB
  {
    hide Homes, CanPanic, CanOverflow;
    HomesPrefix(c, hs, c.L.Capacity());
    PanicOnRealLog(c, hs[..c.L.Capacity()], home);
    OverflowExactly(c, hs);
  }

  lemma {:induction false} HomesPrefix(c: Config, hs: seq<nat>, n: nat)
    requires Homes(c, hs) && n <= |hs|
    ensures Homes(c, hs[..n])
  {
  }
}
