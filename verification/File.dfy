/** file.c: reading and writing through an open file. */
module File {
  import opened Basics
  import opened Blocks
  import opened FsLayout
  import opened FsTable
  import opened FileSystem

  class OpenFile {
    const fs: Fs
    const ip: Inode
    const readable: bool
    const writable: bool
    var off: Uint

    constructor (fs: Fs, ip: Inode, readable: bool, writable: bool)
      ensures this.fs == fs && this.ip == ip && this.readable == readable && this.writable == writable && off == 0
    {
      this.fs, this.ip, this.readable, this.writable, off := fs, ip, readable, writable, 0;
    }

    ghost predicate Valid()
      reads fs`blk, fs`owner, fs`core, ip
    {
      fs.Consistent(ip) && fs.NoHoles(ip)
    }

    method Fileread(n: Uint) returns (r: Outcome, dst: seq<Byte>)
      requires Valid() && n < 0x8000_0000
      modifies this`off, fs`blk, fs`logged, fs`owner, ip`addrs
      ensures Valid() && fs.blk == old(fs.blk) && ip.D() == old(ip.D()) && !r.Panic?
      ensures readable ==> (r.ToDevice? <==> ip.kind == T_DEV)
      ensures readable && ip.kind != T_DEV ==> (r.Error? <==> old(off) > ip.size || old(off) + n >= 0x1_0000_0000)
      ensures r.Ok? ==>
                && off == old(off) + (if old(off) + n > ip.size then ip.size - old(off) else n)
                && old(off) <= ip.size <= MAXBYTES && |dst| == r.value
                && dst == Flat(fs.blk, ip.D())[old(off)..off]
      ensures !r.Ok? ==> off == old(off)
      ensures !readable ==> r.Error?
    {
      hide Flat, Owns, Addr, Table, Fs.MappedBelow;
      dst := [];
      if !readable {
        return Error, dst;
      }
      r, dst := fs.Readi(ip, off, n);
      if r.Ok? {
        off := off + r.value;
      }
    }

    /** Two reads one after the other give what one read of both lengths would, unless the second
        length does not fit in 32 bits on top of the new offset. */
    method ReadOn(n: Uint, m: Uint) returns (r: Outcome, a: seq<Byte>, s: Outcome, b: seq<Byte>)
      requires Valid() && n < 0x8000_0000 && m < 0x8000_0000
      modifies this`off, fs`blk, fs`logged, fs`owner, ip`addrs
      ensures Valid() && fs.blk == old(fs.blk) && ip.D() == old(ip.D())
      ensures r.Ok? <==> readable && ip.kind != T_DEV && old(off) <= ip.size && old(off) + n < 0x1_0000_0000
      ensures r.Ok? ==> (s.Ok? <==> old(off) + |a| + m < 0x1_0000_0000)
      ensures r.Ok? && s.Ok? ==>
                && off == old(off) + (if old(off) + n + m > ip.size then ip.size - old(off) else n + m)
                && old(off) <= off <= ip.size <= MAXBYTES && a + b == Flat(fs.blk, ip.D())[old(off)..off]
    {
      hide Flat, Owns, Addr, Table, Fs.MappedBelow;
      r, a := Fileread(n);
      s, b := Fileread(m);
    }

    /** `f` with the first `i` bytes of `src` put at `at`. */
    ghost predicate Holds(f: seq<Byte>, at: nat, src: seq<Byte>, i: nat)
      requires Valid() && i <= |src|
      reads fs`blk, fs`owner, fs`core, ip
    {
      |f| == MAXBYTES && if i == 0 then Flat(fs.blk, ip.D()) == f
      else at + i <= MAXBYTES && Flat(fs.blk, ip.D()) == Splice(f, at, src[..i])
    }

    /** One pass of filewrite's loop, a transaction of its own; `f` and `at` are ghost, the file
        and the offset filewrite began with. */
    method WriteChunk(src: seq<Byte>, i: nat, n1: nat, ghost f: seq<Byte>, ghost at: nat) returns (r: Outcome)
      requires Valid() && i + n1 <= |src| && 0 < n1 <= CHUNK && off == at + i && Holds(f, at, src, i)
      modifies this`off, fs`blk, fs`logged, fs`owner, ip`addrs, ip`size
      ensures fs.Sound() && ip.kind == old(ip.kind) && (r.ToDevice? <==> ip.kind == T_DEV)
      ensures ip.kind != T_DEV ==> (r.Error? <==> old(off) > old(ip.size) || old(off) + n1 > MAXBYTES)
      ensures r.Panic? ==> old(off) + n1 > old(ip.size) && forall x: nat | x < fs.sb.size :: Used(fs.sb, fs.blk, x)
      ensures r.Error? || r.ToDevice? ==>
                off == old(off) && fs.blk == old(fs.blk) && fs.owner == old(fs.owner) && ip.D() == old(ip.D())
      ensures r.Ok? ==>
                && r.value == n1 && off == old(off) + n1 && Valid() && Holds(f, at, src, i + n1)
                && ip.size == (if off > old(ip.size) then off else old(ip.size))
                && OthersSame(old(fs.blk), old(fs.Inodes(ip)), fs.blk, fs.Inodes(ip), ip.inum)
                && fs.Inodes(ip) == old(fs.Inodes(ip))[ip.inum := ip.D()]
                && (old(DiskInode(fs.sb, fs.blk, ip.inum) == ip.D()) ==> DiskInode(fs.sb, fs.blk, ip.inum) == ip.D())
                && |fs.logged| <= ChunkBudget(fs.sb) && Recorded(old(fs.blk), {}, fs.blk, fs.logged)
    {
      hide Recorded;
      hide Flat, Owns, Addr, Table, Fs.MappedBelow, Used, Splice, Data, DiskInode, OthersSame;
      fs.BeginOp();
      r := fs.Writei(ip, src[i..i + n1], off);
      if r.Ok? {
        if i == 0 {
          SpliceNothing(f, at, src);
        }
        SpliceTwice(f, at, src, i, i + n1);
        assert fs.logged - {} == fs.logged;
        off := off + r.value;
      }
    }

    /** Writes `src` at the file's offset in pieces of at most CHUNK bytes. `done` is ghost, the
        bytes that got written; `logged` the blocks each transaction logged. */
    method Filewrite(src: seq<Byte>) returns (r: Outcome, ghost done: nat, ghost logged: seq<set<nat>>)
      requires Valid() && |src| < 0x8000_0000
      modifies this`off, fs`blk, fs`logged, fs`owner, ip`addrs, ip`size
      ensures fs.Sound() && (!writable ==> r.Error? && done == 0)
      ensures writable && |src| > 0 ==> (r.ToDevice? <==> old(ip.kind) == T_DEV)
      ensures r.Panic? ==>
                old(off) + |src| > old(ip.size) && forall x: nat | x < fs.sb.size :: Used(fs.sb, fs.blk, x)
      ensures !r.Panic? ==>
                && Valid() && done <= |src| && off == old(off) + done
                && Holds(Flat(old(fs.blk), old(ip.D())), old(off), src, done)
                && ip.size == (if done > 0 && off > old(ip.size) then off else old(ip.size))
                && OthersSame(old(fs.blk), old(fs.Inodes(ip)), fs.blk, fs.Inodes(ip), ip.inum)
      ensures r.Ok? ==> r.value == done == |src|
      ensures writable && |src| == 0 ==> r.Ok?
      ensures r.Error? && writable ==> done % CHUNK == 0
      ensures writable && |src| > 0 && old(ip.kind) != T_DEV && !r.Panic? ==>
                (r.Error? <==> old(off) > old(ip.size) || old(off) + |src| > MAXBYTES)
      ensures forall t | t in logged :: |t| <= ChunkBudget(fs.sb)
      ensures !r.Panic? ==> |logged| == (done + CHUNK - 1) / CHUNK && Covered(old(fs.blk), fs.blk, logged)
    {
      hide Flat, Owns, Addr, Table, Fs.MappedBelow, Used, Splice, Data, DiskInode, OthersSame, Covered, Recorded;
      CoveredSelf(fs.blk);
      done, logged := 0, [];
      OthersSelf(fs.blk, fs.Inodes(ip), ip.inum);
      if !writable {
        return Error, done, logged;
      }
      ghost var f, blk0, t0 := Flat(fs.blk, ip.D()), fs.blk, fs.Inodes(ip);
      var i := 0;
      while i < |src|
        invariant i <= |src| && done == i && Valid() && off == old(off) + i && (i < |src| ==> i % CHUNK == 0)
        invariant Holds(f, old(off), src, i) && ip.kind == old(ip.kind) && (i > 0 ==> ip.kind != T_DEV)
        invariant i > 0 ==> old(off) <= old(ip.size)
        invariant ip.size == if i > 0 && off > old(ip.size) then off else old(ip.size)
        invariant OthersSame(blk0, t0, fs.blk, fs.Inodes(ip), ip.inum)
        invariant forall t | t in logged :: |t| <= ChunkBudget(fs.sb)
        invariant |logged| == (i + CHUNK - 1) / CHUNK && Covered(blk0, fs.blk, logged)
      {
        var n1 := |src| - i;
        if n1 > CHUNK {
          n1 := CHUNK;
        }
        ghost var mid, t := fs.blk, fs.Inodes(ip);
        r := WriteChunk(src, i, n1, f, old(off));
        if !r.Ok? {
          return;
        }
        ChunkAfter(i, n1);
        OthersTwice(blk0, t0, mid, t, fs.blk, fs.Inodes(ip), ip.inum);
        CoveredMore(blk0, mid, fs.blk, logged, fs.logged);
        logged := logged + [fs.logged];
        i := i + r.value;
        done := i;
      }
      r := Ok(|src|);
    }
  }

  /** Every block that is not as it was is in one of the transactions. */
  ghost predicate Covered(blk: seq<Block>, blk': seq<Block>, logged: seq<set<nat>>) {
    |blk'| == |blk| && forall x: nat | x < |blk| && blk'[x] != blk[x] :: exists t :: t in logged && x in t
  }

  lemma {:induction false} CoveredSelf(blk: seq<Block>)
    ensures Covered(blk, blk, [])
  {
  }

  lemma {:induction false} CoveredMore(blk: seq<Block>, mid: seq<Block>, blk': seq<Block>, logged: seq<set<nat>>,
                                       t: set<nat>)
    requires Covered(blk, mid, logged) && Recorded(mid, {}, blk', t)
    ensures Covered(blk, blk', logged + [t])
  {
    forall x: nat | x < |blk| && blk'[x] != blk[x] ensures exists u :: u in logged + [t] && x in u {
      if mid[x] != blk[x] {
        var u :| u in logged && x in u;
        assert u in logged + [t];
      } else {
        assert t in logged + [t] && x in t;
      }
    }
  }

  lemma {:induction false} ChunkAfter(i: nat, n: nat)
    requires i % CHUNK == 0 && 0 < n <= CHUNK
    ensures (i + CHUNK) % CHUNK == 0 && (i + n + CHUNK - 1) / CHUNK == (i + CHUNK - 1) / CHUNK + 1
  {
    assert CHUNK > 0;
    OneMore(CHUNK, i, n);
  }

  lemma {:induction false} OneMore(c: nat, i: nat, n: nat)
    requires c > 0 && i % c == 0 && 0 < n <= c
    ensures (i + c) % c == 0 && (i + n + c - 1) / c == (i + c - 1) / c + 1
  {
    var k := i / c;
    assert i == c * k;
    DivIs(i + n + c - 1, c, k + 1, n - 1);
    DivIs(i + c - 1, c, k, c - 1);
    DivIs(i + c, c, k + 1, 0);
  }
}
