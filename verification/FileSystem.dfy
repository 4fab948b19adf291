/** fs.c: block allocation, block mapping, truncation, and reading and writing inodes'
    contents. `blk` is the disk as the buffers show it; `logged` is ghost, the blocks
    passed to log_write since begin_op; `owner` is ghost, who holds each block; `core` is
    ghost, the other inodes in core, which other calls may have changed. */
module FileSystem {
  import opened Basics
  import opened Blocks
  import opened FsLayout
  import opened FsTable

  /** The most filewrite puts in one transaction. */
  const CHUNK: nat := (MAXOPBLOCKS - 1 - 1 - 2) / 2 * BSIZE

  /** The most blocks one chunk of filewrite logs. */
  function ChunkBudget(sb: Super): nat
    requires sb.Valid()
  {
    if 6 + sb.Bitmaps() < MAXOPBLOCKS then 6 + sb.Bitmaps() else MAXOPBLOCKS
  }

  datatype Outcome = Ok(value: nat) | Error | ToDevice | Panic

  /** An inode in core: fields the kernel changes before iupdate writes them back. */
  class Inode {
    const inum: nat
    var kind: Ushort
    var major: Ushort
    var minor: Ushort
    var nlink: Ushort
    var size: Uint
    var addrs: seq<Uint>

    ghost predicate Valid() reads this { |addrs| == NDIRECT + 1 }

    function D(): Dinode
      reads this
    {
      Dinode(kind, major, minor, nlink, size, addrs)
    }

    constructor (inum: nat, d: Dinode)
      requires d.Valid()
      ensures this.inum == inum && D() == d && Valid()
    {
      this.inum := inum;
      kind, major, minor, nlink, size, addrs := d.kind, d.major, d.minor, d.nlink, d.size, d.addrs;
    }
  }

  class Fs {
    const sb: Super
    var blk: seq<Block>
    ghost var core: Core
    ghost var owner: map<nat, Slot>
    ghost var logged: set<nat>

    ghost predicate Sound() reads `blk { sb.Valid() && |blk| == sb.size }

    /** Every inode: `ip` and the others in core, and the rest from disk. */
    ghost function Inodes(ip: Inode): (t: seq<Dinode>)
      requires Sound() && ip.inum < sb.ninodes && ip.Valid()
      reads `blk, `core, ip
      ensures |t| == sb.ninodes && t[ip.inum] == ip.D() && forall i | 0 <= i < |t| :: t[i].Valid()
    {
      Table(sb, blk, core, ip.inum, ip.D())
    }

    ghost predicate Consistent(ip: Inode)
      reads `blk, `owner, `core, ip
    {
      Sound() && ip.inum < sb.ninodes && ip.Valid() && Owns(sb, blk, Inodes(ip), owner)
    }

    /** Every block of the first `end` bytes is mapped. */
    ghost predicate MappedBelow(ip: Inode, end: nat)
      requires ip.Valid()
      reads `blk, ip
    {
      MappedUpTo(blk, ip.D(), end)
    }

    lemma {:induction false} MappedBefore(ip: Inode, end: nat, less: nat)
      requires ip.Valid() && MappedBelow(ip, end) && less <= end
      ensures MappedBelow(ip, less)
    {
      hide Mapped;
    }

    /** Every block below the file's size is mapped. */
    ghost predicate NoHoles(ip: Inode)
      requires Sound() && ip.Valid()
      reads `blk, ip
    {
      ip.size <= MAXBYTES && MappedBelow(ip, ip.size)
    }

    /** begin_op: a new transaction, with nothing logged yet. */
    method BeginOp()
      modifies this`logged
      ensures logged == {}
    {
      logged := {};
    }

    method LogWrite(b: nat, data: Block)
      requires Sound() && b < sb.size
      modifies this`blk, this`logged
      ensures Sound() && blk == old(blk)[b := data] && logged == old(logged) + {b}
      ensures Recorded(old(blk), old(logged), blk, logged)
    {
      blk := blk[b := data];
      logged := logged + {b};
    }

    /** The first free block, marked in use and zeroed; a panic only when there is none. */
    method Balloc() returns (r: Outcome)
      requires Sound()
      modifies this`blk, this`logged
      ensures Sound()
      ensures r.Ok? || r.Panic?
      ensures r.Panic? ==> blk == old(blk) && logged == old(logged) && forall x: nat | x < sb.size :: Used(sb, blk, x)
      ensures r.Ok? ==>
                && r.value < sb.size && !Used(sb, old(blk), r.value)
                && (forall x: nat | x < r.value :: Used(sb, old(blk), x))
                && blk == Allocated(sb, old(blk), r.value)
                && logged == old(logged) + {sb.BBlock(r.value), r.value}
      ensures Recorded(old(blk), old(logged), blk, logged)
    {
      RecordedSelf(blk, logged);
      hide Recorded, Used, SetUsed, MapBit, SetMapBit, Super.BBlock;
      var b := 0;
      ghost var k := 0;
      while b < sb.size
        invariant b == k * BPB && Sound() && blk == old(blk) && logged == old(logged)
        invariant forall x: nat | x < b && x < sb.size :: Used(sb, blk, x)
      {
        BlockNumbers(sb, b);
        var bp := blk[sb.BBlock(b)];
        var bi := 0;
        while bi < BPB && b + bi < sb.size
          invariant bi <= BPB && Sound() && blk == old(blk) && logged == old(logged)
          invariant forall x: nat | x < b + bi && x < sb.size :: Used(sb, blk, x)
        {
          BitOfBlock(sb, blk, k, bi);
          if !MapBit(bp, bi) {
            LogWrite(sb.BBlock(b), SetMapBit(bp, bi, true));
            ghost var mid, log := blk, logged;
            Bzero(b + bi);
            RecordedTwice(old(blk), old(logged), mid, log, blk, logged);
            return Ok(b + bi);
          }
          bi := bi + 1;
        }
        b, k := b + BPB, k + 1;
      }
      r := Panic;
    }

    method Bzero(b: nat)
      requires Sound() && b < sb.size
      modifies this`blk, this`logged
      ensures Sound() && blk == old(blk)[b := ZeroBlock()] && logged == old(logged) + {b}
      ensures Recorded(old(blk), old(logged), blk, logged)
    {
      LogWrite(b, ZeroBlock());
    }

    /** Clears the bit; a panic exactly when the block was free. */
    method Bfree(b: nat) returns (r: Outcome)
      requires Sound() && b < sb.size
      modifies this`blk, this`logged
      ensures Sound()
      ensures r == if Used(sb, old(blk), b) then Ok(0) else Panic
      ensures r.Panic? ==> blk == old(blk)
      ensures r.Ok? ==> blk == SetUsed(sb, old(blk), b, false) && logged == old(logged) + {sb.BBlock(b)}
      ensures Recorded(old(blk), old(logged), blk, logged)
    {
      BlockNumbers(sb, b);
      var bp := blk[sb.BBlock(b)];
      var bi := b % BPB;
      if !MapBit(bp, bi) {
        return Panic;
      }
      LogWrite(sb.BBlock(b), SetMapBit(bp, bi, false));
      r := Ok(0);
    }

    method Iupdate(ip: Inode)
      requires Sound() && ip.inum < sb.ninodes && ip.Valid()
      modifies this`blk, this`logged
      ensures Sound() && blk == FsTable.Updated(sb, old(blk), ip.inum, ip.D())
      ensures logged == old(logged) + {sb.IBlock(ip.inum)} && Recorded(old(blk), old(logged), blk, logged)
    {
      InodeNumbers(sb, ip.inum);
      LogWrite(sb.IBlock(ip.inum), PutDinode(blk[sb.IBlock(ip.inum)], ip.inum % IPB, ip.D()));
    }

    /** The balloc call that fills `ip->addrs[k]`. */
    method AllocDirect(ip: Inode, k: nat) returns (r: Outcome)
      requires Consistent(ip) && k <= NDIRECT && ip.addrs[k] == 0
      modifies this`blk, this`logged, this`owner, ip`addrs
      ensures Sound() && (r.Ok? || r.Panic?)
      ensures r.Panic? ==> forall x: nat | x < sb.size :: Used(sb, blk, x)
      ensures r.Ok? ==>
                && Consistent(ip) && 0 < r.value < sb.size && ip.addrs == old(ip.addrs)[k := r.value]
                && Extends(sb, old(blk), old(Inodes(ip)), blk, Inodes(ip), ip.inum)
                && Inodes(ip) == old(Inodes(ip))[ip.inum := ip.D()]
                && DiskInode(sb, blk, ip.inum) == DiskInode(sb, old(blk), ip.inum)
                && (forall m: nat | m < SLOTS && m != k :: Addr(blk, ip.D(), m) == Addr(old(blk), old(ip.D()), m))
                && logged == old(logged) + {sb.BBlock(r.value), r.value}
      ensures Recorded(old(blk), old(logged), blk, logged)
    {
      hide Used, Word, Addr, GetDinode, Data, Recorded;
      ghost var blk0, t0, owner0 := blk, Inodes(ip), owner;
      r := Balloc();
      if r.Ok? {
        var addr := r.value;
        GiveDirect(sb, blk0, t0, owner0, ip.inum, k, addr);
        AllocatedTable(sb, blk0, core, addr, ip.inum, ip.D());
        ip.addrs := ip.addrs[k := addr];
        owner := owner[addr := (ip.inum, k)];
        GiveKeepsOwns(sb, blk0, t0, owner0, blk, Inodes(ip), ip.inum, k, addr);
        GiveExtends(sb, blk0, t0, owner0, blk, Inodes(ip), ip.inum, k, addr);
      }
    }

    /** The balloc call that fills entry `e` of the indirect block. */
    method AllocEntry(ip: Inode, e: nat) returns (r: Outcome)
      requires Consistent(ip) && e < NINDIRECT && ip.addrs[NDIRECT] != 0
      requires Addr(blk, ip.D(), NDIRECT + 1 + e) == 0
      modifies this`blk, this`logged, this`owner
      ensures Sound() && (r.Ok? || r.Panic?)
      ensures r.Panic? ==> forall x: nat | x < sb.size :: Used(sb, blk, x)
      ensures r.Ok? ==>
                && Consistent(ip) && r.value != 0 && Addr(blk, ip.D(), NDIRECT + 1 + e) == r.value
                && Extends(sb, old(blk), old(Inodes(ip)), blk, Inodes(ip), ip.inum)
                && Inodes(ip) == old(Inodes(ip))
                && DiskInode(sb, blk, ip.inum) == DiskInode(sb, old(blk), ip.inum)
                && (forall m: nat | m < SLOTS && m != NDIRECT + 1 + e ::
                      Addr(blk, ip.D(), m) == Addr(old(blk), ip.D(), m))
                && logged == old(logged) + {sb.BBlock(r.value), r.value, ip.addrs[NDIRECT]}
      ensures Recorded(old(blk), old(logged), blk, logged)
    {
      hide Used, Word, SetWord, GetDinode, Data, Addr, Allocated, OwnerHolds, HolderOwns, BitsMatch, Table,
        DiskInode, Recorded;
      ghost var blk0, t0, owner0 := blk, Inodes(ip), owner;
      var ind := ip.addrs[NDIRECT];
      IndirectOwned(sb, blk, t0, owner, ip.inum);
      EntryIsWord(blk, ip.D(), e);
      r := Balloc();
      if r.Ok? {
        var addr := r.value;
        GiveEntry(sb, blk0, t0, owner0, ip.inum, e, addr);
        AllocatedTable(sb, blk0, core, addr, ip.inum, ip.D());
        var a := SetWord(blk[ind], e, addr);
        DataTable(sb, blk, core, ind, a, ip.inum, ip.D());
        assert Table(sb, blk, core, ip.inum, ip.D()) == t0[ip.inum := ip.D()] == t0;
        ghost var mid, log := blk, logged;
        LogWrite(ind, a);
        RecordedTwice(blk0, old(logged), mid, log, blk, logged);
        owner := owner[addr := (ip.inum, NDIRECT + 1 + e)];
        GiveKeepsOwns(sb, blk0, t0, owner0, blk, t0, ip.inum, NDIRECT + 1 + e, addr);
        GiveExtends(sb, blk0, t0, owner0, blk, t0, ip.inum, NDIRECT + 1 + e, addr);
      }
    }

    /** The indirect block and the bit map block that covers it. */
    ghost function IndirectBlocks(ip: Inode): set<nat>
      requires ip.Valid()
      reads ip
    {
      if ip.addrs[NDIRECT] == 0 then {} else {ip.addrs[NDIRECT], sb.BBlock(ip.addrs[NDIRECT])}
    }

    lemma {:induction false} IndirectBits(ip: Inode)
      requires Consistent(ip)
      ensures |IndirectBlocks(ip)| <= 2 && IndirectBlocks(ip) <= {ip.addrs[NDIRECT]} + sb.MapBlocks()
    {
      hide Owns, Table;
      if ip.addrs[NDIRECT] != 0 {
        IndirectOwned(sb, blk, Inodes(ip), owner, ip.inum);
        BitBlockInMap(sb, ip.addrs[NDIRECT]);
      }
    }

    /** The address of the file's `bn`-th block, allocated on demand. No file's bytes change. */
    method Bmap(ip: Inode, bn: nat) returns (r: Outcome)
      requires Consistent(ip)
      modifies this`blk, this`logged, this`owner, ip`addrs
      ensures Sound() && (r.Ok? || r.Panic?)
      ensures bn >= MAXFILE ==> r.Panic?
      ensures r.Panic? && bn < MAXFILE ==>
                Mapped(old(blk), old(ip.D()), bn) == 0 && forall x: nat | x < sb.size :: Used(sb, blk, x)
      ensures r.Ok? ==>
                && Consistent(ip) && r.value == Mapped(blk, ip.D(), bn) != 0
                && Extends(sb, old(blk), old(Inodes(ip)), blk, Inodes(ip), ip.inum)
                && Inodes(ip) == old(Inodes(ip))[ip.inum := ip.D()]
                && DiskInode(sb, blk, ip.inum) == DiskInode(sb, old(blk), ip.inum)
                && (forall m: nat | m < MAXFILE && m != bn ::
                      Mapped(blk, ip.D(), m) == Mapped(old(blk), old(ip.D()), m))
                && (old(ip.addrs)[NDIRECT] != 0 || bn < NDIRECT ==> ip.addrs[NDIRECT] == old(ip.addrs)[NDIRECT])
      ensures Recorded(old(blk), old(logged), blk, logged)
      ensures r.Ok? && Mapped(old(blk), old(ip.D()), bn) != 0 ==>
                blk == old(blk) && owner == old(owner) && logged == old(logged) && ip.addrs == old(ip.addrs)
      ensures r.Ok? ==> logged <= old(logged) + {r.value, sb.BBlock(r.value)} + IndirectBlocks(ip)
    {
      RecordedSelf(blk, logged);
      hide Used, Word, GetDinode, Data, Owns, Table, Recorded;
      ghost var blk0, t0 := blk, Inodes(ip);
      if bn < NDIRECT {
        var addr := ip.addrs[bn];
        if addr == 0 {
          r := AllocDirect(ip, bn);
          return;
        }
        ExtendsSelf(sb, blk, t0, ip.inum);
        return Ok(addr);
      }
      if bn - NDIRECT < NINDIRECT {
        if ip.addrs[NDIRECT] == 0 {
          r := AllocDirect(ip, NDIRECT);
          if r.Panic? {
            return;
          }
        } else {
          ExtendsSelf(sb, blk, t0, ip.inum);
        }
        ghost var mid, u, log := blk, Inodes(ip), logged;
        IndirectInRange(ip);
        var a := blk[ip.addrs[NDIRECT]];
        var addr := Word(a, bn - NDIRECT);
        assert addr == Mapped(blk, ip.D(), bn);
        if addr == 0 {
          r := AllocEntry(ip, bn - NDIRECT);
          RecordedTwice(blk0, old(logged), mid, log, blk, logged);
          if r.Ok? {
            ExtendsTwice(sb, blk0, t0, mid, u, blk, Inodes(ip), ip.inum);
          }
          return;
        }
        return Ok(addr);
      }
      r := Panic;
    }

    /** One pass of writei's loop: at most one block is overwritten, in part. */
    method WritePiece(ip: Inode, off: nat, piece: seq<Byte>) returns (r: Outcome)
      requires Consistent(ip) && off < MAXBYTES && off % BSIZE + |piece| <= BSIZE
      modifies this`blk, this`logged, this`owner, ip`addrs
      ensures Sound() && (r.Ok? || r.Panic?)
      ensures r.Panic? ==>
                Mapped(old(blk), old(ip.D()), off / BSIZE) == 0 && forall x: nat | x < sb.size :: Used(sb, blk, x)
      ensures r.Ok? ==>
                && Consistent(ip) && off + |piece| <= MAXBYTES
                && Flat(blk, ip.D()) == Splice(Flat(old(blk), old(ip.D())), off, piece)
                && OthersSame(old(blk), old(Inodes(ip)), blk, Inodes(ip), ip.inum)
                && Inodes(ip) == old(Inodes(ip))[ip.inum := ip.D()]
                && DiskInode(sb, blk, ip.inum) == DiskInode(sb, old(blk), ip.inum)
                && r.value == Mapped(blk, ip.D(), off / BSIZE) != 0 && sb.BBlock(r.value) in sb.MapBlocks()
                && (forall m: nat | m < MAXFILE && m != off / BSIZE ::
                      Mapped(blk, ip.D(), m) == Mapped(old(blk), old(ip.D()), m))
                && (old(ip.addrs)[NDIRECT] != 0 ==> ip.addrs[NDIRECT] == old(ip.addrs)[NDIRECT])
      ensures r.Ok? && Mapped(old(blk), old(ip.D()), off / BSIZE) != 0 ==>
                ip.addrs == old(ip.addrs) && logged <= old(logged) + {r.value}
      ensures r.Ok? ==> logged <= old(logged) + {r.value, sb.BBlock(r.value)} + IndirectBlocks(ip)
      ensures Recorded(old(blk), old(logged), blk, logged)
    {
      hide Super.MapBlocks, Super.BBlock;
      hide Used, Word, GetDinode, Addr, Owns, Table, Flat, Data, Recorded;
      ghost var blk0, d0, t0 := blk, ip.D(), Inodes(ip);
      r := Bmap(ip, off / BSIZE);
      if r.Ok? {
        ghost var mid, d, t, log := blk, ip.D(), Inodes(ip), logged;
        PutDataHere(sb, blk, t, owner, ip.inum, off, piece);
        var bp := blk[r.value];
        bp := RawBlock(Splice(bp.data, off % BSIZE, piece));
        LogWrite(r.value, bp);
        RecordedTwice(blk0, old(logged), mid, log, blk, logged);
        DataTable(sb, mid, core, r.value, bp, ip.inum, d);
        SameFlat(blk0, d0, mid, d) by { ExtendsData(sb, blk0, t0, mid, t, ip.inum); }
        BlockSplice(mid, d, blk, d, off, piece);
        BitBlockInMap(sb, r.value);
        OthersAfterBoth(sb, blk0, t0, mid, t, blk, ip.inum, off / BSIZE);
      }
    }

    /** Grows the file's size in core and writes the inode back. */
    method SetSize(ip: Inode, size: Uint)
      requires Consistent(ip) && MappedBelow(ip, size)
      modifies this`blk, this`logged, ip`size
      ensures Consistent(ip) && ip.size == size
      ensures Flat(blk, ip.D()) == Flat(old(blk), old(ip.D()))
      ensures OthersSame(old(blk), old(Inodes(ip)), blk, Inodes(ip), ip.inum)
      ensures Inodes(ip) == old(Inodes(ip))[ip.inum := ip.D()]
      ensures MappedBelow(ip, size)
      ensures DiskInode(sb, blk, ip.inum) == ip.D()
      ensures logged == old(logged) + {sb.IBlock(ip.inum)} && Recorded(old(blk), old(logged), blk, logged)
    {
      hide Used, Word, GetDinode, OwnerHolds, HolderOwns, BitsMatch, Flat, FsTable.Updated, DiskInode, Recorded;
      hide MappedUpTo;
      ghost var mid, d0, t0 := blk, ip.D(), Inodes(ip);
      ip.size := size;
      ResizeKeepsOwns(sb, blk, t0, owner, ip.inum, size);
      assert Inodes(ip) == t0[ip.inum := ip.D()];
      Iupdate(ip);
      UpdatedInodes(sb, mid, core, ip.inum, ip.D());
      UpdateKeepsOwns(sb, mid, Table(sb, mid, core, ip.inum, ip.D()), owner, blk);
      SameFlat(mid, d0, blk, ip.D());
      MappedSame(mid, d0, blk, ip.D(), size);
    }

    /** One pass of writei's loop: as much of `src` from `tot` on as fits in one block. A pass
        that finds the block unmapped (`grew`) also logs a bit map block. */
    method WritePass(ip: Inode, src: seq<Byte>, off: nat, tot: nat, ghost f0: seq<Byte>)
      returns (r: Outcome, m: nat, ghost grew: bool)
      requires Consistent(ip) && off <= ip.size && tot < |src| && off + |src| <= MAXBYTES && |f0| == MAXBYTES
      requires MappedBelow(ip, ip.size) && MappedBelow(ip, off + tot)
      requires Flat(blk, ip.D()) == Splice(f0, off, src[..tot])
      modifies this`blk, this`logged, this`owner, ip`addrs
      ensures m == if |src| - tot < BSIZE - (off + tot) % BSIZE then |src| - tot else BSIZE - (off + tot) % BSIZE
      ensures Sound() && (r.Ok? || r.Panic?)
      ensures r.Panic? ==> off + tot + m > ip.size && forall x: nat | x < sb.size :: Used(sb, blk, x)
      ensures r.Ok? ==>
                && Consistent(ip) && Rewritten(sb, old(blk), old(Inodes(ip)), blk, Inodes(ip), ip.inum)
                && Flat(blk, ip.D()) == Splice(f0, off, src[..tot + m])
                && MappedBelow(ip, ip.size) && MappedBelow(ip, off + tot + m)
                && (off + tot + m <= ip.size ==> ip.addrs == old(ip.addrs))
                && logged <= old(logged) + {r.value} + (if grew then {sb.BBlock(r.value)} else {}) + IndirectBlocks(ip)
                && old(IndirectBlocks(ip)) <= IndirectBlocks(ip) && sb.BBlock(r.value) in sb.MapBlocks()
      ensures tot == 0 && off % BSIZE != 0 ==> !grew
      ensures Recorded(old(blk), old(logged), blk, logged)
    {
      hide Super.MapBlocks, Super.BBlock;
      hide Used, Word, GetDinode, Addr, Owns, Table, Flat, Data, Splice, DiskInode, OthersSame, Mapped, Recorded;
      ghost var bn := (off + tot) / BSIZE;
      grew := Mapped(blk, ip.D(), bn) == 0;
      m := if |src| - tot < BSIZE - (off + tot) % BSIZE then |src| - tot else BSIZE - (off + tot) % BSIZE;
      PassBlock(off + tot, m, ip.size);
      SpliceTwice(f0, off, src, tot, tot + m);
      r := WritePiece(ip, off + tot, src[tot..tot + m]);
    }

    /** writei's loop. `bill` says what was logged: file blocks, one a pass, and bit map
        blocks, one a pass that allocated. */
    method WriteLoop(ip: Inode, src: seq<Byte>, off: nat)
      returns (r: Outcome, ghost bill: Bill)
      requires Consistent(ip) && NoHoles(ip) && off <= ip.size && off + |src| <= MAXBYTES
      modifies this`blk, this`logged, this`owner, ip`addrs
      ensures Sound() && (r.Ok? || r.Panic?)
      ensures r.Panic? ==> off + |src| > ip.size && forall x: nat | x < sb.size :: Used(sb, blk, x)
      ensures r.Ok? ==>
                && Consistent(ip) && Rewritten(sb, old(blk), old(Inodes(ip)), blk, Inodes(ip), ip.inum)
                && Flat(blk, ip.D()) == Splice(Flat(old(blk), old(ip.D())), off, src)
                && MappedBelow(ip, ip.size) && MappedBelow(ip, off + |src|)
                && (off + |src| <= ip.size ==> ip.addrs == old(ip.addrs))
                && Billed(bill, old(logged), logged, IndirectBlocks(ip), sb.MapBlocks(), off, |src|, |src|)
      ensures Recorded(old(blk), old(logged), blk, logged)
    {
      RecordedSelf(blk, logged);
      hide Recorded;
      hide Super.MapBlocks, Super.BBlock;
      hide Used, Word, GetDinode, Addr, Owns, Table, Flat, Data, Splice, DiskInode, OthersSame, Mapped;
      hide MappedBelow, MappedUpTo, IndirectBlocks, Rewritten, Billed;
      ghost var blk0, d0, t0, f0, n := blk, ip.D(), Inodes(ip), Flat(blk, ip.D()), |src|;
      bill := Bill({}, {}, 0, 0);
      var tot := 0;
      SpliceNothing(f0, off, src);
      RewrittenSelf(sb, blk, t0, ip.inum);
      NothingBilled(logged, IndirectBlocks(ip), sb.MapBlocks(), off, n);
      MappedBefore(ip, ip.size, off);
      while tot < |src|
        invariant tot <= |src| && Consistent(ip) && Rewritten(sb, blk0, t0, blk, Inodes(ip), ip.inum)
        invariant Flat(blk, ip.D()) == Splice(f0, off, src[..tot])
        invariant MappedBelow(ip, ip.size) && MappedBelow(ip, off + tot)
        invariant off + tot <= ip.size ==> ip.addrs == d0.addrs
        invariant Billed(bill, old(logged), logged, IndirectBlocks(ip), sb.MapBlocks(), off, tot, n)
        invariant Recorded(blk0, old(logged), blk, logged)
      {
        ghost var t, mid, log, indirect := Inodes(ip), blk, logged, IndirectBlocks(ip);
        var m;
        ghost var grew;
        r, m, grew := WritePass(ip, src, off, tot, f0);
        RecordedTwice(blk0, old(logged), mid, log, blk, logged);
        if r.Panic? {
          return;
        }
        RewrittenTwice(sb, blk0, t0, mid, t, blk, Inodes(ip), ip.inum);
        BilledMore(bill, old(logged), log, logged, indirect, IndirectBlocks(ip), sb.MapBlocks(), off, tot, n, m,
                   r.value, sb.BBlock(r.value), grew);
        bill := bill.Plus(r.value, sb.BBlock(r.value), grew);
        tot := tot + m;
      }
      assert src[..tot] == src;
      r := Ok(|src|);
    }

    /** Replaces `src`'s worth of bytes at `off`, growing the file if it ends before. */
    method Writei(ip: Inode, src: seq<Byte>, off: Uint) returns (r: Outcome)
      requires Consistent(ip) && NoHoles(ip) && |src| < 0x1_0000_0000
      modifies this`blk, this`logged, this`owner, ip`addrs, ip`size
      ensures Sound() && (r.ToDevice? <==> old(ip.kind) == T_DEV)
      ensures old(ip.kind) != T_DEV ==>
                (r.Error? <==> off > old(ip.size) || off + |src| >= 0x1_0000_0000 || off + |src| > MAXBYTES)
      ensures r.ToDevice? || r.Error? ==>
                blk == old(blk) && owner == old(owner) && logged == old(logged) && ip.D() == old(ip.D())
      ensures r.Panic? ==> off + |src| > old(ip.size) && forall x: nat | x < sb.size :: Used(sb, blk, x)
      ensures r.Ok? ==>
                && r.value == |src| && off + |src| <= MAXBYTES
                && Consistent(ip) && NoHoles(ip)
                && Flat(blk, ip.D()) == Splice(Flat(old(blk), old(ip.D())), off, src)
                && ip.D() == old(ip.D()).(addrs := ip.addrs, size := ip.size)
                && ip.size == (if off + |src| > old(ip.size) then off + |src| else old(ip.size))
                && OthersSame(old(blk), old(Inodes(ip)), blk, Inodes(ip), ip.inum)
                && Inodes(ip) == old(Inodes(ip))[ip.inum := ip.D()]
      ensures r.Ok? && old(DiskInode(sb, blk, ip.inum) == ip.D()) ==> DiskInode(sb, blk, ip.inum) == ip.D()
      ensures r.Ok? && |src| <= CHUNK ==> |logged - old(logged)| <= ChunkBudget(sb)
      ensures Recorded(old(blk), old(logged), blk, logged)
    {
      RecordedSelf(blk, logged);
      hide Recorded;
      hide Super.MapBlocks, Super.Bitmaps;
      hide Used, Word, GetDinode, Addr, Owns, Table, Flat, Data, Splice, DiskInode, OthersSame, Mapped;
      if ip.kind == T_DEV {
        return ToDevice;
      }
      if off > ip.size || off + |src| >= 0x1_0000_0000 {
        return Error;
      }
      if off + |src| > MAXFILE * BSIZE {
        return Error;
      }
      hide MappedBelow, Billed;
      ghost var blk0, t0 := blk, Inodes(ip);
      ghost var bill;
      r, bill := WriteLoop(ip, src, off);
      if r.Panic? {
        return;
      }
      IndirectBits(ip);
      BilledBound(bill, old(logged), logged, IndirectBlocks(ip), sb.MapBlocks(), off, |src|, sb.IBlock(ip.inum),
                  ip.addrs[NDIRECT]);
      MapBlocksSize(sb);
      hide IndirectBlocks;
      if |src| > 0 && off + |src| > ip.size {
        ghost var mid, t, log := blk, Inodes(ip), logged;
        SetSize(ip, off + |src|);
        RecordedTwice(blk0, old(logged), mid, log, blk, logged);
        OthersTwice(blk0, t0, mid, t, blk, Inodes(ip), ip.inum);
      }
      r := Ok(|src|);
    }

    /** One pass of readi's loop: bytes of one block, which is mapped already. */
    method ReadPiece(ip: Inode, o: nat, m: nat) returns (piece: seq<Byte>)
      requires Consistent(ip) && NoHoles(ip) && o + m <= ip.size && 0 < m <= BSIZE - o % BSIZE
      modifies this`blk, this`logged, this`owner, ip`addrs
      ensures blk == old(blk) && owner == old(owner) && logged == old(logged) && ip.addrs == old(ip.addrs)
      ensures piece == Flat(blk, ip.D())[o..o + m]
    {
      hide Used, Word, GetDinode, Addr, Owns, Table, Flat, Data, DiskInode, Mapped, Extends;
      PassBlock(o, m, ip.size);
      var r := Bmap(ip, o / BSIZE);
      FlatBlock(sb, blk, Inodes(ip), owner, ip.inum, o, m);
      piece := blk[r.value].data[o % BSIZE..o % BSIZE + m];
    }

    /** Up to `n` bytes from `off` on, cut at the end of the file. Nothing is allocated. */
    method Readi(ip: Inode, off: Uint, n: Uint) returns (r: Outcome, dst: seq<Byte>)
      requires Consistent(ip) && NoHoles(ip)
      modifies this`blk, this`logged, this`owner, ip`addrs
      ensures blk == old(blk) && owner == old(owner) && logged == old(logged) && ip.addrs == old(ip.addrs)
      ensures r.ToDevice? <==> ip.kind == T_DEV
      ensures ip.kind != T_DEV ==> (r.Error? <==> off > ip.size || off + n >= 0x1_0000_0000)
      ensures r.Ok? ==>
                && r.value == |dst| == (if off + n > ip.size then ip.size - off else n)
                && dst == Flat(blk, ip.D())[off..off + |dst|]
      ensures !r.Panic?
    {
      hide Used, Word, GetDinode, Addr, Owns, Table, Flat, Data, DiskInode, Mapped, MappedBelow;
      dst := [];
      if ip.kind == T_DEV {
        return ToDevice, dst;
      }
      if off > ip.size || off + n >= 0x1_0000_0000 {
        return Error, dst;
      }
      var len := if off + n > ip.size then ip.size - off else n;
      ghost var d, f := ip.D(), Flat(blk, ip.D());
      while |dst| < len
        invariant |dst| <= len && blk == old(blk) && owner == old(owner) && logged == old(logged) && ip.D() == d
        invariant dst == f[off..off + |dst|]
      {
        var o := off + |dst|;
        var m := if len - |dst| < BSIZE - o % BSIZE then len - |dst| else BSIZE - o % BSIZE;
        var piece := ReadPiece(ip, o, m);
        Adjoin(f, off, o, o + m);
        dst := dst + piece;
      }
      r := Ok(len);
    }

    /** Reading `n` bytes at `from` after writing `src` at `off`: the new bytes where the two
        overlap, the old file elsewhere. */
    method WriteThenRead(ip: Inode, src: seq<Byte>, off: Uint, from: Uint, n: Uint)
      returns (w: Outcome, r: Outcome, dst: seq<Byte>)
      requires Consistent(ip) && NoHoles(ip) && |src| < 0x1_0000_0000
      modifies this`blk, this`logged, this`owner, ip`addrs, ip`size
      ensures w.Ok? ==>
                && ip.size == (if off + |src| > old(ip.size) then off + |src| else old(ip.size))
                && (r.Ok? <==> from <= ip.size && from + n < 0x1_0000_0000)
      ensures w.Ok? && r.Ok? ==> |dst| == if from + n > ip.size then ip.size - from else n
      ensures w.Ok? && r.Ok? ==>
                && from + |dst| <= ip.size <= MAXBYTES
                && forall k | 0 <= k < |dst| ::
                     dst[k] ==
                     if off <= from + k < off + |src| then src[from + k - off]
                     else Flat(old(blk), old(ip.D()))[from + k]
    {
      hide Used, Word, GetDinode, Addr, Owns, Table, Flat, Data, DiskInode, Mapped, MappedBelow, OthersSame;
      r, dst := Error, [];
      w := Writei(ip, src, off);
      if w.Ok? {
        r, dst := Readi(ip, from, n);
      }
    }

    /** itrunc's first loop. */
    method FreeDirect(ip: Inode) returns (r: Outcome)
      requires Consistent(ip)
      modifies this`blk, this`logged, ip`addrs
      ensures r.Ok? && Sound() && ip.Valid()
      ensures Freed(sb, old(blk), owner, blk, ip.inum, Span(0, NDIRECT))
      ensures ip.addrs[NDIRECT] == old(ip.addrs[NDIRECT]) && forall k | 0 <= k < NDIRECT :: ip.addrs[k] == 0
      ensures Recorded(old(blk), old(logged), blk, logged)
    {
      RecordedSelf(blk, logged);
      hide Recorded;
      hide Used, Word, GetDinode, Addr, Owns, Table, DiskInode, SetUsed, Freed, Span;
      ghost var blk0, t0, d0 := blk, Inodes(ip), ip.D();
      ghost var gone: set<nat> := {};
      NothingFreed(sb, blk, owner, ip.inum);
      var i := 0;
      while i < NDIRECT
        invariant i <= NDIRECT && Sound() && ip.Valid() && gone == Span(0, i)
        invariant forall k | 0 <= k <= NDIRECT :: ip.addrs[k] == if k < i then 0 else d0.addrs[k]
        invariant Freed(sb, blk0, owner, blk, ip.inum, gone) && Recorded(blk0, old(logged), blk, logged)
      {
        ghost var mid, log := blk, logged;
        FreeSlot(sb, blk0, t0, owner, blk, ip.inum, gone, i);
        assert Addr(blk0, d0, i) == ip.addrs[i] by { DirectAddr(blk0, d0, i); }
        if ip.addrs[i] != 0 {
          r := Bfree(ip.addrs[i]);
          RecordedTwice(blk0, old(logged), mid, log, blk, logged);
          ip.addrs := ip.addrs[i := 0];
        }
        gone := gone + {i};
        i := i + 1;
      }
      r := Ok(0);
    }

    /** itrunc's second loop, and the indirect block itself: `blk0` is the disk before itrunc. */
    method FreeIndirect(ip: Inode, ghost blk0: seq<Block>, ghost t0: seq<Dinode>) returns (r: Outcome)
      requires Sound() && ip.Valid() && Owns(sb, blk0, t0, owner) && ip.inum < sb.ninodes
      requires Freed(sb, blk0, owner, blk, ip.inum, Span(0, NDIRECT))
      requires ip.addrs[NDIRECT] == t0[ip.inum].addrs[NDIRECT]
      modifies this`blk, this`logged, ip`addrs
      ensures r.Ok? && Sound() && ip.addrs == old(ip.addrs)[NDIRECT := 0]
      ensures Freed(sb, blk0, owner, blk, ip.inum, Span(0, SLOTS)) && Recorded(old(blk), old(logged), blk, logged)
    {
      RecordedSelf(blk, logged);
      hide Recorded;
      hide Used, Word, GetDinode, Addr, OwnerHolds, HolderOwns, BitsMatch, Table, DiskInode, SetUsed, Span;
      ghost var d0, gone := t0[ip.inum], Span(0, NDIRECT);
      if ip.addrs[NDIRECT] == 0 {
        NoEntries(sb, blk0, t0, owner, blk, ip.inum);
        return Ok(0);
      }
      IndirectOwned(sb, blk0, t0, owner, ip.inum);
      var a := blk[ip.addrs[NDIRECT]];
      var j := 0;
      while j < NINDIRECT
        invariant j <= NINDIRECT && Sound() && ip.addrs == old(ip.addrs)
        invariant gone == Span(0, NDIRECT) + Span(NDIRECT + 1, NDIRECT + 1 + j)
        invariant Freed(sb, blk0, owner, blk, ip.inum, gone) && Recorded(old(blk), old(logged), blk, logged)
      {
        ghost var mid, log := blk, logged;
        FreeSlot(sb, blk0, t0, owner, blk, ip.inum, gone, NDIRECT + 1 + j);
        assert Addr(blk0, d0, NDIRECT + 1 + j) == Word(a, j) by { EntryIsWord(blk0, d0, j); }
        if Word(a, j) != 0 {
          r := Bfree(Word(a, j));
          RecordedTwice(old(blk), old(logged), mid, log, blk, logged);
        }
        gone := gone + {NDIRECT + 1 + j};
        j := j + 1;
      }
      FreeSlot(sb, blk0, t0, owner, blk, ip.inum, gone, NDIRECT);
      assert Addr(blk0, d0, NDIRECT) == ip.addrs[NDIRECT] by { DirectAddr(blk0, d0, NDIRECT); }
      ghost var mid, log := blk, logged;
      r := Bfree(ip.addrs[NDIRECT]);
      RecordedTwice(old(blk), old(logged), mid, log, blk, logged);
      ip.addrs := ip.addrs[NDIRECT := 0];
      assert gone + {NDIRECT} == Span(0, SLOTS);
    }

    /** Discards the file: frees exactly the inode's blocks. "freeing free block" cannot happen. */
    method Itrunc(ip: Inode) returns (r: Outcome)
      requires Consistent(ip)
      modifies this`blk, this`logged, this`owner, ip`addrs, ip`size
      ensures r.Ok? && Consistent(ip) && NoHoles(ip)
      ensures ip.D() == old(ip.D()).(addrs := ip.addrs, size := 0) && forall k | 0 <= k <= NDIRECT :: ip.addrs[k] == 0
      ensures owner == Without(old(owner), ip.inum)
      ensures forall x: nat | x < sb.size ::
                Used(sb, blk, x) == (Used(sb, old(blk), x) && !(x in old(owner) && old(owner)[x].0 == ip.inum))
      ensures Inodes(ip) == old(Inodes(ip))[ip.inum := ip.D()] && DiskInode(sb, blk, ip.inum) == ip.D()
      ensures OthersSame(old(blk), old(Inodes(ip)), blk, Inodes(ip), ip.inum)
      ensures Recorded(old(blk), old(logged), blk, logged)
    {
      hide Used, Word, GetDinode, Addr, OwnerHolds, HolderOwns, BitsMatch, Table, DiskInode, FsTable.Updated, Freed,
        Without, Data, Recorded;
      ghost var blk0, t0, owner0, d0 := blk, Inodes(ip), owner, ip.D();
      r := FreeDirect(ip);
      ghost var mid1, log1 := blk, logged;
      r := FreeIndirect(ip, blk0, t0);
      RecordedTwice(blk0, old(logged), mid1, log1, blk, logged);
      ip.size := 0;
      owner := Without(owner, ip.inum);
      ghost var mid, log := blk, logged;
      AllFreed(sb, blk0, core, t0, owner0, blk, ip.inum, d0, ip.D());
      Iupdate(ip);
      RecordedTwice(blk0, old(logged), mid, log, blk, logged);
      UpdatedInodes(sb, mid, core, ip.inum, ip.D());
      UpdateKeepsOwns(sb, mid, t0[ip.inum := ip.D()], owner, blk);
    }

    /** Gives the first free inode a kind; `dp` is the inode the caller has in core, and no
        inode in core is free. A free inode has no blocks, so clearing it loses none. */
    method Ialloc(dp: Inode, kind: Ushort) returns (r: Outcome)
      requires Consistent(dp) && FreeEmpty(Inodes(dp)) && kind != 0 && DiskInode(sb, blk, dp.inum).kind != 0
      requires forall i | i in core && i < sb.ninodes :: DiskInode(sb, blk, i).kind != 0
      modifies this`blk, this`logged
      ensures Consistent(dp) && FreeEmpty(Inodes(dp)) && (r.Ok? || r.Panic?)
      ensures Recorded(old(blk), old(logged), blk, logged)
      ensures r.Panic? ==>
                && blk == old(blk) && logged == old(logged)
                && forall i: nat | 0 < i < sb.ninodes :: DiskInode(sb, blk, i).kind != 0
      ensures r.Ok? ==>
                && 0 < r.value < sb.ninodes && DiskInode(sb, old(blk), r.value).kind == 0
                && (forall i: nat | 0 < i < r.value :: DiskInode(sb, old(blk), i).kind != 0)
                && Inodes(dp) == old(Inodes(dp))[r.value := NewDinode(kind)]
                && SameData(old(blk), old(Inodes(dp)), blk, Inodes(dp))
                && SameMaps(old(blk), old(Inodes(dp)), blk, Inodes(dp))
                && DiskInode(sb, blk, dp.inum) == DiskInode(sb, old(blk), dp.inum)
                && logged == old(logged) + {sb.IBlock(r.value)}
    {
      RecordedSelf(blk, logged);
      hide Recorded, GetDinode, PutDinode, Owns, SameData, SameMaps, FreeEmpty, DiskInode, Table;
      var inum := 1;
      while inum < sb.ninodes
        invariant 1 <= inum && blk == old(blk) && logged == old(logged)
        invariant forall i: nat | 0 < i < inum && i < sb.ninodes :: DiskInode(sb, blk, i).kind != 0
      {
        InodeNumbers(sb, inum);
        WhereInode(sb, blk, inum);
        var bp := blk[sb.IBlock(inum)];
        if GetDinode(bp, inum % IPB).kind == 0 {
          Allotted(sb, blk, core, owner, dp.inum, dp.D(), inum, kind);
          LogWrite(sb.IBlock(inum), PutDinode(bp, inum % IPB, NewDinode(kind)));
          return Ok(inum);
        }
        inum := inum + 1;
      }
      r := Panic;
    }

    /** An inode without blocks is made a free one, in core and on disk. */
    method MarkFree(ip: Inode)
      requires Consistent(ip) && Blank(ip.D())
      modifies this`blk, this`logged, ip`kind
      ensures Consistent(ip) && ip.kind == 0 && DiskInode(sb, blk, ip.inum) == ip.D()
      ensures Recorded(old(blk), old(logged), blk, logged)
      ensures Inodes(ip) == old(Inodes(ip))[ip.inum := ip.D()]
      ensures OthersSame(old(blk), old(Inodes(ip)), blk, Inodes(ip), ip.inum)
    {
      hide Recorded, GetDinode, PutDinode, OwnerHolds, HolderOwns, BitsMatch, Addr, Data, FsTable.Updated, DiskInode;
      ghost var mid, t := blk, Inodes(ip);
      OthersSelf(blk, t, ip.inum);
      ip.kind := 0;
      BlankOwns(sb, blk, t, owner, ip.inum, ip.D());
      assert Inodes(ip) == t[ip.inum := ip.D()];
      Iupdate(ip);
      UpdatedInodes(sb, mid, core, ip.inum, ip.D());
      UpdateKeepsOwns(sb, mid, t[ip.inum := ip.D()], owner, blk);
      OthersStill(mid, t, mid, t, blk, Inodes(ip), ip.inum);
    }

    /** What iput does for the last reference to an inode without links. */
    method Discard(ip: Inode)
      requires Consistent(ip) && FreeEmpty(Inodes(ip))
      modifies this`blk, this`logged, this`owner, ip`addrs, ip`size, ip`kind
      ensures Consistent(ip) && FreeEmpty(Inodes(ip)) && Recorded(old(blk), old(logged), blk, logged)
      ensures OthersSame(old(blk), old(Inodes(ip)), blk, Inodes(ip), ip.inum)
      ensures ip.kind == 0 && ip.size == 0 && Blank(ip.D()) && DiskInode(sb, blk, ip.inum) == ip.D()
      ensures owner == Without(old(owner), ip.inum) && Inodes(ip) == old(Inodes(ip))[ip.inum := ip.D()]
    {
      hide Recorded, Owns, Table, DiskInode, OthersSame, Without, Used, MappedBelow;
      ghost var blk0, t0, log0 := blk, Inodes(ip), logged;
      var r := Itrunc(ip);
      ghost var mid, t, log := blk, Inodes(ip), logged;
      MarkFree(ip);
      RecordedTwice(blk0, log0, mid, log, blk, logged);
      OthersTwice(blk0, t0, mid, t, blk, Inodes(ip), ip.inum);
    }

    /** Drops a reference to `ip`, the last of `refs` or not: when it is the last and no
        directory names the inode, its blocks and the inode itself are freed. */
    method Iput(ip: Inode, refs: nat) returns (r: Outcome)
      requires Consistent(ip) && FreeEmpty(Inodes(ip)) && refs > 0
      modifies this`blk, this`logged, this`owner, ip`addrs, ip`size, ip`kind
      ensures r.Ok? && Consistent(ip) && FreeEmpty(Inodes(ip)) && Recorded(old(blk), old(logged), blk, logged)
      ensures OthersSame(old(blk), old(Inodes(ip)), blk, Inodes(ip), ip.inum)
      ensures if ip.nlink == 0 && refs == 1
              then ip.kind == 0 && ip.size == 0 && Blank(ip.D()) && DiskInode(sb, blk, ip.inum) == ip.D() &&
                   owner == Without(old(owner), ip.inum) && Inodes(ip) == old(Inodes(ip))[ip.inum := ip.D()]
              else blk == old(blk) && owner == old(owner) && ip.D() == old(ip.D())
    {
      RecordedSelf(blk, logged);
      OthersSelf(blk, Inodes(ip), ip.inum);
      hide Recorded, Owns, Table, DiskInode, OthersSame, Without, Used, FreeEmpty, Blank;
      if ip.nlink == 0 && refs == 1 {
        Discard(ip);
      }
      r := Ok(0);
    }

    lemma {:induction false} IndirectInRange(ip: Inode)
      requires Consistent(ip) && ip.addrs[NDIRECT] != 0
      ensures ip.addrs[NDIRECT] < sb.size
    {
      IndirectOwned(sb, blk, Inodes(ip), owner, ip.inum);
    }
  }

  /** Every block changed has been passed to log_write. */
  ghost predicate Recorded(blk: seq<Block>, logged: set<nat>, blk': seq<Block>, logged': set<nat>) {
    |blk'| == |blk| && logged <= logged' && forall x: nat | x < |blk| && blk'[x] != blk[x] :: x in logged'
  }

  lemma {:induction false} RecordedSelf(blk: seq<Block>, logged: set<nat>)
    ensures Recorded(blk, logged, blk, logged)
  {
  }

  lemma {:induction false} RecordedTwice(blk: seq<Block>, logged: set<nat>, mid: seq<Block>, log: set<nat>,
                                         blk': seq<Block>, logged': set<nat>)
    requires Recorded(blk, logged, mid, log) && Recorded(mid, log, blk', logged')
    ensures Recorded(blk, logged, blk', logged')
  {
  }

  /** No inode but `i` has other blocks or other bytes than before. */
  ghost predicate OthersSame(blk: seq<Block>, t: seq<Dinode>, blk': seq<Block>, t': seq<Dinode>, i: nat)
    requires |t| == |t'|
    requires forall j | 0 <= j < |t| :: t[j].Valid() && t'[j].Valid()
  {
    forall j: nat, bn: nat | j < |t| && j != i && bn < MAXFILE ::
      Mapped(blk', t'[j], bn) == Mapped(blk, t[j], bn) && Data(blk', t'[j], bn) == Data(blk, t[j], bn)
  }

  ghost predicate SameMaps(blk: seq<Block>, t: seq<Dinode>, blk': seq<Block>, t': seq<Dinode>)
    requires |t| == |t'|
    requires forall j | 0 <= j < |t| :: t[j].Valid() && t'[j].Valid()
  {
    forall j: nat, bn: nat | j < |t| && bn < MAXFILE :: Mapped(blk', t'[j], bn) == Mapped(blk, t[j], bn)
  }

  /** Inode `i` alone is new, in core only, and no other file's bytes are. */
  ghost predicate Rewritten(sb: Super, blk: seq<Block>, t: seq<Dinode>, blk': seq<Block>, t': seq<Dinode>, i: nat)
    requires sb.Valid() && |blk| == |blk'| == sb.size && |t| == |t'| == sb.ninodes && i < sb.ninodes
    requires forall j | 0 <= j < |t| :: t[j].Valid() && t'[j].Valid()
  {
    t' == t[i := t'[i]] && OthersSame(blk, t, blk', t', i) && DiskInode(sb, blk', i) == DiskInode(sb, blk, i)
  }

  lemma {:induction false} RewrittenSelf(sb: Super, blk: seq<Block>, t: seq<Dinode>, i: nat)
    requires sb.Valid() && |blk| == sb.size && |t| == sb.ninodes && i < sb.ninodes
    requires forall j | 0 <= j < |t| :: t[j].Valid()
    ensures Rewritten(sb, blk, t, blk, t, i)
  {
  }

  lemma {:induction false} RewrittenTwice(sb: Super, blk: seq<Block>, t: seq<Dinode>, mid: seq<Block>, u: seq<Dinode>,
                                          blk': seq<Block>, t': seq<Dinode>, i: nat)
    requires sb.Valid() && |blk| == |mid| == |blk'| == sb.size && |t| == |u| == |t'| == sb.ninodes && i < sb.ninodes
    requires forall j | 0 <= j < |t| :: t[j].Valid() && u[j].Valid() && t'[j].Valid()
    requires Rewritten(sb, blk, t, mid, u, i) && Rewritten(sb, mid, u, blk', t', i)
    ensures Rewritten(sb, blk, t, blk', t', i)
  {
    OthersTwice(blk, t, mid, u, blk', t', i);
  }

  /** Every block of the first `end` bytes of `d`'s file is mapped. */
  ghost predicate MappedUpTo(blk: seq<Block>, d: Dinode, end: nat)
    requires d.Valid()
  {
    forall bn: nat | bn < MAXFILE && bn * BSIZE < end :: Mapped(blk, d, bn) != 0
  }

  lemma {:induction false} MappedSame(blk: seq<Block>, d: Dinode, blk': seq<Block>, d': Dinode, end: nat)
    requires d.Valid() && d'.Valid() && MappedUpTo(blk, d, end)
    requires forall m: nat | m < MAXFILE :: Mapped(blk', d', m) == Mapped(blk, d, m)
    ensures MappedUpTo(blk', d', end)
  {
    hide Mapped;
  }

  /** What writei's loop has logged: `data` and `maps`, in `passes` passes of which `grown`
      allocated a block. */
  datatype Bill = Bill(data: set<nat>, maps: set<nat>, passes: nat, grown: nat) {
    ghost function Plus(x: nat, bit: nat, grew: bool): Bill {
      if grew then Bill(data + {x}, maps + {bit}, passes + 1, grown + 1) else Bill(data + {x}, maps, passes + 1, grown)
    }
  }

  /** The bill covers everything logged besides the indirect block and its bit, and is in
      order after `tot` of `n` bytes; `bits` are the bit map's blocks. */
  ghost predicate Billed(bill: Bill, before: set<nat>, log: set<nat>, indirect: set<nat>, bits: set<nat>,
                         off: nat, tot: nat, n: nat) {
    && log <= before + bill.data + bill.maps + indirect && bill.maps <= bits
    && |bill.data| <= bill.passes && |bill.maps| <= bill.grown
    && Tally(off, tot, n, bill.passes, bill.grown)
  }

  lemma {:induction false} NothingBilled(log: set<nat>, indirect: set<nat>, bits: set<nat>, off: nat, n: nat)
    ensures Billed(Bill({}, {}, 0, 0), log, log, indirect, bits, off, 0, n)
  {
  }

  lemma {:induction false} BilledMore(bill: Bill, before: set<nat>, log: set<nat>, log': set<nat>, indirect: set<nat>,
                                      indirect': set<nat>, bits: set<nat>, off: nat, tot: nat, n: nat, m: nat,
                                      x: nat, bit: nat, grew: bool)
    requires Billed(bill, before, log, indirect, bits, off, tot, n) && indirect <= indirect' && tot < n && bit in bits
    requires log' <= log + {x} + (if grew then {bit} else {}) + indirect'
    requires m == if n - tot < BSIZE - (off + tot) % BSIZE then n - tot else BSIZE - (off + tot) % BSIZE
    requires tot == 0 && off % BSIZE != 0 ==> !grew
    ensures Billed(bill.Plus(x, bit, grew), before, log', indirect', bits, off, tot + m, n)
  {
    hide Tally;
    TallyStep(off, tot, n, bill.passes, bill.grown, m, grew);
  }

  /** writei's loop has made `passes` passes over `tot` of `n` bytes, `grown` of which
      allocated a block: never the first, if it starts inside a block. */
  ghost predicate Tally(off: nat, tot: nat, n: nat, passes: nat, grown: nat) {
    && grown <= passes && (off % BSIZE != 0 && passes > 0 ==> grown < passes)
    && (passes == 0 <==> tot == 0)
    && (passes > 0 ==> passes == (off + tot - 1) / BSIZE - off / BSIZE + 1)
    && (0 < tot < n ==> (off + tot) % BSIZE == 0)
  }

  lemma {:induction false} TallyStep(off: nat, tot: nat, n: nat, passes: nat, grown: nat, m: nat, grew: bool)
    requires Tally(off, tot, n, passes, grown) && tot < n
    requires m == if n - tot < BSIZE - (off + tot) % BSIZE then n - tot else BSIZE - (off + tot) % BSIZE
    requires tot == 0 && off % BSIZE != 0 ==> !grew
    ensures Tally(off, tot + m, n, passes + 1, if grew then grown + 1 else grown)
  {
    var o := off + tot;
    assert (o + m - 1) / BSIZE == o / BSIZE;
  }

  /** A pass stays within one block, the first not yet complete. */
  lemma {:induction false} PassBlock(o: nat, m: nat, size: nat)
    requires 0 < m <= BSIZE - o % BSIZE
    ensures o % BSIZE != 0 && o <= size ==> o / BSIZE * BSIZE < size
    ensures o + m <= size ==> o / BSIZE * BSIZE < size
    ensures forall bn: nat | bn * BSIZE < o + m && bn != o / BSIZE :: bn * BSIZE < o
  {
    forall bn: nat | bn * BSIZE < o + m && bn != o / BSIZE ensures bn * BSIZE < o {
      assert bn < o / BSIZE;
    }
  }

  lemma {:induction false} TallyBound(off: nat, n: nat, passes: nat, grown: nat)
    requires Tally(off, n, n, passes, grown)
    ensures n <= CHUNK ==> passes + grown <= 7 && passes <= 4
  {
  }

  /** An inode's size does not bear on who owns what. */
  lemma {:induction false} ResizeKeepsOwns(sb: Super, blk: seq<Block>, t: seq<Dinode>, owner: map<nat, Slot>, i: nat,
                                           size: Uint)
    requires Owns(sb, blk, t, owner) && i < |t|
    ensures Owns(sb, blk, t[i := t[i].(size := size)], owner)
    ensures SameData(blk, t, blk, t[i := t[i].(size := size)]) && SameMaps(blk, t, blk, t[i := t[i].(size := size)])
  {
    hide Used, Word;
    var t' := t[i := t[i].(size := size)];
    assert forall j: nat, m: nat | j < |t| && m < SLOTS :: Addr(blk, t'[j], m) == Addr(blk, t[j], m);
    assert forall j: nat, m: nat | j < |t| && m < MAXFILE :: Mapped(blk, t'[j], m) == Mapped(blk, t[j], m);
  }

  /** What a write logs, the inode's block `x` included; `a` is the indirect block. */
  lemma {:induction false} BilledBound(bill: Bill, before: set<nat>, log: set<nat>, indirect: set<nat>, bits: set<nat>,
                                       off: nat, n: nat, x: nat, a: nat)
    requires Billed(bill, before, log, indirect, bits, off, n, n) && |indirect| <= 2 && indirect <= {a} + bits
    ensures n <= CHUNK ==> |log - before| <= |log + {x} - before| <= 10
    ensures n <= CHUNK ==> |log + {x} - before| <= 6 + |bits|
  {
    TallyBound(off, n, bill.passes, bill.grown);
    hide Tally;
    var all := log + {x} - before;
    SubsetSize(log - before, all);
    UnionSize(all, bill.data, bill.maps, indirect, {x});
    UnionSize(all, bill.data, {a}, bits, {x});
  }

  lemma {:induction false} UnionSize(all: set<nat>, a: set<nat>, b: set<nat>, c: set<nat>, d: set<nat>)
    requires all <= a + b + c + d
    ensures |all| <= |a| + |b| + |c| + |d|
  {
    SubsetSize(all, a + b + c + d);
    assert |a + b| <= |a| + |b|;
    assert |a + b + c| <= |a + b| + |c|;
    assert |a + b + c + d| <= |a + b + c| + |d|;
  }

  lemma {:induction false} BitBlockInMap(sb: Super, b: nat)
    requires sb.Valid() && b < sb.size
    ensures sb.BBlock(b) in sb.MapBlocks()
  {
    BlockNumbers(sb, b);
  }

  lemma {:induction false} MapBlocksSize(sb: Super)
    requires sb.Valid()
    ensures |sb.MapBlocks()| == sb.Bitmaps()
  {
  }

  lemma {:induction false} SubsetSize(a: set<nat>, b: set<nat>)
    requires a <= b
    ensures |a| <= |b|
  {
    assert b == a + (b - a);
  }

  lemma {:induction false} OthersSelf(blk: seq<Block>, t: seq<Dinode>, i: nat)
    requires forall j | 0 <= j < |t| :: t[j].Valid()
    ensures OthersSame(blk, t, blk, t, i)
  {
  }

  lemma {:induction false} OthersTwice(blk: seq<Block>, t: seq<Dinode>, mid: seq<Block>, u: seq<Dinode>,
                                       blk': seq<Block>, t': seq<Dinode>, i: nat)
    requires |t| == |u| == |t'| && forall j | 0 <= j < |t| :: t[j].Valid() && u[j].Valid() && t'[j].Valid()
    requires OthersSame(blk, t, mid, u, i) && OthersSame(mid, u, blk', t', i)
    ensures OthersSame(blk, t, blk', t', i)
  {
    hide Data;
  }

  lemma {:induction false} SpliceNothing<T>(f: seq<T>, off: nat, s: seq<T>)
    requires off <= |f|
    ensures Splice(f, off, s[..0]) == f
  {
  }

  lemma {:induction false} ExtendsData(sb: Super, blk: seq<Block>, t: seq<Dinode>, blk': seq<Block>, t': seq<Dinode>,
                                       i: nat)
    requires Extends(sb, blk, t, blk', t', i) && i < |t|
    ensures forall bn: nat | bn < MAXFILE :: Data(blk', t'[i], bn) == Data(blk, t[i], bn)
  {
  }

  lemma {:induction false} OthersAfterBoth(sb: Super, blk: seq<Block>, t: seq<Dinode>, mid: seq<Block>, t': seq<Dinode>,
                                           blk': seq<Block>, i: nat, bn: nat)
    requires Extends(sb, blk, t, mid, t', i)
    requires forall j: nat, m: nat | j < |t| && m < MAXFILE && (j, m) != (i, bn) ::
               Data(blk', t'[j], m) == Data(mid, t'[j], m)
    requires forall j: nat, m: nat | j < |t| && m < MAXFILE :: Mapped(blk', t'[j], m) == Mapped(mid, t'[j], m)
    ensures OthersSame(blk, t, blk', t', i)
  {
    hide Addr, Data;
  }

  /** Overwriting part of the block mapped at offset `off`. */
  lemma {:induction false} PutDataHere(sb: Super, blk: seq<Block>, t: seq<Dinode>, owner: map<nat, Slot>, i: nat,
                                       off: nat, piece: seq<Byte>)
    requires Owns(sb, blk, t, owner) && i < |t| && off < MAXBYTES && off % BSIZE + |piece| <= BSIZE
    requires Mapped(blk, t[i], off / BSIZE) != 0
    ensures sb.DataStart() <= Mapped(blk, t[i], off / BSIZE) < sb.size
    ensures var x := Mapped(blk, t[i], off / BSIZE);
            var bp: Block := RawBlock(Splice(blk[x].data, off % BSIZE, piece));
            var blk' := blk[x := bp];
            && Owns(sb, blk', t, owner)
            && (forall j: nat, m: nat | j < |t| && m < MAXFILE && (j, m) != (i, off / BSIZE) ::
                  Data(blk', t[j], m) == Data(blk, t[j], m))
            && Data(blk', t[i], off / BSIZE) == bp && Data(blk, t[i], off / BSIZE) == blk[x]
            && (forall j: nat, m: nat | j < |t| && m < MAXFILE :: Mapped(blk', t[j], m) == Mapped(blk, t[j], m))
  {
    hide Addr, OwnerHolds, HolderOwns, BitsMatch;
    var x := Mapped(blk, t[i], off / BSIZE);
    PutData(sb, blk, t, owner, i, off / BSIZE, RawBlock(seq(BSIZE, _ => 0)));
    PutData(sb, blk, t, owner, i, off / BSIZE, RawBlock(Splice(blk[x].data, off % BSIZE, piece)));
  }

  lemma {:induction false} Adjoin<T>(f: seq<T>, a: nat, b: nat, c: nat)
    requires a <= b <= c <= |f|
    ensures f[a..c] == f[a..b] + f[b..c]
  {
  }

  /** A stretch of the flat file within one block. */
  lemma {:induction false} FlatBlock(sb: Super, blk: seq<Block>, t: seq<Dinode>, owner: map<nat, Slot>, i: nat, o: nat,
                                     m: nat)
    requires Owns(sb, blk, t, owner) && i < |t| && o < MAXBYTES && m <= BSIZE - o % BSIZE
    requires Mapped(blk, t[i], o / BSIZE) != 0
    ensures o + m <= MAXBYTES && Mapped(blk, t[i], o / BSIZE) < |blk|
    ensures Flat(blk, t[i])[o..o + m] == blk[Mapped(blk, t[i], o / BSIZE)].data[o % BSIZE..o % BSIZE + m]
  {
    hide Addr, Flat, FlatAt, Mapped, Data;
    MappedInRange(sb, blk, t, owner, i, o / BSIZE);
    var f, g := Flat(blk, t[i])[o..o + m], blk[Mapped(blk, t[i], o / BSIZE)].data[o % BSIZE..o % BSIZE + m];
    forall k: nat | k < m ensures f[k] == g[k] {
      FlatPoint(blk, t[i], o, k);
    }
  }

  lemma {:induction false} MappedInRange(sb: Super, blk: seq<Block>, t: seq<Dinode>, owner: map<nat, Slot>, i: nat,
                                         bn: nat)
    requires Owns(sb, blk, t, owner) && i < |t| && bn < MAXFILE && Mapped(blk, t[i], bn) != 0
    ensures sb.DataStart() <= Mapped(blk, t[i], bn) < |blk|
    ensures Data(blk, t[i], bn) == blk[Mapped(blk, t[i], bn)]
  {
    hide Addr;
    assert Mapped(blk, t[i], bn) in owner;
  }

  lemma {:induction false} FlatPoint(blk: seq<Block>, d: Dinode, o: nat, k: nat)
    requires d.Valid() && o < MAXBYTES && k < BSIZE - o % BSIZE
    ensures o + k < MAXBYTES && Flat(blk, d)[o + k] == Data(blk, d, o / BSIZE).data[o % BSIZE + k]
  {
    hide Data;
    assert (o + k) / BSIZE == o / BSIZE && (o + k) % BSIZE == o % BSIZE + k;
    assert FlatAt(blk, d, o + k) == Data(blk, d, o / BSIZE).data[o % BSIZE + k];
  }

  /** An inode with no blocks. */
  predicate Blank(d: Dinode)
    requires d.Valid()
  {
    forall k | 0 <= k <= NDIRECT :: d.addrs[k] == 0
  }

  ghost predicate FreeEmpty(t: seq<Dinode>)
    requires forall i | 0 <= i < |t| :: t[i].Valid()
  {
    forall i | 0 <= i < |t| && t[i].kind == 0 :: Blank(t[i])
  }

  function NewDinode(kind: Ushort): (d: Dinode)
    ensures d.Valid() && Blank(d) && d.kind == kind && d.major == 0 && d.minor == 0 && d.nlink == 0 && d.size == 0
  {
    Dinode(kind, 0, 0, 0, 0, seq(NDIRECT + 1, _ => 0))
  }

  /** Any inode without blocks may take the place of another. */
  lemma {:induction false} BlankOwns(sb: Super, blk: seq<Block>, t: seq<Dinode>, owner: map<nat, Slot>, i: nat,
                                     d: Dinode)
    requires Owns(sb, blk, t, owner) && i < |t| && d.Valid() && Blank(t[i]) && Blank(d)
    ensures Owns(sb, blk, t[i := d], owner) && SameData(blk, t, blk, t[i := d]) && SameMaps(blk, t, blk, t[i := d])
  {
    hide Used, Word;
    var t' := t[i := d];
    assert forall j: nat, m: nat | j < |t| && m < SLOTS :: Addr(blk, t'[j], m) == Addr(blk, t[j], m);
    assert forall j: nat, m: nat | j < |t| && m < MAXFILE :: Mapped(blk, t'[j], m) == Mapped(blk, t[j], m);
  }

  /** A disk without files, its bits set for the metadata only, is where to start from. */
  lemma {:induction false} EmptyDisk(sb: Super, blk: seq<Block>, i: nat)
    requires sb.Valid() && |blk| == sb.size && i < sb.ninodes
    requires forall j: nat | j < sb.ninodes :: Blank(DiskInode(sb, blk, j))
    requires forall b: nat | b < sb.size :: Used(sb, blk, b) <==> b < sb.DataStart()
    ensures var t := Table(sb, blk, map[], i, DiskInode(sb, blk, i)); Owns(sb, blk, t, map[]) && FreeEmpty(t)
  {
    hide Used, Word, GetDinode, DiskInode;
    var t := Table(sb, blk, map[], i, DiskInode(sb, blk, i));
    forall j: nat, k: nat | j < |t| && k < SLOTS ensures Addr(blk, t[j], k) == 0 {
      assert t[j] == DiskInode(sb, blk, j);
    }
  }

  /** An inode nobody has in core changes in the table as it does on disk. */
  lemma {:induction false} AllottedTable(sb: Super, blk: seq<Block>, core: Core, inum: nat, d: Dinode, i: nat,
                                         d': Dinode)
    requires sb.Valid() && |blk| == sb.size && inum < sb.ninodes && d.Valid() && d'.Valid()
    requires i < sb.ninodes && i != inum && i !in core
    ensures var blk' := FsTable.Updated(sb, blk, i, d');
            && Table(sb, blk', core, inum, d) == Table(sb, blk, core, inum, d)[i := d']
            && DiskInode(sb, blk', inum) == DiskInode(sb, blk, inum)
            && forall x | sb.bmapstart <= x < sb.size :: blk'[x] == blk[x]
  {
    hide GetDinode, PutDinode, FsTable.Updated, DiskInode, Table;
    UpdatedInodes(sb, blk, core, i, d');
    var blk' := FsTable.Updated(sb, blk, i, d');
    var t, t' := Table(sb, blk, core, inum, d), Table(sb, blk', core, inum, d);
    forall j: nat | j < sb.ninodes ensures t'[j] == t[i := d'][j] {
      TableAt(sb, blk, core, inum, d, j);
      TableAt(sb, blk', core, inum, d, j);
    }
  }

  lemma {:induction false} Allotted(sb: Super, blk: seq<Block>, core: Core, owner: map<nat, Slot>, inum: nat, d: Dinode,
                                    i: nat, kind: Ushort)
    requires sb.Valid() && |blk| == sb.size && inum < sb.ninodes && d.Valid() && i < sb.ninodes && kind != 0
    requires Owns(sb, blk, Table(sb, blk, core, inum, d), owner) && FreeEmpty(Table(sb, blk, core, inum, d))
    requires DiskInode(sb, blk, i).kind == 0 && i != inum && i !in core
    ensures var blk', t := FsTable.Updated(sb, blk, i, NewDinode(kind)), Table(sb, blk, core, inum, d);
            && Table(sb, blk', core, inum, d) == t[i := NewDinode(kind)]
            && Owns(sb, blk', t[i := NewDinode(kind)], owner)
            && SameData(blk, t, blk', t[i := NewDinode(kind)]) && SameMaps(blk, t, blk', t[i := NewDinode(kind)])
            && FreeEmpty(t[i := NewDinode(kind)]) && DiskInode(sb, blk', inum) == DiskInode(sb, blk, inum)
  {
    hide GetDinode, PutDinode, OwnerHolds, HolderOwns, BitsMatch, Data, FsTable.Updated, DiskInode, Addr, Mapped, Used;
    var blk', t, d' := FsTable.Updated(sb, blk, i, NewDinode(kind)), Table(sb, blk, core, inum, d), NewDinode(kind);
    assert t[i] == DiskInode(sb, blk, i);
    AllottedTable(sb, blk, core, inum, d, i, d');
    hide Table;
    BlankOwns(sb, blk, t, owner, i, d');
    UpdateKeepsOwns(sb, blk, t[i := d'], owner, blk');
    assert SameData(blk, t, blk', t[i := d']);
    assert SameMaps(blk, t, blk', t[i := d']) by { MapsOfAddrs(blk, t[i := d'], blk'); }
    assert Owns(sb, blk', t[i := d'], owner);
    hide Owns, SameData, SameMaps;
  }

  lemma {:induction false} MapsOfAddrs(blk: seq<Block>, t: seq<Dinode>, blk': seq<Block>)
    requires forall j | 0 <= j < |t| :: t[j].Valid()
    requires forall j: nat, m: nat | j < |t| && m < SLOTS :: Addr(blk', t[j], m) == Addr(blk, t[j], m)
    ensures SameMaps(blk, t, blk', t)
  {
    hide Addr;
  }

  lemma {:induction false} OthersStill(blk: seq<Block>, t: seq<Dinode>, mid: seq<Block>, u: seq<Dinode>,
                                       blk': seq<Block>, t': seq<Dinode>, i: nat)
    requires |t| == |u| == |t'| && forall j | 0 <= j < |t| :: t[j].Valid() && u[j].Valid() && t'[j].Valid()
    requires OthersSame(blk, t, mid, u, i) && i < |t| && t' == u[i := t'[i]]
    requires SameData(mid, t', blk', t') && SameMaps(mid, t', blk', t')
    ensures OthersSame(blk, t, blk', t', i)
  {
    hide Data;
    forall j: nat, bn: nat | j < |t| && j != i && bn < MAXFILE ensures Data(blk', t'[j], bn) == Data(blk, t[j], bn) {
      assert Data(blk', t'[j], bn) == Data(mid, t'[j], bn);
    }
  }

  lemma {:induction false} DirectAddr(blk: seq<Block>, d: Dinode, k: nat)
    requires d.Valid() && k <= NDIRECT
    ensures Addr(blk, d, k) == d.addrs[k]
  {
  }

  lemma {:induction false} NothingFreed(sb: Super, blk: seq<Block>, owner: map<nat, Slot>, i: nat)
    requires sb.Valid() && |blk| == sb.size
    ensures Freed(sb, blk, owner, blk, i, {})
  {
  }

  /** Without an indirect block the other slots are empty. */
  lemma {:induction false} NoEntries(sb: Super, blk: seq<Block>, t: seq<Dinode>, owner: map<nat, Slot>,
                                     blk': seq<Block>, i: nat)
    requires Owns(sb, blk, t, owner) && i < |t| && t[i].addrs[NDIRECT] == 0
    requires Freed(sb, blk, owner, blk', i, Span(0, NDIRECT))
    ensures Freed(sb, blk, owner, blk', i, Span(0, SLOTS))
  {
    hide Used, DiskInode;
    assert forall k: nat | NDIRECT <= k < SLOTS :: Addr(blk, t[i], k) == 0;
    assert forall b | b in owner && owner[b].0 == i :: owner[b].1 < NDIRECT;
  }

  /** Once every slot is emptied, inode `i` owns nothing and the others own what they did. */
  lemma {:induction false} AllFreed(sb: Super, blk: seq<Block>, core: Core, t: seq<Dinode>, owner: map<nat, Slot>,
                                    blk': seq<Block>, i: nat, d0: Dinode, d: Dinode)
    requires Owns(sb, blk, t, owner) && i < |t| && Freed(sb, blk, owner, blk', i, Span(0, SLOTS))
    requires d.Valid() && forall k | 0 <= k <= NDIRECT :: d.addrs[k] == 0
    requires d0.Valid() && t == Table(sb, blk, core, i, d0)
    ensures Table(sb, blk', core, i, d) == t[i := d]
    ensures Owns(sb, blk', t[i := d], Without(owner, i))
    ensures forall x: nat | x < sb.size :: Used(sb, blk', x) == (Used(sb, blk, x) && !(x in owner && owner[x].0 == i))
    ensures OthersSame(blk, t, blk', t[i := d], i)
  {
    hide Used, Addr, GetDinode, DiskInode, Data, Table;
    TableFrame(sb, blk, blk', core, i, d0, d);
    forall x: nat | x < sb.size ensures Used(sb, blk', x) == (Used(sb, blk, x) && !(x in owner && owner[x].0 == i)) {
      assert x in owner && owner[x].0 == i ==> HeldIn(owner, i, Span(0, SLOTS), x);
    }
    hide Freed, HeldIn, Span, OwnerHolds, HolderOwns, BitsMatch;
    TruncateKeepsOwns(sb, blk, t, owner, blk', i, d);
  }

  lemma {:induction false} EntryIsWord(blk: seq<Block>, d: Dinode, e: nat)
    requires d.Valid() && e < NINDIRECT && 0 < d.addrs[NDIRECT] < |blk|
    ensures Addr(blk, d, NDIRECT + 1 + e) == Word(blk[d.addrs[NDIRECT]], e)
  {
  }

  lemma {:induction false} ExtendsSelf(sb: Super, blk: seq<Block>, t: seq<Dinode>, i: nat)
    requires Shaped(sb, blk, t)
    ensures Extends(sb, blk, t, blk, t, i)
  {
  }

  lemma {:induction false} WhereInode(sb: Super, blk: seq<Block>, i: nat)
    requires sb.Valid() && |blk| == sb.size && i < sb.ninodes
    ensures sb.IBlock(i) < |blk| && DiskInode(sb, blk, i) == GetDinode(blk[sb.IBlock(i)], i % IPB)
  {
    InodeNumbers(sb, i);
  }

  lemma {:induction false} TableAt(sb: Super, blk: seq<Block>, core: Core, inum: nat, d: Dinode, j: nat)
    requires sb.Valid() && |blk| == sb.size && inum < sb.ninodes && d.Valid() && j < sb.ninodes
    ensures Table(sb, blk, core, inum, d)[j] ==
            if j == inum then d else if j in core then core[j] else DiskInode(sb, blk, j)
  {
    hide DiskInode;
  }

  /** Only the inodes on disk bear on the table. */
  lemma {:induction false} TableFrame(sb: Super, blk: seq<Block>, blk': seq<Block>, core: Core, inum: nat, d: Dinode,
                                      d': Dinode)
    requires sb.Valid() && |blk| == |blk'| == sb.size && inum < sb.ninodes && d.Valid() && d'.Valid()
    requires forall i: nat | i < sb.ninodes :: DiskInode(sb, blk', i) == DiskInode(sb, blk, i)
    ensures Table(sb, blk', core, inum, d') == Table(sb, blk, core, inum, d)[inum := d']
  {
    hide DiskInode, Table;
    var t, t' := Table(sb, blk, core, inum, d), Table(sb, blk', core, inum, d');
    forall j: nat | j < sb.ninodes ensures t'[j] == t[inum := d'][j] {
      TableAt(sb, blk, core, inum, d, j);
      TableAt(sb, blk', core, inum, d', j);
    }
  }

  lemma {:induction false} AllocatedTable(sb: Super, blk: seq<Block>, core: Core, b: nat, inum: nat, d: Dinode)
    requires sb.Valid() && |blk| == sb.size && sb.DataStart() <= b < sb.size && inum < sb.ninodes && d.Valid()
    ensures forall d': Dinode | d'.Valid() ::
              Table(sb, Allocated(sb, blk, b), core, inum, d') == Table(sb, blk, core, inum, d)[inum := d']
    ensures DiskInode(sb, Allocated(sb, blk, b), inum) == DiskInode(sb, blk, inum)
  {
    hide DiskInode, Allocated, Table;
    AllocatedFrame(sb, blk, b);
    forall d': Dinode | d'.Valid()
      ensures Table(sb, Allocated(sb, blk, b), core, inum, d') == Table(sb, blk, core, inum, d)[inum := d']
    {
      TableFrame(sb, blk, Allocated(sb, blk, b), core, inum, d, d');
    }
  }

  /** Data blocks hold no inodes. */
  lemma {:induction false} DataTable(sb: Super, blk: seq<Block>, core: Core, x: nat, data: Block, inum: nat, d: Dinode)
    requires sb.Valid() && |blk| == sb.size && sb.DataStart() <= x < sb.size && inum < sb.ninodes && d.Valid()
    ensures Table(sb, blk[x := data], core, inum, d) == Table(sb, blk, core, inum, d)
    ensures DiskInode(sb, blk[x := data], inum) == DiskInode(sb, blk, inum)
  {
    forall i: nat | i < sb.ninodes ensures DiskInode(sb, blk[x := data], i) == DiskInode(sb, blk, i) {
      InodeNumbers(sb, i);
    }
  }

  /** The bits of one bit map block, by their place in it. */
  lemma {:induction false} BitOfBlock(sb: Super, blk: seq<Block>, k: nat, bi: nat)
    requires sb.Valid() && |blk| == sb.size && bi < BPB && k * BPB + bi < sb.size
    ensures sb.BBlock(k * BPB) < sb.size && sb.BBlock(k * BPB + bi) == sb.BBlock(k * BPB)
    ensures Used(sb, blk, k * BPB + bi) == MapBit(blk[sb.BBlock(k * BPB)], bi)
    ensures SetUsed(sb, blk, k * BPB + bi, true) ==
            blk[sb.BBlock(k * BPB) := SetMapBit(blk[sb.BBlock(k * BPB)], bi, true)]
  {
    hide MapBit, SetMapBit;
    BlockNumbers(sb, k * BPB + bi);
    BitPlace(k, bi);
  }

  lemma {:induction false} BitPlace(k: nat, bi: nat)
    requires bi < BPB
    ensures (k * BPB + bi) / BPB == k * BPB / BPB && (k * BPB + bi) % BPB == bi
  {
  }
}
