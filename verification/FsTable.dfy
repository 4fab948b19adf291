/** Who owns which block. An inode has 141 slots: its 12 direct addresses, its indirect
    block, and that block's 128 entries. `owner` sends every block in use to the one slot
    that holds it. */
module FsTable {
  import opened Basics
  import opened Blocks
  import opened FsLayout

  type Slot = (nat, nat)

  const SLOTS: nat := NDIRECT + 1 + NINDIRECT

  /** The address in slot `k` of inode `d`, 0 if there is none. */
  function Addr(blk: seq<Block>, d: Dinode, k: nat): Uint
    requires d.Valid() && k < SLOTS
  {
    if k <= NDIRECT then d.addrs[k]
    else if d.addrs[NDIRECT] == 0 || d.addrs[NDIRECT] >= |blk| then 0
    else Word(blk[d.addrs[NDIRECT]], k - NDIRECT - 1)
  }

  /** The slot that maps the file's `bn`-th block. */
  function SlotOf(bn: nat): nat { if bn < NDIRECT then bn else bn + 1 }

  function Mapped(blk: seq<Block>, d: Dinode, bn: nat): Uint
    requires d.Valid() && bn < MAXFILE
  {
    Addr(blk, d, SlotOf(bn))
  }

  /** The file's `bn`-th block; zeroes where nothing is mapped. */
  function Data(blk: seq<Block>, d: Dinode, bn: nat): Block
    requires d.Valid() && bn < MAXFILE
  {
    if Mapped(blk, d, bn) == 0 || Mapped(blk, d, bn) >= |blk| then ZeroBlock() else blk[Mapped(blk, d, bn)]
  }

  function DiskInode(sb: Super, blk: seq<Block>, i: nat): (d: Dinode)
    requires sb.Valid() && |blk| == sb.size && i < sb.ninodes
    ensures d.Valid()
  {
    InodeNumbers(sb, i);
    GetDinode(blk[sb.IBlock(i)], i % IPB)
  }

  /** Inodes in core, which may be ahead of the disk. */
  type Core = m: map<nat, Dinode> | forall i | i in m :: m[i].Valid() witness map[]

  function Known(sb: Super, blk: seq<Block>, core: Core, i: nat): (d: Dinode)
    requires sb.Valid() && |blk| == sb.size && i < sb.ninodes
    ensures d.Valid()
  {
    if i in core then core[i] else DiskInode(sb, blk, i)
  }

  /** All inodes, the way the kernel sees them: those in core, `d` among them, and the others
      from disk. */
  function Table(sb: Super, blk: seq<Block>, core: Core, inum: nat, d: Dinode): (t: seq<Dinode>)
    requires sb.Valid() && |blk| == sb.size && inum < sb.ninodes && d.Valid()
    ensures |t| == sb.ninodes && forall i | 0 <= i < |t| :: t[i].Valid()
  {
    seq(sb.ninodes, i requires 0 <= i < sb.ninodes => Known(sb, blk, core, i))[inum := d]
  }

  ghost predicate Shaped(sb: Super, blk: seq<Block>, t: seq<Dinode>) {
    sb.Valid() && |blk| == sb.size && |t| == sb.ninodes && forall i | 0 <= i < |t| :: t[i].Valid()
  }

  /** A bit is set exactly for the metadata blocks and the blocks some slot holds, and no
      two slots hold the same block. */
  ghost predicate Owns(sb: Super, blk: seq<Block>, t: seq<Dinode>, owner: map<nat, Slot>) {
    && Shaped(sb, blk, t)
    && OwnerHolds(sb, blk, t, owner)
    && HolderOwns(blk, t, owner)
    && BitsMatch(sb, blk, owner)
  }

  ghost predicate OwnerHolds(sb: Super, blk: seq<Block>, t: seq<Dinode>, owner: map<nat, Slot>)
    requires Shaped(sb, blk, t)
  {
    forall b | b in owner ::
      && sb.DataStart() <= b < sb.size && owner[b].0 < |t| && owner[b].1 < SLOTS
      && Addr(blk, t[owner[b].0], owner[b].1) == b
  }

  ghost predicate HolderOwns(blk: seq<Block>, t: seq<Dinode>, owner: map<nat, Slot>)
    requires forall i | 0 <= i < |t| :: t[i].Valid()
  {
    forall i: nat, k: nat | i < |t| && k < SLOTS && Addr(blk, t[i], k) != 0 ::
      Addr(blk, t[i], k) in owner && owner[Addr(blk, t[i], k)] == (i, k)
  }

  ghost predicate BitsMatch(sb: Super, blk: seq<Block>, owner: map<nat, Slot>)
    requires sb.Valid() && |blk| == sb.size
  {
    forall b: nat | b < sb.size :: Used(sb, blk, b) <==> b < sb.DataStart() || b in owner
  }

  ghost predicate SameData(blk: seq<Block>, t: seq<Dinode>, blk': seq<Block>, t': seq<Dinode>)
    requires |t| == |t'|
    requires forall i | 0 <= i < |t| :: t[i].Valid() && t'[i].Valid()
  {
    forall i: nat, bn: nat | i < |t| && bn < MAXFILE :: Data(blk', t'[i], bn) == Data(blk, t[i], bn)
  }

  // ---- Allocation ------------------------------------------------------------------

  /** What balloc leaves: the bit set, the block zeroed. */
  function Allocated(sb: Super, blk: seq<Block>, b: nat): (r: seq<Block>)
    requires sb.Valid() && |blk| == sb.size && b < sb.size
    ensures |r| == sb.size
  {
    SetUsed(sb, blk, b, true)[b := ZeroBlock()]
  }

  lemma {:induction false} AllocatedFrame(sb: Super, blk: seq<Block>, b: nat)
    requires sb.Valid() && |blk| == sb.size && sb.DataStart() <= b < sb.size
    ensures Allocated(sb, blk, b)[b] == ZeroBlock()
    ensures forall x | sb.DataStart() <= x < sb.size && x != b :: Allocated(sb, blk, b)[x] == blk[x]
    ensures forall i: nat | i < sb.ninodes :: DiskInode(sb, Allocated(sb, blk, b), i) == DiskInode(sb, blk, i)
    ensures forall x: nat | x < sb.size :: Used(sb, Allocated(sb, blk, b), x) == (x == b || Used(sb, blk, x))
  {
    hide Bit, WithBit, GetDinode, SetMapBit, MapBit;
    BlockNumbers(sb, b);
    forall i: nat | i < sb.ninodes
      ensures DiskInode(sb, Allocated(sb, blk, b), i) == DiskInode(sb, blk, i)
    {
      InodeNumbers(sb, i);
    }
    forall x: nat | x < sb.size ensures Used(sb, Allocated(sb, blk, b), x) == (x == b || Used(sb, blk, x)) {
      BlockNumbers(sb, x);
      UsedOfSet(sb, blk, b, true, x);
    }
  }

  /** The bit map holds no data and no inodes. */
  lemma {:induction false} SetUsedFrame(sb: Super, blk: seq<Block>, b: nat, on: bool)
    requires sb.Valid() && |blk| == sb.size && b < sb.size
    ensures forall x | sb.DataStart() <= x < sb.size :: SetUsed(sb, blk, b, on)[x] == blk[x]
    ensures forall i: nat | i < sb.ninodes :: DiskInode(sb, SetUsed(sb, blk, b, on), i) == DiskInode(sb, blk, i)
  {
    hide Bit, WithBit, GetDinode, SetMapBit, MapBit;
    BlockNumbers(sb, b);
    forall i: nat | i < sb.ninodes
      ensures DiskInode(sb, SetUsed(sb, blk, b, on), i) == DiskInode(sb, blk, i)
    {
      InodeNumbers(sb, i);
    }
  }

  /** An indirect block that did not change gives the same addresses. */
  lemma {:induction false} AddrFrame(blk: seq<Block>, blk': seq<Block>, d: Dinode, k: nat)
    requires d.Valid() && k < SLOTS && |blk'| == |blk|
    requires 0 < d.addrs[NDIRECT] < |blk| ==> blk'[d.addrs[NDIRECT]] == blk[d.addrs[NDIRECT]]
    ensures Addr(blk', d, k) == Addr(blk, d, k)
  {
  }

  /** Every indirect block is a data block in use. */
  lemma {:induction false} IndirectOwned(sb: Super, blk: seq<Block>, t: seq<Dinode>, owner: map<nat, Slot>, i: nat)
    requires Owns(sb, blk, t, owner) && i < |t| && t[i].addrs[NDIRECT] != 0
    ensures t[i].addrs[NDIRECT] in owner && owner[t[i].addrs[NDIRECT]] == (i, NDIRECT)
    ensures sb.DataStart() <= t[i].addrs[NDIRECT] < sb.size
  {
    assert Addr(blk, t[i], NDIRECT) == t[i].addrs[NDIRECT];
  }

  /** Slot (i, k) takes the free block `b`, in state `blk'`, `t'` in which no other slot changed. */
  ghost predicate Gives(sb: Super, blk: seq<Block>, t: seq<Dinode>, owner: map<nat, Slot>,
                        blk': seq<Block>, t': seq<Dinode>, i: nat, k: nat, b: nat)
  {
    && Owns(sb, blk, t, owner) && Shaped(sb, blk', t')
    && i < |t| && k < SLOTS && sb.DataStart() <= b < sb.size && b !in owner
    && (forall x: nat | x < sb.size :: Used(sb, blk', x) == (x == b || Used(sb, blk, x)))
    && Addr(blk, t[i], k) == 0 && Addr(blk', t'[i], k) == b
    && (forall j: nat, m: nat | j < |t| && m < SLOTS && (j, m) != (i, k) :: Addr(blk', t'[j], m) == Addr(blk, t[j], m))
    && blk'[b] == ZeroBlock()
    && (forall x | x in owner && owner[x] != (i, NDIRECT) :: blk'[x] == blk[x])
  }

  lemma {:induction false} GiveKeepsOwns(sb: Super, blk: seq<Block>, t: seq<Dinode>, owner: map<nat, Slot>,
                                         blk': seq<Block>, t': seq<Dinode>, i: nat, k: nat, b: nat)
    requires Gives(sb, blk, t, owner, blk', t', i, k, b)
    ensures Owns(sb, blk', t', owner[b := (i, k)])
  {
    hide Addr, Used;
    var owner' := owner[b := (i, k)];
    forall x | x in owner' ensures
        && sb.DataStart() <= x < sb.size && owner'[x].0 < |t'| && owner'[x].1 < SLOTS
        && Addr(blk', t'[owner'[x].0], owner'[x].1) == x
    {
      if x != b {
        assert owner[x] != (i, k);
      }
    }
  }

  lemma {:induction false} GiveKeepsData(sb: Super, blk: seq<Block>, t: seq<Dinode>, owner: map<nat, Slot>,
                                         blk': seq<Block>, t': seq<Dinode>, i: nat, k: nat, b: nat)
    requires Gives(sb, blk, t, owner, blk', t', i, k, b)
    ensures SameData(blk, t, blk', t')
  {
    hide Addr, Used;
    forall j: nat, bn: nat | j < |t| && bn < MAXFILE ensures Data(blk', t'[j], bn) == Data(blk, t[j], bn) {
      var m := SlotOf(bn);
      if (j, m) != (i, k) {
        var a := Addr(blk, t[j], m);
        assert a != 0 ==> a in owner && owner[a] == (j, m);
      }
    }
  }

  /** No file's bytes change and no address is lost; addresses of inode `i` may be added. */
  ghost predicate Extends(sb: Super, blk: seq<Block>, t: seq<Dinode>, blk': seq<Block>, t': seq<Dinode>, i: nat) {
    && Shaped(sb, blk, t) && Shaped(sb, blk', t')
    && SameData(blk, t, blk', t')
    && forall j: nat, m: nat | j < |t| && m < SLOTS && (j != i || Addr(blk, t[j], m) != 0) ::
         Addr(blk', t'[j], m) == Addr(blk, t[j], m)
  }

  lemma {:induction false} GiveExtends(sb: Super, blk: seq<Block>, t: seq<Dinode>, owner: map<nat, Slot>,
                                       blk': seq<Block>, t': seq<Dinode>, i: nat, k: nat, b: nat)
    requires Gives(sb, blk, t, owner, blk', t', i, k, b)
    ensures Extends(sb, blk, t, blk', t', i)
  {
    hide Addr, Used, Data;
    GiveKeepsData(sb, blk, t, owner, blk', t', i, k, b);
  }

  lemma {:induction false} ExtendsTwice(sb: Super, blk: seq<Block>, t: seq<Dinode>, mid: seq<Block>, u: seq<Dinode>,
                                        blk': seq<Block>, t': seq<Dinode>, i: nat)
    requires Extends(sb, blk, t, mid, u, i) && Extends(sb, mid, u, blk', t', i)
    ensures Extends(sb, blk, t, blk', t', i)
  {
    hide Addr, Data;
  }

  /** A direct address, or the indirect block, is allocated. */
  lemma {:induction false} GiveDirect(sb: Super, blk: seq<Block>, t: seq<Dinode>, owner: map<nat, Slot>, i: nat, k: nat,
                                      b: nat)
    requires Owns(sb, blk, t, owner) && i < |t| && k <= NDIRECT && t[i].addrs[k] == 0
    requires b < sb.size && !Used(sb, blk, b)
    ensures Gives(sb, blk, t, owner, Allocated(sb, blk, b), t[i := t[i].(addrs := t[i].addrs[k := b])], i, k, b)
  {
    hide Used, Word;
    var blk' := Allocated(sb, blk, b);
    var t' := t[i := t[i].(addrs := t[i].addrs[k := b])];
    assert b >= sb.DataStart() && b !in owner;
    AllocatedFrame(sb, blk, b);
    forall j: nat, m: nat | j < |t| && m < SLOTS && (j, m) != (i, k)
      ensures Addr(blk', t'[j], m) == Addr(blk, t[j], m)
    {
      if t[j].addrs[NDIRECT] != 0 {
        IndirectOwned(sb, blk, t, owner, j);
        AddrFrame(blk, blk', t[j], m);
      } else if m > NDIRECT && j == i && k == NDIRECT {
        WordOfZero(m - NDIRECT - 1);
      }
    }
  }

  /** An entry of an existing indirect block is allocated. */
  lemma {:induction false} GiveEntry(sb: Super, blk: seq<Block>, t: seq<Dinode>, owner: map<nat, Slot>, i: nat, e: nat,
                                     b: nat)
    requires Owns(sb, blk, t, owner) && i < |t| && e < NINDIRECT
    requires 0 < t[i].addrs[NDIRECT] < sb.size && Word(blk[t[i].addrs[NDIRECT]], e) == 0
    requires b < sb.size && !Used(sb, blk, b)
    ensures var ind := t[i].addrs[NDIRECT];
            Gives(sb, blk, t, owner, Allocated(sb, blk, b)[ind := SetWord(Allocated(sb, blk, b)[ind], e, b)], t,
                  i, NDIRECT + 1 + e, b)
  {
    hide Used, Word, SetWord;
    var ind := t[i].addrs[NDIRECT];
    var mid := Allocated(sb, blk, b);
    var blk' := mid[ind := SetWord(mid[ind], e, b)];
    assert b >= sb.DataStart() && b !in owner;
    AllocatedFrame(sb, blk, b);
    IndirectOwned(sb, blk, t, owner, i);
    WordOfSetWord(blk[ind], e, b);
    forall x: nat | x < sb.size ensures Used(sb, blk', x) == Used(sb, mid, x) {
      UsedFrame(sb, mid, blk', x);
    }
    forall j: nat, m: nat | j < |t| && m < SLOTS && (j, m) != (i, NDIRECT + 1 + e)
      ensures Addr(blk', t[j], m) == Addr(blk, t[j], m)
    {
      if t[j].addrs[NDIRECT] != 0 && j != i {
        IndirectOwned(sb, blk, t, owner, j);
        AddrFrame(blk, blk', t[j], m);
      }
    }
  }

  lemma {:induction false} UsedFrame(sb: Super, blk: seq<Block>, blk': seq<Block>, x: nat)
    requires sb.Valid() && |blk| == |blk'| == sb.size && x < sb.size
    requires forall m | sb.bmapstart <= m < sb.DataStart() :: blk'[m] == blk[m]
    ensures Used(sb, blk', x) == Used(sb, blk, x)
  {
    BlockNumbers(sb, x);
  }

  // ---- Writing a data block -----------------------------------------------------------

  /** Overwriting the block mapped at (i, bn) changes that block of that file, and nothing else. */
  lemma {:induction false} PutData(sb: Super, blk: seq<Block>, t: seq<Dinode>, owner: map<nat, Slot>, i: nat, bn: nat,
                                   data: Block)
    requires Owns(sb, blk, t, owner) && i < |t| && bn < MAXFILE && Mapped(blk, t[i], bn) != 0
    ensures sb.DataStart() <= Mapped(blk, t[i], bn) < sb.size
    ensures var blk' := blk[Mapped(blk, t[i], bn) := data];
            && Owns(sb, blk', t, owner)
            && (forall j: nat, m: nat | j < |t| && m < SLOTS :: Addr(blk', t[j], m) == Addr(blk, t[j], m))
            && (forall j: nat, m: nat | j < |t| && m < MAXFILE ::
                  Data(blk', t[j], m) == if (j, m) == (i, bn) then data else Data(blk, t[j], m))
            && (forall j: nat | j < sb.ninodes :: DiskInode(sb, blk', j) == DiskInode(sb, blk, j))
  {
    hide Used, Word, GetDinode;
    var x := Mapped(blk, t[i], bn);
    assert x in owner && owner[x] == (i, SlotOf(bn));
    var blk' := blk[x := data];
    forall j: nat, m: nat | j < |t| && m < SLOTS ensures Addr(blk', t[j], m) == Addr(blk, t[j], m) {
      if t[j].addrs[NDIRECT] != 0 {
        IndirectOwned(sb, blk, t, owner, j);
      }
      AddrFrame(blk, blk', t[j], m);
    }
    forall b: nat | b < sb.size ensures Used(sb, blk', b) == Used(sb, blk, b) {
      UsedFrame(sb, blk, blk', b);
    }
    forall j: nat, m: nat | j < |t| && m < MAXFILE
      ensures Data(blk', t[j], m) == if (j, m) == (i, bn) then data else Data(blk, t[j], m)
    {
      PutDataAt(blk, t, owner, i, bn, data, j, m);
    }
    forall j: nat | j < sb.ninodes ensures DiskInode(sb, blk', j) == DiskInode(sb, blk, j) {
      InodeNumbers(sb, j);
    }
  }

  lemma {:induction false} PutDataAt(blk: seq<Block>, t: seq<Dinode>, owner: map<nat, Slot>, i: nat, bn: nat,
                                     data: Block, j: nat, m: nat)
    requires (forall k | 0 <= k < |t| :: t[k].Valid()) && HolderOwns(blk, t, owner)
    requires i < |t| && j < |t| && bn < MAXFILE && m < MAXFILE && 0 < Mapped(blk, t[i], bn) < |blk|
    requires var blk' := blk[Mapped(blk, t[i], bn) := data]; Addr(blk', t[j], SlotOf(m)) == Addr(blk, t[j], SlotOf(m))
    ensures Data(blk[Mapped(blk, t[i], bn) := data], t[j], m) == if (j, m) == (i, bn) then data else Data(blk, t[j], m)
  {
    hide Addr;
    assert Addr(blk, t[j], SlotOf(m)) != 0 ==> owner[Addr(blk, t[j], SlotOf(m))] == (j, SlotOf(m));
    assert owner[Addr(blk, t[i], SlotOf(bn))] == (i, SlotOf(bn));
  }

  // ---- Writing an inode back ------------------------------------------------------------

  function Updated(sb: Super, blk: seq<Block>, i: nat, d: Dinode): (r: seq<Block>)
    requires sb.Valid() && |blk| == sb.size && i < sb.ninodes && d.Valid()
    ensures |r| == sb.size
  {
    InodeNumbers(sb, i);
    blk[sb.IBlock(i) := PutDinode(blk[sb.IBlock(i)], i % IPB, d)]
  }

  lemma {:induction false} UpdatedInodes(sb: Super, blk: seq<Block>, core: Core, i: nat, d: Dinode)
    requires sb.Valid() && |blk| == sb.size && i < sb.ninodes && d.Valid()
    ensures forall j: nat | j < sb.ninodes ::
              DiskInode(sb, Updated(sb, blk, i, d), j) == if j == i then d else DiskInode(sb, blk, j)
    ensures Table(sb, Updated(sb, blk, i, d), core, i, d) == Table(sb, blk, core, i, d)
    ensures forall x | sb.bmapstart <= x < sb.size :: Updated(sb, blk, i, d)[x] == blk[x]
  {
    hide GetDinode, PutDinode;
    InodeNumbers(sb, i);
    forall j: nat | j < sb.ninodes
      ensures DiskInode(sb, Updated(sb, blk, i, d), j) == if j == i then d else DiskInode(sb, blk, j)
    {
      InodeNumbers(sb, j);
      DinodeRoundTrip(blk[sb.IBlock(i)], i % IPB, d, j % IPB);
      if sb.IBlock(j) == sb.IBlock(i) && j % IPB == i % IPB {
        assert j == i;
      }
    }
  }

  /** Metadata other than the bit map and the indirect blocks does not bear on ownership. */
  lemma {:induction false} UpdateKeepsOwns(sb: Super, blk: seq<Block>, t: seq<Dinode>, owner: map<nat, Slot>,
                                           blk': seq<Block>)
    requires Owns(sb, blk, t, owner) && |blk'| == |blk|
    requires forall x | sb.bmapstart <= x < sb.size :: blk'[x] == blk[x]
    ensures Owns(sb, blk', t, owner) && SameData(blk, t, blk', t)
    ensures forall b: nat | b < sb.size :: Used(sb, blk', b) == Used(sb, blk, b)
    ensures forall j: nat, m: nat | j < |t| && m < SLOTS :: Addr(blk', t[j], m) == Addr(blk, t[j], m)
  {
    hide Word, Used;
    BlockNumbers(sb, 0);
    forall j: nat, m: nat | j < |t| && m < SLOTS ensures Addr(blk', t[j], m) == Addr(blk, t[j], m) {
      if t[j].addrs[NDIRECT] != 0 {
        IndirectOwned(sb, blk, t, owner, j);
      }
      AddrFrame(blk, blk', t[j], m);
    }
    forall b: nat | b < sb.size ensures Used(sb, blk', b) == Used(sb, blk, b) {
      UsedFrame(sb, blk, blk', b);
    }
    forall j: nat, m: nat | j < |t| && m < MAXFILE ensures Data(blk', t[j], m) == Data(blk, t[j], m) {
      var a := Addr(blk, t[j], SlotOf(m));
      assert a != 0 ==> a in owner;
    }
  }

  // ---- Truncation --------------------------------------------------------------------------

  function Span(lo: nat, hi: nat): (r: set<nat>)
    ensures forall k: nat :: k in r <==> lo <= k < hi
    decreases hi - lo
  {
    if lo >= hi then {} else {lo} + Span(lo + 1, hi)
  }

  /** The blocks inode `i` holds in the slots `gone`. */
  ghost predicate HeldIn(owner: map<nat, Slot>, i: nat, gone: set<nat>, b: nat) {
    b in owner && owner[b].0 == i && owner[b].1 in gone
  }

  /** The bits of those blocks are clear, and nothing else has changed. */
  ghost predicate Freed(sb: Super, blk: seq<Block>, owner: map<nat, Slot>, blk': seq<Block>, i: nat, gone: set<nat>)
    requires sb.Valid() && |blk| == sb.size
  {
    && |blk'| == sb.size
    && (forall x | sb.DataStart() <= x < sb.size :: blk'[x] == blk[x])
    && (forall x: nat | x < sb.size :: Used(sb, blk', x) == (Used(sb, blk, x) && !HeldIn(owner, i, gone, x)))
    && (forall j: nat | j < sb.ninodes :: DiskInode(sb, blk', j) == DiskInode(sb, blk, j))
  }

  /** The block in a slot not yet emptied is still marked in use, and freeing it empties the slot. */
  lemma {:induction false} FreeSlot(sb: Super, blk: seq<Block>, t: seq<Dinode>, owner: map<nat, Slot>,
                                    blk': seq<Block>, i: nat, gone: set<nat>, k: nat)
    requires Owns(sb, blk, t, owner) && i < |t| && Freed(sb, blk, owner, blk', i, gone) && k < SLOTS && k !in gone
    ensures var a := Addr(blk, t[i], k);
            if a == 0 then Freed(sb, blk, owner, blk', i, gone + {k})
            else a < sb.size && Used(sb, blk', a) && Freed(sb, blk, owner, SetUsed(sb, blk', a, false), i, gone + {k})
  {
    hide Addr, Used, GetDinode;
    var a := Addr(blk, t[i], k);
    if a == 0 {
      assert forall b | b in owner :: owner[b] != (i, k);
    } else {
      assert a in owner && owner[a] == (i, k);
      assert forall b | b in owner && b != a :: owner[b] != (i, k);
      var blk'' := SetUsed(sb, blk', a, false);
      forall x: nat | x < sb.size ensures Used(sb, blk'', x) == (Used(sb, blk, x) && !HeldIn(owner, i, gone + {k}, x)) {
        UsedOfSet(sb, blk', a, false, x);
      }
      SetUsedFrame(sb, blk', a, false);
    }
  }

  ghost function Without(owner: map<nat, Slot>, i: nat): map<nat, Slot> {
    map b | b in owner && owner[b].0 != i :: owner[b]
  }

  /** With inode `i`'s bits cleared and its addresses gone, everyone else owns what they did. */
  lemma {:induction false} TruncateKeepsOwns(sb: Super, blk: seq<Block>, t: seq<Dinode>, owner: map<nat, Slot>,
                                             blk': seq<Block>, i: nat, d: Dinode)
    requires Owns(sb, blk, t, owner) && i < |t| && |blk'| == |blk|
    requires d.Valid() && forall k | 0 <= k <= NDIRECT :: d.addrs[k] == 0
    requires forall x | sb.DataStart() <= x < sb.size :: blk'[x] == blk[x]
    requires forall b: nat | b < sb.size :: Used(sb, blk', b) == (Used(sb, blk, b) && !(b in owner && owner[b].0 == i))
    ensures Owns(sb, blk', t[i := d], Without(owner, i))
    ensures forall j: nat, bn: nat | j < |t| && j != i && bn < MAXFILE ::
              Mapped(blk', t[j], bn) == Mapped(blk, t[j], bn) && Data(blk', t[j], bn) == Data(blk, t[j], bn)
    ensures forall bn: nat | bn < MAXFILE :: Mapped(blk', d, bn) == 0
  {
    hide Word, Used;
    var t' := t[i := d];
    forall j: nat, m: nat | j < |t| && m < SLOTS && j != i ensures Addr(blk', t[j], m) == Addr(blk, t[j], m) {
      if t[j].addrs[NDIRECT] != 0 {
        IndirectOwned(sb, blk, t, owner, j);
      }
      AddrFrame(blk, blk', t[j], m);
    }
    assert forall m: nat | m < SLOTS :: Addr(blk', d, m) == 0;
    assert HolderOwns(blk', t', Without(owner, i));
    assert OwnerHolds(sb, blk', t', Without(owner, i));
    forall j: nat, bn: nat | j < |t| && j != i && bn < MAXFILE ensures Data(blk', t[j], bn) == Data(blk, t[j], bn) {
      var a := Addr(blk, t[j], SlotOf(bn));
      assert a != 0 ==> a in owner;
    }
  }

  // ---- The flat file ---------------------------------------------------------------------------

  const MAXBYTES: nat := MAXFILE * BSIZE

  function FlatAt(blk: seq<Block>, d: Dinode, o: nat): Byte
    requires d.Valid() && o < MAXBYTES
  {
    Data(blk, d, o / BSIZE).data[o % BSIZE]
  }

  /** The file as one sequence of bytes, to the largest offset a file can have. */
  ghost function Flat(blk: seq<Block>, d: Dinode): (f: seq<Byte>)
    requires d.Valid()
    ensures |f| == MAXBYTES
    ensures forall o | 0 <= o < MAXBYTES :: f[o] == FlatAt(blk, d, o)
  {
    seq(MAXBYTES, o requires 0 <= o < MAXBYTES => FlatAt(blk, d, o))
  }

  /** Where byte `o` of a file is: block o / 512 is one of the twelve addresses in the inode, or
      one of those in the block that the thirteenth names. */
  lemma {:induction false} FileByte(blk: seq<Block>, d: Dinode, o: nat)
    requires d.Valid() && o < MAXBYTES
    ensures var bn, ind := o / 512, d.addrs[12];
            var b: nat := if bn < 12 then d.addrs[bn] else if ind == 0 || ind >= |blk| then 0
                          else Load(blk[ind].data, 4 * (bn - 12));
            Flat(blk, d)[o] == if b == 0 || b >= |blk| then 0 else blk[b].data[o % 512]
  {
    assert Flat(blk, d)[o] == FlatAt(blk, d, o);
  }

  /** Inode `i` is the 64 bytes from 64 * (i % 8) on in inode block i / 8. */
  lemma {:induction false} InodeBytes(sb: Super, blk: seq<Block>, i: nat)
    requires sb.Valid() && |blk| == sb.size && i < sb.ninodes
    ensures sb.inodestart + i / 8 < sb.size
    ensures var d, m, a := DiskInode(sb, blk, i), blk[sb.inodestart + i / 8].data, 64 * (i % 8);
            && d.kind == Short(m, a) && d.major == Short(m, a + 2) && d.minor == Short(m, a + 4)
            && d.nlink == Short(m, a + 6) && d.size == Load(m, a + 8)
            && forall k | 0 <= k <= 12 :: d.addrs[k] == Load(m, a + 12 + 4 * k)
  {
    hide GetDinode;
    InodeNumbers(sb, i);
    DinodeBytes(blk[sb.IBlock(i)], i % IPB);
  }

  function Splice<T>(f: seq<T>, off: nat, s: seq<T>): seq<T>
    requires off + |s| <= |f|
  {
    f[..off] + s + f[off + |s|..]
  }

  lemma {:induction false} SpliceTwice<T>(f: seq<T>, off: nat, s: seq<T>, k: nat, m: nat)
    requires k <= m <= |s| && off + m <= |f|
    ensures Splice(Splice(f, off, s[..k]), off + k, s[k..m]) == Splice(f, off, s[..m])
  {
  }

  /** Files whose blocks agree are the same bytes. */
  lemma {:induction false} SameFlat(blk: seq<Block>, d: Dinode, blk': seq<Block>, d': Dinode)
    requires d.Valid() && d'.Valid()
    requires forall bn: nat | bn < MAXFILE :: Data(blk', d', bn) == Data(blk, d, bn)
    ensures Flat(blk', d') == Flat(blk, d)
  {
    hide Data;
    forall o | 0 <= o < MAXBYTES ensures FlatAt(blk', d', o) == FlatAt(blk, d, o) {
      assert o / BSIZE < MAXFILE;
    }
  }

  /** Overwriting part of one block is a splice of the flat file. */
  lemma {:induction false} BlockSplice(blk: seq<Block>, d: Dinode, blk': seq<Block>, d': Dinode, off: nat, s: seq<Byte>)
    requires d.Valid() && d'.Valid() && off < MAXBYTES && off % BSIZE + |s| <= BSIZE
    requires forall bn: nat | bn < MAXFILE && bn != off / BSIZE :: Data(blk', d', bn) == Data(blk, d, bn)
    requires Data(blk', d', off / BSIZE).data == Splice(Data(blk, d, off / BSIZE).data, off % BSIZE, s)
    ensures off + |s| <= MAXBYTES && Flat(blk', d') == Splice(Flat(blk, d), off, s)
  {
    hide Data;
    var f, f' := Flat(blk, d), Flat(blk', d');
    forall o | 0 <= o < MAXBYTES ensures f'[o] == Splice(f, off, s)[o] {
      if o / BSIZE == off / BSIZE {
        assert o - off == o % BSIZE - off % BSIZE;
      }
    }
  }
}
