/** The file system's metadata as fs.h lays it out in blocks: the free bit map, and the
    64-byte inodes, eight to a block. */
module FsLayout {
  import opened Basics
  import opened Blocks

  const NDIRECT: nat := 12
  const NINDIRECT: nat := WORDS
  const MAXFILE: nat := NDIRECT + NINDIRECT
  const IPB: nat := 8
  const BPB: nat := 8 * BSIZE

  const T_DEV: nat := 3

  datatype Super = Super(size: nat, nblocks: nat, ninodes: nat, nlog: nat, logstart: nat, inodestart: nat,
                         bmapstart: nat) {
    function DataStart(): int { size - nblocks }

    function IBlock(i: nat): nat { i / IPB + inodestart }

    function BBlock(b: nat): nat { b / BPB + bmapstart }

    /** How many blocks the bit map takes, and which. */
    function Bitmaps(): nat
      requires 1 <= size
    {
      (size - 1) / BPB + 1
    }

    ghost function MapBlocks(): set<nat>
      requires 1 <= size
    {
      Range(bmapstart, Bitmaps())
    }

    /** mkfs's order on disk: boot and super block, log, inodes, bit map, data. */
    predicate Valid() {
      && 2 <= logstart && logstart + nlog <= inodestart && 1 <= ninodes
      && IBlock(ninodes - 1) < bmapstart
      && 1 <= size < 0x1_0000_0000
      && BBlock(size - 1) < DataStart()
    }
  }

  ghost function Range(lo: nat, n: nat): (r: set<nat>)
    ensures |r| == n && forall b :: b in r <==> lo <= b < lo + n
  {
    if n == 0 then {} else Range(lo, n - 1) + {lo + n - 1}
  }

  lemma {:induction false} BlockNumbers(sb: Super, b: nat)
    requires sb.Valid() && b < sb.size
    ensures sb.bmapstart <= sb.BBlock(b) <= sb.BBlock(sb.size - 1) < sb.DataStart() <= sb.size
  {
  }

  lemma {:induction false} InodeNumbers(sb: Super, i: nat)
    requires sb.Valid() && i < sb.ninodes
    ensures sb.inodestart <= sb.IBlock(i) < sb.bmapstart < sb.DataStart()
  {
    assert i / IPB <= (sb.ninodes - 1) / IPB;
  }

  // ---- Bits -------------------------------------------------------------------

  /** `n & (1 << k)` is not zero. */
  predicate Bit(n: nat, k: nat) {
    if k == 0 then n % 2 == 1 else Bit(n / 2, k - 1)
  }

  /** `n | (1 << k)`, or `n & ~(1 << k)`. */
  function WithBit(n: nat, k: nat, on: bool): nat {
    if k == 0 then n - n % 2 + (if on then 1 else 0) else 2 * WithBit(n / 2, k - 1, on) + n % 2
  }

  function Pow2(k: nat): (p: nat)
    ensures p > 0
  {
    if k == 0 then 1 else 2 * Pow2(k - 1)
  }

  lemma {:induction false} BitIsDigit(n: nat, k: nat)
    ensures Bit(n, k) <==> n / Pow2(k) % 2 == 1
  {
    if k > 0 {
      BitIsDigit(n / 2, k - 1);
      DivTwice(n, Pow2(k - 1));
    }
  }

  lemma {:induction false} DivTwice(n: nat, d: nat)
    requires d > 0
    ensures n / 2 / d == n / (2 * d)
  {
    var q, r := n / 2 / d, n / 2 % d;
    assert n / 2 == d * q + r;
    assert n == (2 * d) * q + (2 * r + n % 2);
    DivIs(n, 2 * d, q, 2 * r + n % 2);
  }

  lemma {:induction false} DivIs(n: nat, d: nat, q: nat, r: nat)
    requires n == d * q + r && r < d
    ensures n / d == q
  {
    var m := n / d - q;
    assert d * m == r - n % d;
    assert m >= 1 ==> d * m >= d;
    assert m <= -1 ==> d * m <= 0 - d;
  }

  lemma {:induction false} WithBitBound(n: nat, k: nat, on: bool, m: nat)
    requires k < m && n < Pow2(m)
    ensures WithBit(n, k, on) < Pow2(m)
  {
    var half := Pow2(m - 1);
    assert Pow2(m) == 2 * half && n / 2 < half;
    if k > 0 {
      WithBitBound(n / 2, k - 1, on, m - 1);
      assert WithBit(n, k, on) == 2 * WithBit(n / 2, k - 1, on) + n % 2;
    } else {
      assert WithBit(n, k, on) <= 2 * (n / 2) + 1;
    }
  }

  lemma {:induction false} BitOfWithBit(n: nat, k: nat, on: bool, j: nat)
    ensures Bit(WithBit(n, k, on), j) == if j == k then on else Bit(n, j)
  {
    if k > 0 {
      assert WithBit(n, k, on) / 2 == WithBit(n / 2, k - 1, on);
      if j > 0 {
        BitOfWithBit(n / 2, k - 1, on, j - 1);
      }
    } else {
      assert WithBit(n, k, on) / 2 == n / 2;
    }
  }

  function ByteWithBit(n: Byte, k: nat, on: bool): Byte
    requires k < 8
  {
    assert Pow2(4) == 16 && Pow2(8) == 16 * Pow2(4);
    WithBitBound(n, k, on, 8);
    WithBit(n, k, on)
  }

  // ---- The free bit map ---------------------------------------------------------

  predicate MapBit(m: Block, bi: nat)
    requires bi < BPB
  {
    Bit(m.data[bi / 8], bi % 8)
  }

  function SetMapBit(m: Block, bi: nat, on: bool): Block
    requires bi < BPB
  {
    RawBlock(m.data[bi / 8 := ByteWithBit(m.data[bi / 8], bi % 8, on)])
  }

  lemma {:induction false} MapBitOfSet(m: Block, bi: nat, on: bool, bj: nat)
    requires bi < BPB && bj < BPB
    ensures MapBit(SetMapBit(m, bi, on), bj) == if bj == bi then on else MapBit(m, bj)
  {
    if bj / 8 == bi / 8 {
      BitOfWithBit(m.data[bi / 8], bi % 8, on, bj % 8);
    }
  }

  lemma {:induction false} MapBitIsDigit(m: Block, bi: nat)
    requires bi < BPB
    ensures MapBit(m, bi) <==> m.data[bi / 8] / Pow2(bi % 8) % 2 == 1
  {
    BitIsDigit(m.data[bi / 8], bi % 8);
  }

  predicate Used(sb: Super, blk: seq<Block>, b: nat)
    requires sb.Valid() && |blk| == sb.size && b < sb.size
  {
    BlockNumbers(sb, b);
    MapBit(blk[sb.BBlock(b)], b % BPB)
  }

  lemma {:induction false} BitPlace(b: nat)
    ensures BPB == 4096 && b % 4096 % 8 == b % 8
  {
    var q := b / 4096;
    assert b == 8 * (512 * q) + b % 4096;
  }

  /** Block `b` is in use if bit b % 8 of byte b % 4096 / 8 of bit map block b / 4096 is set. */
  lemma {:induction false} UsedBit(sb: Super, blk: seq<Block>, b: nat)
    requires sb.Valid() && |blk| == sb.size && b < sb.size
    ensures sb.bmapstart + b / 4096 < sb.size
    ensures Used(sb, blk, b) <==> blk[sb.bmapstart + b / 4096].data[b % 4096 / 8] / Pow2(b % 8) % 2 == 1
  {
    hide MapBit, Pow2;
    BlockNumbers(sb, b);
    BitPlace(b);
    MapBitIsDigit(blk[sb.BBlock(b)], b % BPB);
  }

  function SetUsed(sb: Super, blk: seq<Block>, b: nat, on: bool): (r: seq<Block>)
    requires sb.Valid() && |blk| == sb.size && b < sb.size
    ensures |r| == sb.size
  {
    BlockNumbers(sb, b);
    blk[sb.BBlock(b) := SetMapBit(blk[sb.BBlock(b)], b % BPB, on)]
  }

  lemma {:induction false} UsedOfSet(sb: Super, blk: seq<Block>, b: nat, on: bool, x: nat)
    requires sb.Valid() && |blk| == sb.size && b < sb.size && x < sb.size
    ensures Used(sb, SetUsed(sb, blk, b, on), x) == if x == b then on else Used(sb, blk, x)
  {
    BlockNumbers(sb, b);
    BlockNumbers(sb, x);
    if sb.BBlock(x) == sb.BBlock(b) {
      MapBitOfSet(blk[sb.BBlock(b)], b % BPB, on, x % BPB);
    }
  }

  // ---- Inodes on disk -------------------------------------------------------------

  type Ushort = n: int | 0 <= n < 0x1_0000

  datatype Dinode = Dinode(kind: Ushort, major: Ushort, minor: Ushort, nlink: Ushort, size: Uint, addrs: seq<Uint>) {
    predicate Valid() { |addrs| == NDIRECT + 1 }
  }

  function Pack(lo: Ushort, hi: Ushort): Uint {
    var l: int, h: int := lo, hi;
    l + 0x1_0000 * h
  }

  function Words(m: Block, at: nat, n: nat): (w: seq<Uint>)
    requires at + n <= WORDS
    ensures |w| == n && forall i | 0 <= i < n :: w[i] == Word(m, at + i)
  {
    if n == 0 then [] else Words(m, at, n - 1) + [Word(m, at + n - 1)]
  }

  /** The `k`-th inode of an inode block. */
  function GetDinode(m: Block, k: nat): (d: Dinode)
    requires k < IPB
    ensures d.Valid()
  {
    var w0, w1 := Word(m, 16 * k), Word(m, 16 * k + 1);
    Dinode(w0 % 0x1_0000, w0 / 0x1_0000, w1 % 0x1_0000, w1 / 0x1_0000, Word(m, 16 * k + 2),
           Words(m, 16 * k + 3, NDIRECT + 1))
  }

  function PutAddrs(m: Block, k: nat, addrs: seq<Uint>, n: nat): Block
    requires k < IPB && |addrs| == NDIRECT + 1 && n <= NDIRECT + 1
  {
    if n == 0 then m else SetWord(PutAddrs(m, k, addrs, n - 1), 16 * k + 2 + n, addrs[n - 1])
  }

  function PutDinode(m: Block, k: nat, d: Dinode): Block
    requires k < IPB && d.Valid()
  {
    PutAddrs(
      SetWord(SetWord(SetWord(m, 16 * k, Pack(d.kind, d.major)), 16 * k + 1, Pack(d.minor, d.nlink)),
              16 * k + 2, d.size),
      k, d.addrs, NDIRECT + 1)
  }

  lemma {:induction false} PutAddrsWords(m: Block, k: nat, addrs: seq<Uint>, n: nat)
    requires k < IPB && |addrs| == NDIRECT + 1 && n <= NDIRECT + 1
    ensures forall i | 0 <= i < n :: Word(PutAddrs(m, k, addrs, n), 16 * k + 3 + i) == addrs[i]
    ensures forall j: nat | j < WORDS && !(16 * k + 3 <= j < 16 * k + 3 + n) ::
              Word(PutAddrs(m, k, addrs, n), j) == Word(m, j)
  {
    if n > 0 {
      PutAddrsWords(m, k, addrs, n - 1);
      WordOfSetWord(PutAddrs(m, k, addrs, n - 1), 16 * k + 2 + n, addrs[n - 1]);
    }
  }

  lemma {:induction false} PutDinodeWords(m: Block, k: nat, d: Dinode)
    requires k < IPB && d.Valid()
    ensures var p := PutDinode(m, k, d);
            && Word(p, 16 * k) == Pack(d.kind, d.major) && Word(p, 16 * k + 1) == Pack(d.minor, d.nlink)
            && Word(p, 16 * k + 2) == d.size && Words(p, 16 * k + 3, NDIRECT + 1) == d.addrs
    ensures forall j: nat | j < WORDS && !(16 * k <= j < 16 * k + 16) :: Word(PutDinode(m, k, d), j) == Word(m, j)
  {
    hide Word, SetWord;
    var a := SetWord(m, 16 * k, Pack(d.kind, d.major));
    var b := SetWord(a, 16 * k + 1, Pack(d.minor, d.nlink));
    var c := SetWord(b, 16 * k + 2, d.size);
    WordOfSetWord(m, 16 * k, Pack(d.kind, d.major));
    WordOfSetWord(a, 16 * k + 1, Pack(d.minor, d.nlink));
    WordOfSetWord(b, 16 * k + 2, d.size);
    PutAddrsWords(c, k, d.addrs, NDIRECT + 1);
  }

  /** Writing an inode and reading it back gives it back, and leaves its neighbours alone. */
  lemma {:induction false} DinodeRoundTrip(m: Block, k: nat, d: Dinode, j: nat)
    requires k < IPB && j < IPB && d.Valid()
    ensures GetDinode(PutDinode(m, k, d), j) == if j == k then d else GetDinode(m, j)
  {
    hide Word, SetWord, PutDinode;
    PutDinodeWords(m, k, d);
    if j != k {
      assert Words(PutDinode(m, k, d), 16 * j + 3, NDIRECT + 1) == Words(m, 16 * j + 3, NDIRECT + 1);
    }
  }

  /** A little-endian `short` among bytes. */
  function Short(data: seq<Byte>, a: nat): Ushort
    requires a + 2 <= |data|
  {
    (data[a] as int) + 0x100 * (data[a + 1] as int)
  }

  lemma {:induction false} WordShorts(b: Block, i: nat)
    requires i < WORDS
    ensures Word(b, i) % 0x1_0000 == Short(b.data, 4 * i) && Word(b, i) / 0x1_0000 == Short(b.data, 4 * i + 2)
  {
    var l: int, h: int := Short(b.data, 4 * i), Short(b.data, 4 * i + 2);
    assert Word(b, i) == l + 0x1_0000 * h;
  }

  /** struct dinode of fs.h, byte for byte. */
  lemma {:induction false} DinodeBytes(m: Block, k: nat)
    requires k < IPB
    ensures var d, a := GetDinode(m, k), 64 * k;
            && d.kind == Short(m.data, a) && d.major == Short(m.data, a + 2)
            && d.minor == Short(m.data, a + 4) && d.nlink == Short(m.data, a + 6)
            && d.size == Load(m.data, a + 8)
            && forall i | 0 <= i <= NDIRECT :: d.addrs[i] == Load(m.data, a + 12 + 4 * i)
  {
    WordShorts(m, 16 * k);
    WordShorts(m, 16 * k + 1);
    forall i | 0 <= i <= NDIRECT ensures GetDinode(m, k).addrs[i] == Load(m.data, 64 * k + 12 + 4 * i) {
      assert 4 * (16 * k + 3 + i) == 64 * k + 12 + 4 * i;
    }
  }
}
