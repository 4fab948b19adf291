/** Disk blocks as the file system sees them: 512 bytes, read and written as
    little-endian 32-bit words when a block holds an array of `uint`. */
module Blocks {
  import opened Basics

  const BSIZE: nat := 512
  const WORDS: nat := 128

  const MAXOPBLOCKS: nat := 10
  const LOGSIZE: nat := 3 * MAXOPBLOCKS

  datatype RawBlock = RawBlock(data: seq<Byte>)

  type Block = b: RawBlock | |b.data| == BSIZE witness RawBlock(seq(BSIZE, _ => 0))

  function ZeroBlock(): Block { RawBlock(seq(BSIZE, _ => 0)) }

  /** The `i`-th `uint` of a block. */
  function Word(b: Block, i: nat): Uint
    requires i < WORDS
  {
    Load(b.data, 4 * i)
  }

  function SetWord(b: Block, i: nat, v: Uint): Block
    requires i < WORDS
  {
    RawBlock(Store(b.data, 4 * i, v))
  }

  lemma {:induction false} WordOfSetWord(b: Block, i: nat, v: Uint)
    requires i < WORDS
    ensures Word(SetWord(b, i, v), i) == v
    ensures forall j: nat | j < WORDS && j != i :: Word(SetWord(b, i, v), j) == Word(b, j)
  {
    hide Store;
    LoadStore(b.data, 4 * i, v);
  }

  lemma {:induction false} WordOfZero(i: nat)
    requires i < WORDS
    ensures Word(ZeroBlock(), i) == 0
  {
  }
}
