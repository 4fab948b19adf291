/** What several parts share: options, bytes, and 32-bit words stored as bytes. */
module Basics {
  datatype Option<T> = None | Some(value: T)

  type Byte = n: int | 0 <= n < 256
  type Uint = n: int | 0 <= n < 0x1_0000_0000

  /** A little-endian 32-bit word among bytes. */
  function Load(mem: seq<Byte>, a: nat): Uint
    requires a + 4 <= |mem|
  {
    (mem[a] as int) + 0x100 * (mem[a + 1] as int) + 0x1_0000 * (mem[a + 2] as int) + 0x100_0000 * (mem[a + 3] as int)
  }

  /** `w`'s bytes, low ones first. */
  function Digit(w: Uint, k: nat): Byte
    requires k < 4
  {
    if k == 0 then w % 0x100 else if k == 1 then w / 0x100 % 0x100 else if k == 2 then w / 0x1_0000 % 0x100
    else w / 0x100_0000
  }

  lemma {:induction false} Digits(w: Uint)
    ensures (Digit(w, 0) as int) + 0x100 * (Digit(w, 1) as int) + 0x1_0000 * (Digit(w, 2) as int) +
            0x100_0000 * (Digit(w, 3) as int) == w
  {
    SecondByte(w);
    ThirdByte(w);
  }

  lemma {:induction false} SecondByte(w: nat)
    ensures w / 0x100 == 0x100 * (w / 0x1_0000) + w / 0x100 % 0x100
  {
    assert w / 0x100 / 0x100 == w / 0x1_0000;
  }

  lemma {:induction false} ThirdByte(w: nat)
    ensures w / 0x1_0000 == 0x100 * (w / 0x100_0000) + w / 0x1_0000 % 0x100
  {
    assert w / 0x1_0000 / 0x100 == w / 0x100_0000;
  }

  function Store(mem: seq<Byte>, a: nat, w: Uint): (m: seq<Byte>)
    requires a + 4 <= |mem|
    ensures |m| == |mem|
  {
    mem[a := Digit(w, 0)][a + 1 := Digit(w, 1)][a + 2 := Digit(w, 2)][a + 3 := Digit(w, 3)]
  }

  lemma {:induction false} LoadStore(mem: seq<Byte>, a: nat, w: Uint)
    requires a + 4 <= |mem|
    ensures Load(Store(mem, a, w), a) == w
    ensures forall b: nat | b < |mem| && !(a <= b < a + 4) :: Store(mem, a, w)[b] == mem[b]
  {
    Digits(w);
  }
}
