/** Numbers that several parts of the program share. */
module Numbers {

  type Byte = b: nat | b < 256

  const U32: nat := 0x1_0000_0000
  const U64: nat := 0x1_0000_0000_0000_0000

  /** The length of an embedding vector. */
  const DIM: nat := 384

  function Min(a: nat, b: nat): nat {
    if a <= b then a else b
  }

  function Abs(x: real): real {
    if x < 0.0 then -x else x
  }

  lemma ProductPositive(x: real, y: real, t: real)
    requires x > 0.0 && y > 0.0 && t == x * y
    ensures t > 0.0
  {
  }
}
