/** Machine words: signed integers kept modulo a power of two. */
module Words {

  type Byte = x: int | 0 <= x < 256

  const INT_MIN: int := -0x8000_0000
  const INT_MAX: int := 0x7fff_ffff

  /** Two's complement reading of the low eight bits. */
  function Wrap8(x: int): (r: int)
    ensures -128 <= r <= 127
  {
    (x + 128) % 256 - 128
  }

  /** How far a number lies outside the range of an int. */
  function Outside(x: int): nat { if x > INT_MAX then x - INT_MAX else if x < INT_MIN then INT_MIN - x else 0 }

  /** Two's complement reading of the low 32 bits: whole turns of 2^32 are dropped. */
  function Wrap32(x: int): (r: int)
    ensures INT_MIN <= r <= INT_MAX
    ensures INT_MIN <= x <= INT_MAX ==> r == x
    decreases Outside(x)
  {
    if x > INT_MAX then Wrap32(x - 0x1_0000_0000) else if x < INT_MIN then Wrap32(x + 0x1_0000_0000) else x
  }

  lemma WrapTurn(x: int)
    ensures Wrap32(x + 0x1_0000_0000) == Wrap32(x)
  {
  }

  /** Wrapping on the way does not change the result. */
  lemma {:induction false} WrapShift(x: int, k: int)
    ensures Wrap32(Wrap32(x) + k) == Wrap32(x + k)
    decreases Outside(x)
  {
    if x > INT_MAX {
      WrapShift(x - 0x1_0000_0000, k);
      WrapTurn(x + k - 0x1_0000_0000);
    } else if x < INT_MIN {
      WrapShift(x + 0x1_0000_0000, k);
      WrapTurn(x + k);
    }
  }

  /** Less than one turn away from zero, only zero wraps to zero. */
  lemma WholeWord(x: int)
    requires -0x1_0000_0000 < x < 0x1_0000_0000
    ensures Wrap32(x) == 0 <==> x == 0
  {
  }

  lemma LowByte(q: int, x: int)
    requires 0 <= x < 256
    ensures (256 * q + x) / 256 == q && (256 * q + x) % 256 == x
  {
  }
}
