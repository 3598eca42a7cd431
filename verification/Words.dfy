/** Machine words as ranges of integers. */
module Words {

  const TWO_TO_THE_31: int := 0x8000_0000
  const TWO_TO_THE_32: int := 0x1_0000_0000
  const TWO_TO_THE_63: int := 0x8000_0000_0000_0000
  const TWO_TO_THE_64: int := 0x1_0000_0000_0000_0000

  type Byte = x: int | 0 <= x < 256
  type DWord = x: int | 0 <= x < TWO_TO_THE_32
  type QWord = x: int | 0 <= x < TWO_TO_THE_64
  type Long = x: int | -TWO_TO_THE_31 <= x < TWO_TO_THE_31
  type LongLong = x: int | -TWO_TO_THE_63 <= x < TWO_TO_THE_63

  function Abs(x: int): nat { if x < 0 then -x else x }

  function PowerOfTwo(n: nat): (r: nat)
    ensures r > 0
  {
    if n == 0 then 1 else 2 * PowerOfTwo(n - 1)
  }
}
