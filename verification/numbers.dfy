/** Integer helpers shared by the modules of this project. */
module Numbers {

  /** Python's `abs` on integers. */
  function Abs(x: int): nat {
    if x < 0 then -x else x
  }

  /** Python's `min` of two integers. */
  function Min(a: int, b: int): int {
    if a < b then a else b
  }
}
