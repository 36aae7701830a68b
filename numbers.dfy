/** Integer helpers shared by the engines. */
module Numbers {

  /** Python's built-in `min` on two integers. */
  function Min(a: int, b: int): (m: int)
    ensures m <= a && m <= b
    ensures m == a || m == b
  {
    if a <= b then a else b
  }
}
