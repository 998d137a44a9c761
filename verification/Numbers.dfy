/** Integer facts that several modules use. */
module Numbers {
  function Max(a: int, b: int): int {
    if a > b then a else b
  }

  lemma ProductOrder(x: int, y: int, b: int)
    requires b >= 0
    ensures x <= y ==> x * b <= y * b
  {
  }
}
