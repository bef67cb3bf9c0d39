/** The smaller and the larger of two numbers, and facts about products that the solver needs by name. */
module Arithmetic {
  function Min(a: int, b: int): int { if a <= b then a else b }

  function Max(a: int, b: int): int { if a >= b then a else b }

  lemma ProductGrows(x: int, y: int, n: nat)
    requires x <= y
    ensures x * n <= y * n
  {
  }

  lemma AddProducts(x: int, y: int, n: int)
    ensures (x + y) * n == x * n + y * n
  {
  }
}
