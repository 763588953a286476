/** Bounds on a product with one factor of unknown sign. */
module Products {

  lemma Product(k: int, n: nat)
    ensures k >= 0 ==> k * n >= 0
    ensures k >= 1 ==> k * n >= n
    ensures k <= 0 ==> k * n <= 0
    ensures k <= -1 ==> k * n + n <= 0
    ensures k >= 1 && n >= 1 ==> k * n >= k
  {
  }

  lemma ProductMinus(k: int, m: int, n: int)
    ensures (k - m) * n == k * n - m * n
  {
  }
}
