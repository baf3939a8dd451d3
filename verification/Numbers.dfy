/** Arithmetic that several modules share. */
module Numbers {

  function Min(a: int, b: int): int {
    if a < b then a else b
  }

  function Max(a: int, b: int): int {
    if a < b then b else a
  }

  function Pow2(n: nat): nat {
    if n == 0 then 1 else 2 * Pow2(n - 1)
  }

  function MinReal(a: real, b: real): real {
    if a < b then a else b
  }
}
