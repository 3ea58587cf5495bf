/** What several components share: the larger and the smaller of two numbers, and symbols that are only compared. */
module Common {

  type Symbol = int

  function Max(a: int, b: int): int {
    if a < b then b else a
  }

  function Min(a: int, b: int): int {
    if a < b then a else b
  }
}
