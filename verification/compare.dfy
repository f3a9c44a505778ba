/** Minimum and maximum (lib/compare.go). */
module Compare {

  function Max(a: int, b: int): int {
    if a > b then a else b
  }

  function Min(a: int, b: int): int {
    if a < b then a else b
  }
}
