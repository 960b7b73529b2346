/** Arithmetic that several of the models share. */
module Numbers {

  function Min(a: int, b: int): int {
    if a < b then a else b
  }

  predicate Mult8(x: int) {
    x % 8 == 0
  }
}
