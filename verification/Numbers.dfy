/** Arithmetic that several modules use. */
module Numbers {
  function Abs(a: int): int { if a < 0 then -a else a }
  function Min(a: int, b: int): int { if a < b then a else b }
  function Max(a: int, b: int): int { if a < b then b else a }
}
