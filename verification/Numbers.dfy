/** Least and greatest of two numbers. */
module Numbers {

  function Min(x: int, y: int): int { if x <= y then x else y }

  function Max(x: int, y: int): int { if x >= y then x else y }

  function MinReal(x: real, y: real): real { if x <= y then x else y }

  function MaxReal(x: real, y: real): real { if x >= y then x else y }

  lemma ProductGrows(a: nat, b: nat, k: nat)
    requires a <= b
    ensures a * k <= b * k
  {
  }
}
