/** The smaller of two numbers. */
module Numbers {
  function Min(a: real, b: real): real {
    if a <= b then a else b
  }

  function Least(a: nat, b: nat): nat {
    if a < b then a else b
  }
}
