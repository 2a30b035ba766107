/** Small arithmetic shared by the models. */
module Arithmetic {
  function MinNat(a: nat, b: nat): nat {
    if a < b then a else b
  }

  function MaxNat(a: nat, b: nat): nat {
    if a < b then b else a
  }

  function MinReal(x: real, y: real): real {
    if x < y then x else y
  }

  function ClampNat(x: int, lo: nat, hi: nat): nat
    requires lo <= hi
  {
    if x < lo then lo else if x > hi then hi else x
  }

  function ClampReal(x: real, lo: real, hi: real): real
    requires lo <= hi
  {
    if x < lo then lo else if x > hi then hi else x
  }

  function Abs(x: real): real {
    if x < 0.0 then -x else x
  }

  function Pow(b: real, k: nat): (r: real)
    requires b > 0.0
    ensures r > 0.0
  {
    if k == 0 then 1.0 else b * Pow(b, k - 1)
  }
}
