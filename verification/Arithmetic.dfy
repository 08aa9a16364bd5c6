/** The two arithmetics a collective can be read in: exact sums, and the program's own binary64 sums. */
module Arithmetic {
  import opened Float64

  datatype Arith = Exact | Rounded

  function Sum(arith: Arith, x: real, y: real): real {
    match arith
    case Exact => x + y
    case Rounded => Add(x, y)
  }
}
