/** The number type of the calculator is a template parameter (`NumType`).
    It is modelled as a type parameter `N` together with the operations the
    core applies to it; nothing in the model depends on what they compute. */
module Arithmetic {

  datatype NumOps<!N> = NumOps(
    zero: N,                   // NumType(), the value of a default-constructed number
    fromDecimal: string -> N,  // strtod on a decimal lexeme
    show: N -> string,         // the text `ostream << n` writes
    neg: N -> N,               // unary -
    add: (N, N) -> N,          // +
    sub: (N, N) -> N,          // -
    mul: (N, N) -> N,          // *
    div: (N, N) -> N,          // /
    pow: (N, N) -> N           // std::pow
  )
}
