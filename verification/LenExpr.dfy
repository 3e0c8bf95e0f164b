/** Arithmetic array lengths of the registry, such as `codeSize / 4`. */
module LenExpr {

  datatype Op = Add | Sub | Mul | Div

  datatype Expr = Int(n: nat) | Var | Bin(op: Op, left: Expr, right: Expr)

  /** `op` in the unsigned C type with `m` values; a divisor of zero never gets here. */
  function Wrap(op: Op, a: nat, b: nat, m: nat): nat
    requires m > 0
  {
    match op
    case Add => (a + b) % m
    case Sub => (a - b) % m
    case Mul => (a * b) % m
    case Div => if b == 0 then 0 else a / b
  }

  /** The value C computes for `e` when its one member reads as `x`. */
  function Eval(e: Expr, x: nat, m: nat): nat
    requires m > 0
  {
    match e
    case Int(n) => n % m
    case Var => x % m
    case Bin(op, a, b) => Wrap(op, Eval(a, x, m), Eval(b, x, m), m)
  }
}
