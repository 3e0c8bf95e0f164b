/**
  Length expressions as text: the registry's notation read into a tree, and the tree
  printed as Rust and read back with Rust's precedence.
 */
module LenText {
  import opened Options
  import opened LenExpr

  // ---- the registry's notation ---------------------------------------------------------------

  datatype Token = Number(n: nat) | Name | Sign(op: Op) | Open | Close

  datatype Sum = First(term: Product) | Then(left: Sum, op: Op, right: Product)
  datatype Product = Atom(atom: Primary) | Times(left: Product, op: Op, right: Primary)
  datatype Primary = Literal(n: nat) | Member | Grouped(sum: Sum)

  predicate Additive(op: Op) { op == Add || op == Sub }

  /** The operators stand where the grammar has them. */
  predicate SumOk(s: Sum) {
    match s
    case First(p) => ProductOk(p)
    case Then(l, op, p) => Additive(op) && SumOk(l) && ProductOk(p)
  }

  predicate ProductOk(p: Product) {
    match p
    case Atom(a) => PrimaryOk(a)
    case Times(l, op, a) => !Additive(op) && ProductOk(l) && PrimaryOk(a)
  }

  predicate PrimaryOk(a: Primary) {
    a.Grouped? ==> SumOk(a.sum)
  }

  function ShowSum(s: Sum): seq<Token> {
    match s
    case First(p) => ShowProduct(p)
    case Then(l, op, p) => ShowSum(l) + [Sign(op)] + ShowProduct(p)
  }

  function ShowProduct(p: Product): seq<Token> {
    match p
    case Atom(a) => ShowPrimary(a)
    case Times(l, op, a) => ShowProduct(l) + [Sign(op)] + ShowPrimary(a)
  }

  function ShowPrimary(a: Primary): seq<Token> {
    match a
    case Literal(n) => [Number(n)]
    case Member => [Name]
    case Grouped(s) => [Open] + ShowSum(s) + [Close]
  }

  function SumTree(s: Sum): Expr {
    match s
    case First(p) => ProductTree(p)
    case Then(l, op, p) => Bin(op, SumTree(l), ProductTree(p))
  }

  function ProductTree(p: Product): Expr {
    match p
    case Atom(a) => PrimaryTree(a)
    case Times(l, op, a) => Bin(op, ProductTree(l), PrimaryTree(a))
  }

  function PrimaryTree(a: Primary): Expr {
    match a
    case Literal(n) => Int(n)
    case Member => Var
    case Grouped(s) => SumTree(s)
  }

  predicate Divisor(e: Expr) {
    e.Int? && e.n != 0
  }

  /** Every division is by a non-zero integer. */
  predicate DivOk(e: Expr) {
    match e
    case Bin(op, a, b) => DivOk(a) && DivOk(b) && (op == Div ==> Divisor(b))
    case _ => true
  }

  // ---- reading it, on the tokens left ------------------------------------------------------------

  type Parse = Option<(Expr, seq<Token>)>

  function PrimaryOf(ts: seq<Token>): (r: Parse)
    ensures r.Some? ==> |r.value.1| < |ts|
    decreases |ts|, 0
  {
    if ts == [] then None
    else
      match ts[0]
      case Number(n) => Some((Int(n), ts[1..]))
      case Name => Some((Var, ts[1..]))
      case Open =>
        var (e, rest) :- SumOf(ts[1..]);
        if rest != [] && rest[0] == Close then Some((e, rest[1..])) else None
      case _ => None
  }

  function ProductTail(e: Expr, ts: seq<Token>): (r: Parse)
    ensures r.Some? ==> |r.value.1| <= |ts|
    decreases |ts|, 0
  {
    if ts != [] && ts[0].Sign? && !Additive(ts[0].op) then
      var (rhs, rest) :- PrimaryOf(ts[1..]);
      if ts[0].op == Div && !Divisor(rhs) then None else ProductTail(Bin(ts[0].op, e, rhs), rest)
    else Some((e, ts))
  }

  function ProductOf(ts: seq<Token>): (r: Parse)
    ensures r.Some? ==> |r.value.1| < |ts|
    decreases |ts|, 1
  {
    var (e, rest) :- PrimaryOf(ts);
    ProductTail(e, rest)
  }

  function SumTail(e: Expr, ts: seq<Token>): (r: Parse)
    ensures r.Some? ==> |r.value.1| <= |ts|
    decreases |ts|, 0
  {
    if ts != [] && ts[0].Sign? && Additive(ts[0].op) then
      var (rhs, rest) :- ProductOf(ts[1..]);
      SumTail(Bin(ts[0].op, e, rhs), rest)
    else Some((e, ts))
  }

  function SumOf(ts: seq<Token>): (r: Parse)
    ensures r.Some? ==> |r.value.1| < |ts|
    decreases |ts|, 2
  {
    var (e, rest) :- ProductOf(ts);
    SumTail(e, rest)
  }

  function ParseLen(ts: seq<Token>): Option<Expr> {
    var (e, rest) :- SumOf(ts);
    if rest == [] then Some(e) else None
  }

  /** The same with a position that moves over the whole text. */
  class Reader {
    const tokens: seq<Token>
    var pos: nat

    constructor (ts: seq<Token>)
      ensures tokens == ts && pos == 0
    {
      tokens, pos := ts, 0;
    }

    ghost predicate Agrees(r: Option<Expr>, spec: Parse)
      reads this
    {
      && pos <= |tokens|
      && if spec.None? then r.None? else r.Some? && spec.value == (r.value, tokens[pos..])
    }

    method Primary() returns (r: Option<Expr>)
      requires pos <= |tokens|
      modifies this
      ensures Agrees(r, PrimaryOf(old(tokens[pos..])))
      decreases |tokens| - pos, 0
    {
      if pos == |tokens| { return None; }
      var t := tokens[pos];
      pos := pos + 1;
      assert old(tokens[pos..])[1..] == tokens[pos..];
      match t {
        case Number(n) => r := Some(Int(n));
        case Name => r := Some(Var);
        case Open =>
          r := Sum();
          if r.None? || pos == |tokens| || tokens[pos] != Close { return None; }
          pos := pos + 1;
        case _ => r := None;
      }
    }

    method Product() returns (r: Option<Expr>)
      requires pos <= |tokens|
      modifies this
      ensures Agrees(r, ProductOf(old(tokens[pos..])))
      decreases |tokens| - pos, 1
    {
      r := Primary();
      if r.None? { return; }
      while pos < |tokens| && tokens[pos].Sign? && !Additive(tokens[pos].op)
        invariant old(pos) < pos <= |tokens| && r.Some?
        invariant ProductOf(old(tokens[pos..])) == ProductTail(r.value, tokens[pos..])
        decreases |tokens| - pos
      {
        var op := tokens[pos].op;
        assert tokens[pos + 1..] == tokens[pos..][1..];
        pos := pos + 1;
        var rhs := Primary();
        if rhs.None? || (op == Div && !Divisor(rhs.value)) { return None; }
        r := Some(Bin(op, r.value, rhs.value));
      }
    }

    method Sum() returns (r: Option<Expr>)
      requires pos <= |tokens|
      modifies this
      ensures Agrees(r, SumOf(old(tokens[pos..])))
      decreases |tokens| - pos, 2
    {
      r := Product();
      if r.None? { return; }
      while pos < |tokens| && tokens[pos].Sign? && Additive(tokens[pos].op)
        invariant old(pos) < pos <= |tokens| && r.Some?
        invariant SumOf(old(tokens[pos..])) == SumTail(r.value, tokens[pos..])
        decreases |tokens| - pos
      {
        var op := tokens[pos].op;
        assert tokens[pos + 1..] == tokens[pos..][1..];
        pos := pos + 1;
        var rhs := Product();
        if rhs.None? { return None; }
        r := Some(Bin(op, r.value, rhs.value));
      }
    }

    method Parse() returns (r: Option<Expr>)
      requires pos == 0
      modifies this
      ensures r == ParseLen(tokens)
    {
      assert tokens[0..] == tokens;
      r := Sum();
      if pos < |tokens| { r := None; }
    }
  }

  // ---- it reads the grammar, and only safe divisions ------------------------------------------------

  /** Refused exactly when a divisor somewhere is not a non-zero integer. */
  function Checked(e: Expr, rest: seq<Token>): Parse {
    if DivOk(e) then Some((e, rest)) else None
  }

  lemma {:induction false} ReadsPrimary(a: Primary, rest: seq<Token>)
    requires PrimaryOk(a)
    ensures PrimaryOf(ShowPrimary(a) + rest) == Checked(PrimaryTree(a), rest)
    decreases a, 0
  {
    if a.Grouped? {
      assert (ShowPrimary(a) + rest)[1..] == ShowSum(a.sum) + ([Close] + rest);
      ReadsSum(a.sum, [Close] + rest);
    }
  }

  lemma {:induction false} ReadsProduct(p: Product, rest: seq<Token>)
    requires ProductOk(p)
    ensures ProductOf(ShowProduct(p) + rest) ==
              if DivOk(ProductTree(p)) then ProductTail(ProductTree(p), rest) else None
    decreases p, 1
  {
    match p
    case Atom(a) => ReadsPrimary(a, rest);
    case Times(l, op, a) =>
      var tail := [Sign(op)] + (ShowPrimary(a) + rest);
      assert ShowProduct(p) + rest == ShowProduct(l) + tail;
      ReadsProduct(l, tail);
      assert tail[1..] == ShowPrimary(a) + rest;
      ReadsPrimary(a, rest);
  }

  lemma {:induction false} ReadsSum(s: Sum, rest: seq<Token>)
    requires SumOk(s) && (rest == [] || !rest[0].Sign? || Additive(rest[0].op))
    ensures SumOf(ShowSum(s) + rest) == if DivOk(SumTree(s)) then SumTail(SumTree(s), rest) else None
    decreases s, 2
  {
    match s
    case First(p) => ReadsProduct(p, rest);
    case Then(l, op, p) =>
      var tail := [Sign(op)] + (ShowProduct(p) + rest);
      assert ShowSum(s) + rest == ShowSum(l) + tail;
      ReadsSum(l, tail);
      assert tail[1..] == ShowProduct(p) + rest;
      ReadsProduct(p, rest);
  }

  /** A text of the grammar is read as its tree, and refused exactly when it divides by anything
      but a non-zero integer. */
  lemma ParsesLen(s: Sum)
    requires SumOk(s)
    ensures ParseLen(ShowSum(s)) == if DivOk(SumTree(s)) then Some(SumTree(s)) else None
  {
    assert ShowSum(s) + [] == ShowSum(s);
    ReadsSum(s, []);
  }

  lemma {:induction false} TailAccepts(e: Expr, ts: seq<Token>)
    requires DivOk(e)
    ensures ProductTail(e, ts).Some? ==> DivOk(ProductTail(e, ts).value.0)
    ensures SumTail(e, ts).Some? ==> DivOk(SumTail(e, ts).value.0)
    decreases |ts|, 0
  {
    if ts != [] && ts[0].Sign? && !Additive(ts[0].op) {
      Accepts(ts[1..]);
      var r := PrimaryOf(ts[1..]);
      if r.Some? && (ts[0].op == Div ==> Divisor(r.value.0)) {
        TailAccepts(Bin(ts[0].op, e, r.value.0), r.value.1);
      }
    } else if ts != [] && ts[0].Sign? {
      Accepts(ts[1..]);
      var r := ProductOf(ts[1..]);
      if r.Some? {
        TailAccepts(Bin(ts[0].op, e, r.value.0), r.value.1);
      }
    }
  }

  /** Whatever text is accepted, its divisions are by non-zero integers. */
  lemma {:induction false} Accepts(ts: seq<Token>)
    ensures PrimaryOf(ts).Some? ==> DivOk(PrimaryOf(ts).value.0)
    ensures ProductOf(ts).Some? ==> DivOk(ProductOf(ts).value.0)
    ensures SumOf(ts).Some? ==> DivOk(SumOf(ts).value.0)
    decreases |ts|, 1
  {
    if ts != [] {
      if ts[0].Open? {
        Accepts(ts[1..]);
      }
      var r := PrimaryOf(ts);
      if r.Some? {
        TailAccepts(r.value.0, r.value.1);
        var q := ProductOf(ts);
        if q.Some? {
          TailAccepts(q.value.0, q.value.1);
        }
      }
    }
  }

  // ---- printed as Rust -------------------------------------------------------------------------------

  /** A literal of the type, the operand, a `wrapping_` call with its opening parenthesis, `/`. */
  datatype RustToken = Lit(n: nat) | Operand | Method(op: Op) | Slash | LParen | RParen

  /** Only a division that is a method's receiver needs parentheses. */
  function Emit(e: Expr): seq<RustToken>
    decreases e, 0
  {
    match e
    case Int(n) => [Lit(n)]
    case Var => [Operand]
    case Bin(Div, a, b) => Emit(a) + [Slash] + [Lit(if b.Int? then b.n else 0)]
    case Bin(op, a, b) => Receiver(a) + [Method(op)] + Emit(b) + [RParen]
  }

  function Receiver(a: Expr): seq<RustToken>
    decreases a, 1
  {
    if a.Bin? && a.op == Div then [LParen] + Emit(a) + [RParen] else Emit(a)
  }

  /** Rust: a division of operands, each a primary followed by method calls. */
  type RustParse = Option<(Expr, seq<RustToken>)>

  function RustExpr(ts: seq<RustToken>): (r: RustParse)
    ensures r.Some? ==> |r.value.1| < |ts|
    decreases |ts|, 2
  {
    var (e, rest) :- RustOperand(ts);
    RustDivisions(e, rest)
  }

  function RustDivisions(e: Expr, ts: seq<RustToken>): (r: RustParse)
    ensures r.Some? ==> |r.value.1| <= |ts|
    decreases |ts|, 0
  {
    if ts != [] && ts[0] == Slash then
      var (rhs, rest) :- RustOperand(ts[1..]);
      RustDivisions(Bin(Div, e, rhs), rest)
    else Some((e, ts))
  }

  function RustOperand(ts: seq<RustToken>): (r: RustParse)
    ensures r.Some? ==> |r.value.1| < |ts|
    decreases |ts|, 1
  {
    var (e, rest) :- RustPrimary(ts);
    RustCalls(e, rest)
  }

  function RustCalls(e: Expr, ts: seq<RustToken>): (r: RustParse)
    ensures r.Some? ==> |r.value.1| <= |ts|
    decreases |ts|, 0
  {
    if ts != [] && ts[0].Method? then
      var (arg, rest) :- RustExpr(ts[1..]);
      if rest == [] || rest[0] != RParen then None else RustCalls(Bin(ts[0].op, e, arg), rest[1..])
    else Some((e, ts))
  }

  function RustPrimary(ts: seq<RustToken>): (r: RustParse)
    ensures r.Some? ==> |r.value.1| < |ts|
    decreases |ts|, 0
  {
    if ts == [] then None
    else
      match ts[0]
      case Lit(n) => Some((Int(n), ts[1..]))
      case Operand => Some((Var, ts[1..]))
      case LParen =>
        var (e, rest) :- RustExpr(ts[1..]);
        if rest == [] || rest[0] != RParen then None else Some((e, rest[1..]))
      case _ => None
  }

  predicate Ends(ts: seq<RustToken>) {
    ts == [] || ts[0] == RParen
  }

  lemma {:induction false} ReadsDivision(e: Expr, rest: seq<RustToken>)
    requires DivOk(e) && e.Bin? && e.op == Div && (rest == [] || !rest[0].Method?)
    ensures RustExpr(Emit(e) + rest) == RustDivisions(e, rest)
    decreases e, 0
  {
    var tail := [Slash] + ([Lit(e.right.n)] + rest);
    assert Emit(e) + rest == Emit(e.left) + tail;
    assert tail[1..] == [Lit(e.right.n)] + rest;
    assert RustOperand(tail[1..]) == Some((e.right, rest)) by {
      assert tail[1..][1..] == rest;
    }
    if e.left.Bin? && e.left.op == Div {
      ReadsDivision(e.left, tail);
    } else {
      ReadsOperand(e.left, tail);
    }
  }

  /** Anything but a division is one operand, whatever calls follow it. */
  lemma {:induction false} ReadsOperand(e: Expr, rest: seq<RustToken>)
    requires DivOk(e) && !(e.Bin? && e.op == Div)
    ensures RustOperand(Emit(e) + rest) == RustCalls(e, rest)
    decreases e, 1
  {
    if e.Bin? {
      var args := Emit(e.right) + ([RParen] + rest);
      var tail := [Method(e.op)] + args;
      assert Emit(e) + rest == Receiver(e.left) + tail;
      ReadsReceiver(e.left, tail);
      assert tail[1..] == args;
      ReadsRust(e.right, [RParen] + rest);
      assert ([RParen] + rest)[1..] == rest;
      hide Emit, Receiver, RustOperand, RustExpr;
      assert RustCalls(e.left, tail) == RustCalls(e, rest);
    }
  }

  lemma {:induction false} ReadsReceiver(a: Expr, tail: seq<RustToken>)
    requires DivOk(a)
    ensures RustOperand(Receiver(a) + tail) == RustCalls(a, tail)
    decreases a, 2
  {
    if a.Bin? && a.op == Div {
      assert (Receiver(a) + tail)[1..] == Emit(a) + ([RParen] + tail);
      ReadsDivision(a, [RParen] + tail);
      assert ([RParen] + tail)[1..] == tail;
    } else {
      ReadsOperand(a, tail);
    }
  }

  /** The printed expression, read with Rust's precedence, is the tree it was printed from. */
  lemma {:induction false} ReadsRust(e: Expr, rest: seq<RustToken>)
    requires DivOk(e) && Ends(rest)
    ensures RustExpr(Emit(e) + rest) == Some((e, rest))
    decreases e, 2
  {
    if e.Bin? && e.op == Div {
      ReadsDivision(e, rest);
    } else {
      ReadsOperand(e, rest);
    }
  }

  predicate Fits(e: Expr, m: nat) {
    match e
    case Int(n) => n < m
    case Var => true
    case Bin(_, a, b) => Fits(a, m) && Fits(b, m)
  }

  /** A division by zero somewhere in the evaluation. */
  predicate Divides0(e: Expr, x: nat, m: nat)
    requires m > 0
  {
    e.Bin? && (Divides0(e.left, x, m) || Divides0(e.right, x, m) || (e.op == Div && Eval(e.right, x, m) == 0))
  }

  /** From registry text to Rust and back: the emitted expression is read as the tree the text
      meant, has its value in wrapping arithmetic of the width, and divides by zero nowhere when
      the constants fit. */
  lemma LenSurvives(ts: seq<Token>, x: nat, m: nat)
    requires m > 0 && ParseLen(ts).Some?
    ensures var e := ParseLen(ts).value;
            && RustExpr(Emit(e)) == Some((e, []))
            && Eval(RustExpr(Emit(e)).value.0, x, m) == Eval(e, x, m)
            && (Fits(e, m) ==> !Divides0(e, x, m))
  {
    var e := ParseLen(ts).value;
    Accepts(ts);
    assert Emit(e) + [] == Emit(e);
    ReadsRust(e, []);
    if Fits(e, m) {
      NeverByZero(e, x, m);
    }
  }

  lemma {:induction false} NeverByZero(e: Expr, x: nat, m: nat)
    requires m > 0 && DivOk(e) && Fits(e, m)
    ensures !Divides0(e, x, m)
  {
    if e.Bin? {
      NeverByZero(e.left, x, m);
      NeverByZero(e.right, x, m);
    }
  }

  // ---- constant lengths ----------------------------------------------------------------------------------

  function Apply(op: Op, a: int, b: int): int
    requires op == Div ==> b != 0
  {
    match op
    case Add => a + b
    case Sub => a - b
    case Mul => a * b
    case Div => a / b
  }

  /** All four results are computed before one is chosen, so a zero on the right always fails. */
  function EvalConst(e: Expr): Option<int> {
    match e
    case Int(n) => Some(n)
    case Var => None
    case Bin(op, a, b) =>
      var x :- EvalConst(a);
      var y :- EvalConst(b);
      if y == 0 then None else Some(Apply(op, x, y))
  }

  /** The value the expression denotes over the integers, if it names no member. */
  function Exact(e: Expr): Option<int> {
    match e
    case Int(n) => Some(n)
    case Var => None
    case Bin(op, a, b) =>
      var x :- Exact(a);
      var y :- Exact(b);
      if op == Div && y == 0 then None else Some(Apply(op, x, y))
  }

  /** Some right operand denotes zero. */
  predicate ZeroOnRight(e: Expr) {
    e.Bin? && (ZeroOnRight(e.left) || ZeroOnRight(e.right) || Exact(e.right) == Some(0))
  }

  /** A constant length is computed exactly unless a right operand is zero, and then never. */
  lemma {:induction false} ConstExact(e: Expr)
    ensures EvalConst(e) == if ZeroOnRight(e) then None else Exact(e)
  {
    if e.Bin? {
      ConstExact(e.left);
      ConstExact(e.right);
    }
  }

  /** `4 + 0` has a value and is refused. */
  lemma ConstRefused()
    ensures var e := Bin(Add, Int(4), Int(0)); DivOk(e) && Exact(e) == Some(4) && EvalConst(e) == None
  {
    assert Exact(Int(0)) == Some(0);
  }
}
