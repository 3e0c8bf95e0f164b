/**
  Extension gates of the executor: the `depends` expressions of the registry read into
  disjunctive normal form, the values extensions add, and the predicates and masks that
  admit them on a device.
 */
module Gates {
  import opened Options

  datatype Name = Version(major: nat, minor: nat) | Extension(name: string)

  datatype Token = Open | Close | Comma | Plus | Word(name: Name)

  /** The newest core version served, the extensions in scope, and the core version an
      extension was promoted to. */
  datatype Policy = Policy(maxCore: (nat, nat), scope: set<string>, promoted: map<string, (nat, nat)>)

  /** The extensions a device must have enabled, all of them. */
  type Conj = set<string>

  /** Alternatives; none of them is never. */
  type Dnf = seq<Conj>

  predicate AtMost(v: (nat, nat), w: (nat, nat)) {
    v.0 < w.0 || (v.0 == w.0 && v.1 <= w.1)
  }

  function Atom(p: Policy, n: Name): Option<Conj> {
    match n
    case Version(a, b) => if AtMost((a, b), p.maxCore) then Some({}) else None
    case Extension(x) =>
      if x in p.scope then Some({x})
      else if x in p.promoted && AtMost(p.promoted[x], p.maxCore) then Some({})
      else None
  }

  function Cross(left: Dnf, right: Dnf): Dnf {
    if left == [] then []
    else seq(|right|, k requires 0 <= k < |right| => left[0] + right[k]) + Cross(left[1..], right)
  }

  // ---- the grammar and its meaning ---------------------------------------------------

  datatype Expr = One(term: Term) | Or(left: Expr, right: Term)
  datatype Term = Single(factor: Factor) | And(left: Term, right: Factor)
  datatype Factor = Atomic(name: Name) | Paren(expr: Expr)

  function Show(e: Expr): seq<Token> {
    match e
    case One(t) => ShowTerm(t)
    case Or(l, t) => Show(l) + [Comma] + ShowTerm(t)
  }

  function ShowTerm(t: Term): seq<Token> {
    match t
    case Single(f) => ShowFactor(f)
    case And(l, f) => ShowTerm(l) + [Plus] + ShowFactor(f)
  }

  function ShowFactor(f: Factor): seq<Token> {
    match f
    case Atomic(n) => [Word(n)]
    case Paren(e) => [Open] + Show(e) + [Close]
  }

  /** Whether a device meets a name: a served core version, an enabled extension in scope, or an
      extension core absorbed. */
  predicate Known(p: Policy, enabled: set<string>, n: Name) {
    match n
    case Version(a, b) => AtMost((a, b), p.maxCore)
    case Extension(x) =>
      if x in p.scope then x in enabled else x in p.promoted && AtMost(p.promoted[x], p.maxCore)
  }

  predicate Sat(p: Policy, enabled: set<string>, e: Expr) {
    match e
    case One(t) => SatTerm(p, enabled, t)
    case Or(l, t) => Sat(p, enabled, l) || SatTerm(p, enabled, t)
  }

  predicate SatTerm(p: Policy, enabled: set<string>, t: Term) {
    match t
    case Single(f) => SatFactor(p, enabled, f)
    case And(l, f) => SatTerm(p, enabled, l) && SatFactor(p, enabled, f)
  }

  predicate SatFactor(p: Policy, enabled: set<string>, f: Factor) {
    match f
    case Atomic(n) => Known(p, enabled, n)
    case Paren(e) => Sat(p, enabled, e)
  }

  predicate Meets(d: Dnf, enabled: set<string>) {
    exists k | 0 <= k < |d| :: d[k] <= enabled
  }

  // ---- the parser, on the tokens still unread ------------------------------------------

  /** The alternatives read and the tokens left; `None` past the end of the text. */
  type Parse = Option<(Dnf, seq<Token>)>

  function FactorOf(p: Policy, ts: seq<Token>): (r: Parse)
    ensures r.Some? ==> |r.value.1| < |ts|
    decreases |ts|, 0
  {
    if ts == [] then None
    else
      match ts[0]
      case Open =>
        var (out, rest) :- ExprOf(p, ts[1..]);
        if rest == [] then None else Some((out, rest[1..]))
      case Word(n) =>
        var a := Atom(p, n);
        Some((if a.None? then [] else [a.value], ts[1..]))
      case _ => Some(([], ts[1..]))
  }

  function TermTail(p: Policy, out: Dnf, ts: seq<Token>): (r: Parse)
    ensures r.Some? ==> |r.value.1| <= |ts|
    decreases |ts|, 0
  {
    if ts != [] && ts[0] == Plus then
      var (rhs, rest) :- FactorOf(p, ts[1..]);
      TermTail(p, Cross(out, rhs), rest)
    else Some((out, ts))
  }

  function TermOf(p: Policy, ts: seq<Token>): (r: Parse)
    ensures r.Some? ==> |r.value.1| < |ts|
    decreases |ts|, 1
  {
    var (out, rest) :- FactorOf(p, ts);
    TermTail(p, out, rest)
  }

  function ExprTail(p: Policy, out: Dnf, ts: seq<Token>): (r: Parse)
    ensures r.Some? ==> |r.value.1| <= |ts|
    decreases |ts|, 0
  {
    if ts != [] && ts[0] == Comma then
      var (rhs, rest) :- TermOf(p, ts[1..]);
      ExprTail(p, out + rhs, rest)
    else Some((out, ts))
  }

  function ExprOf(p: Policy, ts: seq<Token>): (r: Parse)
    ensures r.Some? ==> |r.value.1| < |ts|
    decreases |ts|, 2
  {
    var (out, rest) :- TermOf(p, ts);
    ExprTail(p, out, rest)
  }

  /** The same with a position that moves over the whole text. */
  class Parser {
    const policy: Policy
    const tokens: seq<Token>
    var pos: nat

    constructor (p: Policy, ts: seq<Token>)
      ensures policy == p && tokens == ts && pos == 0
    {
      policy, tokens, pos := p, ts, 0;
    }

    ghost predicate Agrees(r: Option<Dnf>, spec: Parse)
      reads this
    {
      && pos <= |tokens|
      && if spec.None? then r.None? else r.Some? && spec.value == (r.value, tokens[pos..])
    }

    method Factor() returns (r: Option<Dnf>)
      requires pos <= |tokens|
      modifies this
      ensures Agrees(r, FactorOf(policy, old(tokens[pos..])))
      decreases |tokens| - pos, 0
    {
      if pos == |tokens| { return None; }
      var t := tokens[pos];
      pos := pos + 1;
      assert old(tokens[pos..])[1..] == tokens[pos..];
      match t {
        case Open =>
          r := Expr();
          if r.None? || pos == |tokens| { return None; }
          pos := pos + 1;
        case Word(n) =>
          var a := Atom(policy, n);
          r := Some(if a.None? then [] else [a.value]);
        case _ =>
          r := Some([]);
      }
    }

    method Term() returns (r: Option<Dnf>)
      requires pos <= |tokens|
      modifies this
      ensures Agrees(r, TermOf(policy, old(tokens[pos..])))
      decreases |tokens| - pos, 1
    {
      r := Factor();
      if r.None? { return; }
      while pos < |tokens| && tokens[pos] == Plus
        invariant old(pos) < pos <= |tokens| && r.Some?
        invariant TermOf(policy, old(tokens[pos..])) == TermTail(policy, r.value, tokens[pos..])
        decreases |tokens| - pos
      {
        assert tokens[pos + 1..] == tokens[pos..][1..];
        pos := pos + 1;
        var rhs := Factor();
        if rhs.None? { return None; }
        r := Some(Cross(r.value, rhs.value));
      }
    }

    method Expr() returns (r: Option<Dnf>)
      requires pos <= |tokens|
      modifies this
      ensures Agrees(r, ExprOf(policy, old(tokens[pos..])))
      decreases |tokens| - pos, 2
    {
      r := Term();
      if r.None? { return; }
      while pos < |tokens| && tokens[pos] == Comma
        invariant old(pos) < pos <= |tokens| && r.Some?
        invariant ExprOf(policy, old(tokens[pos..])) == ExprTail(policy, r.value, tokens[pos..])
        decreases |tokens| - pos
      {
        assert tokens[pos + 1..] == tokens[pos..][1..];
        pos := pos + 1;
        var rhs := Term();
        if rhs.None? { return None; }
        r := Some(r.value + rhs.value);
      }
    }
  }

  // ---- the parser reads the grammar ----------------------------------------------------

  function DnfOf(p: Policy, e: Expr): Dnf {
    match e
    case One(t) => TermDnf(p, t)
    case Or(l, t) => DnfOf(p, l) + TermDnf(p, t)
  }

  function TermDnf(p: Policy, t: Term): Dnf {
    match t
    case Single(f) => FactorDnf(p, f)
    case And(l, f) => Cross(TermDnf(p, l), FactorDnf(p, f))
  }

  function FactorDnf(p: Policy, f: Factor): Dnf {
    match f
    case Atomic(n) => (var a := Atom(p, n); if a.None? then [] else [a.value])
    case Paren(e) => DnfOf(p, e)
  }

  lemma {:induction false} ReadsFactor(p: Policy, f: Factor, rest: seq<Token>)
    ensures FactorOf(p, ShowFactor(f) + rest) == Some((FactorDnf(p, f), rest))
    decreases f, 0
  {
    match f
    case Atomic(n) =>
    case Paren(e) =>
      assert (ShowFactor(f) + rest)[1..] == Show(e) + ([Close] + rest);
      ReadsExpr(p, e, [Close] + rest);
  }

  lemma {:induction false} ReadsTerm(p: Policy, t: Term, rest: seq<Token>)
    ensures TermOf(p, ShowTerm(t) + rest) == TermTail(p, TermDnf(p, t), rest)
    decreases t, 1
  {
    match t
    case Single(f) => ReadsFactor(p, f, rest);
    case And(l, f) =>
      var tail := [Plus] + (ShowFactor(f) + rest);
      assert ShowTerm(t) + rest == ShowTerm(l) + tail;
      ReadsTerm(p, l, tail);
      assert tail[1..] == ShowFactor(f) + rest;
      ReadsFactor(p, f, rest);
  }

  lemma {:induction false} ReadsExpr(p: Policy, e: Expr, rest: seq<Token>)
    requires rest == [] || rest[0] != Plus
    ensures ExprOf(p, Show(e) + rest) == ExprTail(p, DnfOf(p, e), rest)
    decreases e, 2
  {
    match e
    case One(t) => ReadsTerm(p, t, rest);
    case Or(l, t) =>
      var tail := [Comma] + (ShowTerm(t) + rest);
      assert Show(e) + rest == Show(l) + tail;
      ReadsExpr(p, l, tail);
      assert tail[1..] == ShowTerm(t) + rest;
      ReadsTerm(p, t, rest);
  }

  // ---- the normal form means the expression ----------------------------------------------

  lemma {:induction false} MeetsConcat(a: Dnf, b: Dnf, enabled: set<string>)
    ensures Meets(a + b, enabled) <==> Meets(a, enabled) || Meets(b, enabled)
  {
    forall k | 0 <= k < |a| ensures (a + b)[k] == a[k] {}
    forall k | 0 <= k < |b| ensures (a + b)[|a| + k] == b[k] {}
  }

  lemma {:induction false} MeetsCross(a: Dnf, b: Dnf, enabled: set<string>)
    ensures Meets(Cross(a, b), enabled) <==> Meets(a, enabled) && Meets(b, enabled)
  {
    if a != [] {
      var row := seq(|b|, k requires 0 <= k < |b| => a[0] + b[k]);
      MeetsConcat(row, Cross(a[1..], b), enabled);
      MeetsCross(a[1..], b, enabled);
      MeetsConcat(a[..1], a[1..], enabled);
      assert a == a[..1] + a[1..];
      assert Meets(row, enabled) <==> Meets(a[..1], enabled) && Meets(b, enabled) by {
        assert Meets(a[..1], enabled) <==> a[0] <= enabled by {
          assert a[..1][0] == a[0];
        }
        if Meets(row, enabled) {
          var k :| 0 <= k < |row| && row[k] <= enabled;
          assert b[k] <= enabled && a[0] <= enabled;
        }
        if a[0] <= enabled && Meets(b, enabled) {
          var k :| 0 <= k < |b| && b[k] <= enabled;
          assert row[k] <= enabled;
        }
      }
    }
  }

  lemma {:induction false} MeansFactor(p: Policy, enabled: set<string>, f: Factor)
    ensures Meets(FactorDnf(p, f), enabled) <==> SatFactor(p, enabled, f)
  {
    match f
    case Atomic(n) =>
      var d := FactorDnf(p, f);
      assert d != [] ==> (Meets(d, enabled) <==> d[0] <= enabled);
    case Paren(e) => MeansExpr(p, enabled, e);
  }

  lemma {:induction false} MeansTerm(p: Policy, enabled: set<string>, t: Term)
    ensures Meets(TermDnf(p, t), enabled) <==> SatTerm(p, enabled, t)
  {
    match t
    case Single(f) => MeansFactor(p, enabled, f);
    case And(l, f) =>
      MeansTerm(p, enabled, l);
      MeansFactor(p, enabled, f);
      MeetsCross(TermDnf(p, l), FactorDnf(p, f), enabled);
  }

  /** The alternatives of an expression hold on exactly the devices the expression does. */
  lemma {:induction false} MeansExpr(p: Policy, enabled: set<string>, e: Expr)
    ensures Meets(DnfOf(p, e), enabled) <==> Sat(p, enabled, e)
  {
    match e
    case One(t) => MeansTerm(p, enabled, t);
    case Or(l, t) =>
      MeansExpr(p, enabled, l);
      MeansTerm(p, enabled, t);
      MeetsConcat(DnfOf(p, l), TermDnf(p, t), enabled);
  }

  /** Reading a whole `depends` text gives alternatives that hold exactly when it does. */
  lemma DependsMeans(p: Policy, enabled: set<string>, e: Expr)
    ensures ExprOf(p, Show(e)) == Some((DnfOf(p, e), []))
    ensures Meets(ExprOf(p, Show(e)).value.0, enabled) <==> Sat(p, enabled, e)
  {
    assert Show(e) + [] == Show(e);
    ReadsExpr(p, e, []);
    MeansExpr(p, enabled, e);
  }
}
