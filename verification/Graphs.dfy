/**
  The generator's passes over the type graph: the ordered closure, the two saturation
  loops and the worklist, each against reachability by paths.
 */
module Graphs {
  type Graph<T> = map<T, seq<T>>

  function Succ<T>(g: Graph<T>, x: T): seq<T> {
    if x in g then g[x] else []
  }

  ghost predicate Path<T>(g: Graph<T>, p: seq<T>) {
    p != [] && forall k | 0 <= k < |p| - 1 :: p[k + 1] in Succ(g, p[k])
  }

  ghost predicate Reaches<T(!new)>(g: Graph<T>, a: T, b: T) {
    exists p :: Path(g, p) && p[0] == a && p[|p| - 1] == b
  }

  lemma ReachesSelf<T(!new)>(g: Graph<T>, a: T)
    ensures Reaches(g, a, a)
  {
    assert Path(g, [a]) && [a][0] == a;
  }

  lemma StepThen<T(!new)>(g: Graph<T>, a: T, b: T, c: T)
    requires b in Succ(g, a) && Reaches(g, b, c)
    ensures Reaches(g, a, c)
  {
    var p :| Path(g, p) && p[0] == b && p[|p| - 1] == c;
    var q := [a] + p;
    forall k | 0 <= k < |q| - 1
      ensures q[k + 1] in Succ(g, q[k])
    {
      if k > 0 {
        assert p[k - 1 + 1] in Succ(g, p[k - 1]);
      }
    }
    assert Path(g, q) && q[0] == a && q[|q| - 1] == c;
  }

  lemma ThenStep<T(!new)>(g: Graph<T>, a: T, b: T, c: T)
    requires Reaches(g, a, b) && c in Succ(g, b)
    ensures Reaches(g, a, c)
  {
    var p :| Path(g, p) && p[0] == a && p[|p| - 1] == b;
    var q := p + [c];
    assert Path(g, q) && q[0] == a && q[|q| - 1] == c;
  }

  ghost predicate Closed<T(!new)>(g: Graph<T>, s: set<T>) {
    forall x, y | x in s && y in Succ(g, x) :: y in s
  }

  /** A closed set keeps whatever it reaches. */
  lemma ClosedKeeps<T(!new)>(g: Graph<T>, s: set<T>, a: T, b: T)
    requires Closed(g, s) && a in s && Reaches(g, a, b)
    ensures b in s
  {
    var p :| Path(g, p) && p[0] == a && p[|p| - 1] == b;
    PathStays(g, s, p, |p| - 1);
  }

  lemma {:induction false} PathStays<T(!new)>(g: Graph<T>, s: set<T>, p: seq<T>, k: nat)
    requires Closed(g, s) && Path(g, p) && p[0] in s && k < |p|
    ensures p[k] in s
  {
    if k > 0 {
      PathStays(g, s, p, k - 1);
      assert p[k - 1 + 1] in Succ(g, p[k - 1]);
    }
  }

  // ---- saturation ------------------------------------------------------------------------

  ghost predicate ReachesAny<T(!new)>(g: Graph<T>, x: T, seed: set<T>) {
    exists s | s in seed :: Reaches(g, x, s)
  }

  function Unmarked<T(==)>(types: seq<T>, mark: map<T, bool>): set<T> {
    set x | x in types && !(x in mark && mark[x])
  }

  predicate Marked<T>(mark: map<T, bool>, x: T) {
    x in mark && mark[x]
  }

  predicate AnyMarked<T>(mark: map<T, bool>, xs: seq<T>) {
    exists k | 0 <= k < |xs| :: Marked(mark, xs[k])
  }

  /** Rounds over all types until one changes nothing. `start` is empty for lifetimes and the
      seed itself for links. A type ends up marked exactly when it reaches the seed. */
  method Saturate<T(==, !new)>(types: seq<T>, start: set<T>, seed: set<T>, g: Graph<T>) returns (mark: map<T, bool>)
    requires start <= seed && (forall x | x in seed :: x in types)
    requires Closed(g, set x | x in types)
    ensures mark.Keys == set x | x in types
    ensures forall x | x in types :: mark[x] <==> ReachesAny(g, x, seed)
  {
    mark := map x | x in types :: x in start;
    forall x | x in start ensures ReachesAny(g, x, seed) { ReachesSelf(g, x); }
    var changed := true;
    while changed
      invariant mark.Keys == set x | x in types
      invariant forall x | x in types && mark[x] :: ReachesAny(g, x, seed)
      invariant !changed ==> forall x | x in types && !mark[x] :: x !in seed && !AnyMarked(mark, Succ(g, x))
      decreases Unmarked(types, mark), changed
    {
      ghost var before := mark;
      changed := false;
      for i := 0 to |types|
        invariant mark.Keys == before.Keys
        invariant forall x | x in types && mark[x] :: ReachesAny(g, x, seed)
        invariant !changed ==> mark == before
        invariant changed ==> Unmarked(types, mark) < Unmarked(types, before)
        invariant !changed ==> forall j | 0 <= j < i && !mark[types[j]] ::
                    types[j] !in seed && !AnyMarked(mark, Succ(g, types[j]))
      {
        var x := types[i];
        if !mark[x] && (x in seed || AnyMarked(mark, Succ(g, x))) {
          MarkSound(g, types, mark, seed, x);
          ghost var earlier := mark;
          mark := mark[x := true];
          changed := true;
          assert x in Unmarked(types, earlier) && x !in Unmarked(types, mark);
          assert Unmarked(types, mark) < Unmarked(types, earlier);
        }
      }
    }
    forall x | x in types && ReachesAny(g, x, seed) ensures mark[x] {
      MarkComplete(g, types, mark, seed, x);
    }
  }

  lemma MarkSound<T(!new)>(g: Graph<T>, types: seq<T>, mark: map<T, bool>, seed: set<T>, x: T)
    requires forall y | y in mark && mark[y] :: ReachesAny(g, y, seed)
    requires x in seed || AnyMarked(mark, Succ(g, x))
    ensures ReachesAny(g, x, seed)
  {
    if x in seed {
      ReachesSelf(g, x);
    } else {
      var k :| 0 <= k < |Succ(g, x)| && Marked(mark, Succ(g, x)[k]);
      var y := Succ(g, x)[k];
      var s :| s in seed && Reaches(g, y, s);
      StepThen(g, x, y, s);
    }
  }

  lemma MarkComplete<T(!new)>(g: Graph<T>, types: seq<T>, mark: map<T, bool>, seed: set<T>, x: T)
    requires Closed(g, set y | y in types) && mark.Keys == set y | y in types
    requires forall y | y in types && !mark[y] :: y !in seed && !AnyMarked(mark, Succ(g, y))
    requires x in types && ReachesAny(g, x, seed)
    ensures mark[x]
  {
    var left := set y | y in types && !mark[y];
    forall y, z | y in left && z in Succ(g, y)
      ensures z in left
    {
      var k :| 0 <= k < |Succ(g, y)| && Succ(g, y)[k] == z;
      assert !Marked(mark, Succ(g, y)[k]);
      assert z in set w | w in types;
    }
    var s :| s in seed && Reaches(g, x, s);
    if x in left {
      ClosedKeeps(g, left, x, s);
    }
  }

  // ---- the worklist ----------------------------------------------------------------------------

  ghost predicate FromAny<T(!new)>(g: Graph<T>, roots: seq<T>, x: T) {
    exists r | r in roots :: Reaches(g, r, x)
  }

  /** Everything the roots reach, by popping and extending a list. `universe` bounds the names. */
  method Reachable<T(==, !new)>(g: Graph<T>, roots: seq<T>, ghost universe: set<T>) returns (seen: set<T>)
    requires Closed(g, universe) && forall r | r in roots :: r in universe
    ensures forall x :: x in seen <==> FromAny(g, roots, x)
  {
    hide Frontier, Closed, FromAny;
    var todo := roots;
    seen := {};
    RootsListed(g, roots, universe);
    while todo != []
      invariant Frontier(g, roots, universe, seen, todo)
      decreases universe - seen, |todo|
    {
      var x := todo[|todo| - 1];
      assert todo == todo[..|todo| - 1] + [x];
      todo := todo[..|todo| - 1];
      if x !in seen {
        Expand(g, roots, universe, seen, todo, x);
        seen := seen + {x};
        todo := todo + Succ(g, x);
      } else {
        Skip(g, roots, universe, seen, todo, x);
      }
    }
    NothingListed(g, roots, universe, seen);
  }

  /** All seen or listed is reached; what is seen has its successors seen or listed. */
  ghost predicate Frontier<T(!new)>(g: Graph<T>, roots: seq<T>, universe: set<T>, seen: set<T>, todo: seq<T>) {
    && (forall x | x in seen || x in todo :: x in universe && FromAny(g, roots, x))
    && (forall x, y | x in seen && y in Succ(g, x) :: y in seen || y in todo)
    && (forall r | r in roots :: r in seen || r in todo)
  }

  lemma RootsListed<T(!new)>(g: Graph<T>, roots: seq<T>, universe: set<T>)
    requires forall r | r in roots :: r in universe
    ensures Frontier(g, roots, universe, {}, roots)
  {
    forall r | r in roots ensures FromAny(g, roots, r) { ReachesSelf(g, r); }
  }

  lemma NothingListed<T(!new)>(g: Graph<T>, roots: seq<T>, universe: set<T>, seen: set<T>)
    requires Frontier(g, roots, universe, seen, [])
    ensures forall x :: x in seen <==> FromAny(g, roots, x)
  {
    assert Closed(g, seen);
    forall x | FromAny(g, roots, x) ensures x in seen {
      var r :| r in roots && Reaches(g, r, x);
      ClosedKeeps(g, seen, r, x);
    }
  }

  lemma Expand<T(!new)>(g: Graph<T>, roots: seq<T>, universe: set<T>, seen: set<T>, todo: seq<T>, x: T)
    requires Closed(g, universe) && Frontier(g, roots, universe, seen, todo + [x])
    ensures x in universe && Frontier(g, roots, universe, seen + {x}, todo + Succ(g, x))
  {
    assert x in todo + [x];
    forall y | y in Succ(g, x) ensures FromAny(g, roots, y) {
      var r :| r in roots && Reaches(g, r, x);
      ThenStep(g, r, x, y);
    }
    forall y | y in todo ensures y in todo + [x] {}
  }

  lemma Skip<T(!new)>(g: Graph<T>, roots: seq<T>, universe: set<T>, seen: set<T>, todo: seq<T>, x: T)
    requires Frontier(g, roots, universe, seen, todo + [x]) && x in seen
    ensures Frontier(g, roots, universe, seen, todo)
  {
    forall y | y in todo ensures y in todo + [x] {}
  }

  // ---- the ordered closure ---------------------------------------------------------------------

  /** Members and chain links together. */
  function Both<T>(members: Graph<T>, chains: Graph<T>): Graph<T> {
    map x | x in members.Keys + chains.Keys :: Succ(members, x) + Succ(chains, x)
  }

  predicate Distinct<T(==)>(s: seq<T>) {
    forall i, j | 0 <= i < j < |s| :: s[i] != s[j]
  }

  /** Every type comes after the types of its members. */
  predicate MembersFirst<T(==)>(members: Graph<T>, s: seq<T>) {
    forall k | 0 <= k < |s| :: forall y | y in Succ(members, s[k]) :: y in s[..k]
  }

  /** From `s[from]` on, the links of every type are listed too. */
  predicate ChainsListed<T(==)>(chains: Graph<T>, s: seq<T>, from: nat) {
    forall k | from <= k < |s| :: forall y | y in Succ(chains, s[k]) :: y in s
  }

  /** A type that contains itself, through members and the links met on the way. */
  ghost predicate ContainsItself<T(!new)>(members: Graph<T>, chains: Graph<T>, x: T) {
    exists m | m in Succ(members, x) :: Reaches(Both(members, chains), m, x)
  }

  lemma Listed<T>(members: Graph<T>, chains: Graph<T>, s: seq<T>, x: T)
    requires MembersFirst(members, s) && Distinct(s) && x !in s
    requires forall y | y in Succ(members, x) :: y in s
    ensures MembersFirst(members, s + [x]) && Distinct(s + [x])
  {
    var t := s + [x];
    forall k | 0 <= k < |t| ensures forall y | y in Succ(members, t[k]) :: y in t[..k] {
      assert t[..k] == if k < |s| then s[..k] else s;
    }
  }

  ghost predicate AllReached<T(!new)>(g: Graph<T>, x: T, s: seq<T>, from: nat) {
    forall k | from <= k < |s| :: Reaches(g, x, s[k])
  }

  lemma ReachedThrough<T(!new)>(g: Graph<T>, x: T, m: T, s: seq<T>, mid: nat, from: nat)
    requires m in Succ(g, x) && from <= mid <= |s| && AllReached(g, m, s, mid) && AllReached(g, x, s[..mid], from)
    ensures AllReached(g, x, s, from)
  {
    forall k | from <= k < |s|
      ensures Reaches(g, x, s[k])
    {
      if k < mid {
        assert s[..mid][k] == s[k];
      } else {
        StepThen(g, x, m, s[k]);
      }
    }
  }

  class Closure<T(==, !new)> {
    const members: Graph<T>
    const chains: Graph<T>
    const refused: set<T>
    ghost const universe: set<T>
    var seen: seq<T>
    var visiting: seq<T>

    constructor (m: Graph<T>, c: Graph<T>, refused: set<T>, ghost universe: set<T>)
      requires Closed(Both(m, c), universe)
      ensures members == m && chains == c && this.refused == refused && this.universe == universe
      ensures seen == [] && visiting == [] && Valid()
    {
      members, chains, this.refused, this.universe := m, c, refused, universe;
      seen, visiting := [], [];
    }

    ghost function Links(): Graph<T> {
      Both(members, chains)
    }

    ghost predicate Valid()
      reads this
    {
      && Closed(Links(), universe)
      && (forall x | x in seen :: x in universe && x !in refused)
      && (forall x | x in visiting :: x in universe && x !in seen)
      && Distinct(seen) && MembersFirst(members, seen)
    }

    ghost function Left(): set<T>
      reads this
    {
      set x | x in universe && x !in seen && x !in visiting
    }

    /** `seen` grew by types `x` reaches, with their links, and nothing else changed. */
    ghost predicate Grew(before: seq<T>, stack: seq<T>, x: T)
      reads this
    {
      && Valid() && visiting == stack && before <= seen
      && ChainsListed(chains, seen, |before|)
      && AllReached(Links(), x, seen, |before|)
    }

    /** Why a visit of `x` gives up: below it is a type that is refused, contains itself, or is
        being visited. */
    ghost predicate Stuck(stack: seq<T>, x: T) {
      exists y :: Reaches(Links(), x, y) && (y in refused || y in stack || ContainsItself(members, chains, y))
    }

    lemma StuckAbove(stack: seq<T>, x: T, m: T, member: bool)
      requires m in Succ(Links(), x) && (member ==> m in Succ(members, x))
      requires Stuck(if member then stack + [x] else stack, m)
      ensures Stuck(stack, x)
    {
      var y :| && Reaches(Links(), m, y)
               && (y in refused || y in (if member then stack + [x] else stack) || ContainsItself(members, chains, y));
      StepThen(Links(), x, m, y);
      ReachesSelf(Links(), x);
    }

    method Visit(x: T) returns (ok: bool)
      requires Valid() && x in universe
      modifies this
      ensures ok ==> x in seen && Grew(old(seen), old(visiting), x)
      ensures !ok ==> Stuck(old(visiting), x)
      decreases Left(), 0
    {
      if x in seen {
        return true;
      }
      ReachesSelf(Links(), x);
      if x in visiting || x in refused {
        return false;
      }
      ghost var before, stack := seen, visiting;
      visiting := visiting + [x];
      assert x in old(Left()) && x !in Left();
      ok := VisitMembers(x, before, stack);
      if !ok { return; }
      visiting := visiting[..|visiting| - 1];
      Listed(members, chains, seen, x);
      seen := seen + [x];
      ok := VisitLinks(x, before, stack);
    }

    method VisitMembers(x: T, ghost before: seq<T>, ghost stack: seq<T>) returns (ok: bool)
      requires Valid() && x in universe && visiting == stack + [x] && x !in stack && seen == before && x !in seen
      modifies this
      ensures ok ==> Grew(before, stack + [x], x) && forall y | y in Succ(members, x) :: y in seen
      ensures !ok ==> Stuck(stack, x)
      decreases Left(), 1
    {
      var ms := Succ(members, x);
      for k := 0 to |ms|
        invariant Grew(before, stack + [x], x)
        invariant forall j | 0 <= j < k :: ms[j] in seen
        invariant Left() <= old(Left())
      {
        assert ms[k] in Succ(Links(), x);
        ghost var mid := seen;
        ok := Visit(ms[k]);
        if !ok {
          StuckAbove(stack, x, ms[k], true);
          return;
        }
        assert seen[..|mid|] == mid;
        ReachedThrough(Links(), x, ms[k], seen, |mid|, |before|);
      }
      ok := true;
    }

    method VisitLinks(x: T, ghost before: seq<T>, ghost stack: seq<T>) returns (ok: bool)
      requires Valid() && x in universe && visiting == stack && x in seen && before <= seen
      requires AllReached(Links(), x, seen, |before|)
      requires forall k | |before| <= k < |seen| && seen[k] != x :: forall y | y in Succ(chains, seen[k]) :: y in seen
      modifies this
      ensures ok ==> x in seen && Grew(before, stack, x)
      ensures !ok ==> Stuck(stack, x)
      decreases Left(), 1
    {
      var cs := Succ(chains, x);
      for k := 0 to |cs|
        invariant Valid() && visiting == stack && x in seen && before <= seen
        invariant AllReached(Links(), x, seen, |before|)
        invariant forall j | |before| <= j < |seen| && seen[j] != x :: forall y | y in Succ(chains, seen[j]) ::
                    y in seen
        invariant forall j | 0 <= j < k :: cs[j] in seen
        invariant Left() <= old(Left())
      {
        assert cs[k] in Succ(Links(), x);
        ghost var mid := seen;
        ok := Visit(cs[k]);
        if !ok {
          StuckAbove(stack, x, cs[k], false);
          return;
        }
        assert seen[..|mid|] == mid;
        ReachedThrough(Links(), x, cs[k], seen, |mid|, |before|);
      }
      ok := true;
    }

    /** The whole closure. On success the list holds exactly what the roots reach, once each and
        members first, and none of it is refused; it fails only if something reached is refused or contains itself. */
    method Close(roots: seq<T>) returns (ok: bool)
      requires Valid() && seen == [] && visiting == [] && forall r | r in roots :: r in universe
      modifies this
      ensures ok ==> Distinct(seen) && MembersFirst(members, seen)
      ensures ok ==> forall x :: x in seen <==> FromAny(Links(), roots, x)
      ensures ok ==> forall x | x in seen :: x !in refused
      ensures !ok ==> exists x :: FromAny(Links(), roots, x) && (x in refused || ContainsItself(members, chains, x))
    {
      for i := 0 to |roots|
        invariant Valid() && visiting == [] && ChainsListed(chains, seen, 0)
        invariant forall j | 0 <= j < i :: roots[j] in seen
        invariant forall k | 0 <= k < |seen| :: FromAny(Links(), roots, seen[k])
      {
        ghost var mid := seen;
        ok := Visit(roots[i]);
        if !ok {
          ghost var y :| Reaches(Links(), roots[i], y) &&
            (y in refused || y in [] || ContainsItself(members, chains, y));
          assert FromAny(Links(), roots, y);
          return;
        }
        assert seen[..|mid|] == mid;
        forall k | |mid| <= k < |seen| ensures FromAny(Links(), roots, seen[k]) {
          assert Reaches(Links(), roots[i], seen[k]);
        }
      }
      ok := true;
      ghost var all := set x | x in seen;
      forall x, y | x in all && y in Succ(Links(), x) ensures y in all {
        var k :| 0 <= k < |seen| && seen[k] == x;
        assert forall z | z in Succ(members, seen[k]) :: z in seen[..k];
      }
      forall x | FromAny(Links(), roots, x) ensures x in seen {
        var r :| r in roots && Reaches(Links(), r, x);
        ClosedKeeps(Links(), all, r, x);
      }
    }
  }

  /** Numbered by their places in such a list, members have smaller numbers than their holders. */
  lemma SmallerIndex<T>(members: Graph<T>, s: seq<T>, k: nat, j: nat)
    requires Distinct(s) && MembersFirst(members, s) && k < |s| && j < |s| && s[j] in Succ(members, s[k])
    ensures j < k
  {
    assert s[j] in s[..k];
    var i :| 0 <= i < k && s[..k][i] == s[j];
    assert s[i] == s[j];
  }
}
