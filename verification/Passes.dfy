/**
  The passes the codec relies on, over the registry itself: the zero-width marks in one
  pass over the closure order, and the link walk pruned by the marks of the chain pass.
 */
module Passes {
  import opened Options
  import opened Schema
  import opened Codec
  import opened Graphs
  import opened RoundTrip

  // ---- the closure order ---------------------------------------------------------------------------

  /** The registry lists the types of `seen` in that order: a field's type is a member of the holder's. */
  predicate Numbered<T(==)>(reg: Registry, members: Graph<T>, seen: seq<T>) {
    && |reg| == |seen|
    && forall k, f, d | 0 <= k < |reg| && f in Holding(reg[k]) && d in FieldDeps(f) ::
         Declared(members, seen, k, d)
  }

  predicate Declared<T(==)>(members: Graph<T>, seen: seq<T>, k: nat, d: nat) {
    k < |seen| && d < |seen| && seen[d] in Succ(members, seen[k])
  }

  function Holding(def: TypeDef): seq<Field> {
    match def
    case StructDef(_, _, fields, _) => fields
    case UnionDef(_, _, _, cases) => Members(cases)
  }

  /** What the closure's order is for: every element is of a type declared before its holder, as an
      accepted registry has it. */
  lemma ElementsBelow<T>(reg: Registry, members: Graph<T>, seen: seq<T>, k: nat, f: Field)
    requires Numbered(reg, members, seen) && Distinct(seen) && MembersFirst(members, seen)
    requires k < |reg| && f in Holding(reg[k])
    ensures var e := ElemOf(f.shape); e.Some? ==> Rank(e.value) <= k
  {
    var e := ElemOf(f.shape);
    if e.Some? && (e.value.Struct? || e.value.Union?) {
      var d := e.value.ty;
      assert d in FieldDeps(f);
      assert Declared(members, seen, k, d);
      SmallerIndex(members, seen, k, d);
    }
  }

  // ---- zero width in one pass -----------------------------------------------------------

  /** One look at each type, in closure order, at marks already made. */
  method MarkZeroWidth(reg: Registry) returns (zero: array<bool>)
    ensures zero.Length == |reg|
    ensures forall i | 0 <= i < |reg| :: zero[i] == ZeroWidth(reg, i)
  {
    zero := new bool[|reg|](_ => false);
    for i := 0 to |reg|
      invariant forall j | 0 <= j < i :: zero[j] == ZeroWidth(reg, j)
      invariant forall j | i <= j < |reg| :: !zero[j]
    {
      if reg[i].UnionDef? || reg[i].stype.Some? || !reg[i].skeleton {
        zero[i] := false;
        continue;
      }
      var fs := reg[i].fields;
      var empty := true;
      for k := 0 to |fs|
        invariant empty && forall j | 0 <= j < k :: WidthlessField(reg, i, fs, j)
        invariant forall j | 0 <= j < i :: zero[j] == ZeroWidth(reg, j)
        invariant forall j | i <= j < |reg| :: !zero[j]
      {
        var t := Uninitialised(fs, k);
        match fs[k].shape {
          case Plain(e) =>
            if t.Invalid? || (t.Partial? && e.Struct? && e.ty < |reg| && zero[e.ty]) { continue; }
          case Stride(_) => if t.Invalid? { continue; }
          case Selected(_, _) => if t.Invalid? { continue; }
          case Static(_, _) => if t.Invalid? { continue; }
          case _ =>
        }
        assert !WidthlessField(reg, i, fs, k);
        empty := false;
        break;
      }
      zero[i] := empty;
    }
  }

  /** A structure is marked exactly when its skeleton has no bytes, whatever value is sent. */
  lemma ZeroWidthExact(reg: Registry, i: nat, v: Value)
    requires RegistryOk(reg) && IsStruct(reg, i) && EncStruct(reg, i, true, v).Some?
    ensures EncStruct(reg, i, true, v).value == [] <==> ZeroWidth(reg, i)
  {
    if ZeroWidth(reg, i) {
      ZeroWidthEmpty(reg, i, v);
    } else {
      StructWide(reg, i, true, v);
    }
  }

  // ---- the link walk -------------------------------------------------------------------------

  /** A visited link: the structure it hangs on and its own type. */
  type Visit = (nat, nat)

  /** Every link reachable in a value, in order, looking only into types `m` marks, and into unions and
      two-level arrays only when `deep`. */
  function WalkElem(reg: Registry, m: nat -> bool, deep: bool, e: Elem, v: Value): seq<Visit>
    decreases v, 1
  {
    match e
    case Struct(j) => if m(j) then WalkStruct(reg, m, deep, j, v) else []
    case Union(u) => if deep && m(u) then WalkUnion(reg, m, deep, u, v) else []
    case _ => []
  }

  function WalkUnion(reg: Registry, m: nat -> bool, deep: bool, u: nat, v: Value): seq<Visit>
    decreases v, 0
  {
    if u < |reg| && reg[u].UnionDef? && v.Variant? && v.case_ < |reg[u].cases|
    then WalkField(reg, m, deep, reg[u].cases[v.case_].member, v.member)
    else []
  }

  function WalkStruct(reg: Registry, m: nat -> bool, deep: bool, i: nat, v: Value): seq<Visit>
    decreases v, 0
  {
    if Shaped(reg, i, v)
    then WalkLinks(reg, m, deep, i, v.links) + WalkFields(reg, m, deep, reg[i].fields, v.fields, 0)
    else []
  }

  function WalkLinks(reg: Registry, m: nat -> bool, deep: bool, parent: nat, links: seq<Link>): seq<Visit>
    decreases links, |links|
  {
    if links == [] then []
    else [(parent, links[0].ty)] + WalkLink(reg, m, deep, links[0]) + WalkLinks(reg, m, deep, parent, links[1..])
  }

  function WalkLink(reg: Registry, m: nat -> bool, deep: bool, l: Link): seq<Visit>
    decreases l
  {
    if m(l.ty) then WalkStruct(reg, m, deep, l.ty, l.body) else []
  }

  function WalkFields(reg: Registry, m: nat -> bool, deep: bool, fs: seq<Field>, vals: seq<Value>, k: nat): seq<Visit>
    requires k <= |fs| == |vals|
    decreases vals, |vals| - k
  {
    if k == |fs| then [] else WalkField(reg, m, deep, fs[k], vals[k]) + WalkFields(reg, m, deep, fs, vals, k + 1)
  }

  function WalkField(reg: Registry, m: nat -> bool, deep: bool, f: Field, v: Value): seq<Visit>
    decreases v, 2
  {
    match f.shape
    case Plain(e) => WalkElem(reg, m, deep, e, v)
    case Selected(u, _) => WalkElem(reg, m, deep, Union(u), v)
    case Ptr(e) => if v.Ref? then WalkElem(reg, m, deep, e, v.target) else []
    case Static(e, _) => if v.Arr? then WalkElems(reg, m, deep, e, v.elems) else []
    case Dyn(e, _) => if v.Arr? then WalkElems(reg, m, deep, e, v.elems) else []
    case Nested(e, _, _) => if deep && v.Arr? then WalkRows(reg, m, deep, e, v.elems) else []
    case _ => []
  }

  function WalkElems(reg: Registry, m: nat -> bool, deep: bool, e: Elem, vs: seq<Value>): seq<Visit>
    decreases vs, |vs|
  {
    if vs == [] then [] else WalkElem(reg, m, deep, e, vs[0]) + WalkElems(reg, m, deep, e, vs[1..])
  }

  function WalkRows(reg: Registry, m: nat -> bool, deep: bool, e: Elem, rows: seq<Value>): seq<Visit>
    decreases rows, |rows|
  {
    if rows == [] then []
    else (if rows[0].Arr? then WalkElems(reg, m, deep, e, rows[0].elems) else []) + WalkRows(reg, m, deep, e, rows[1..])
  }

  // ---- the marks -------------------------------------------------------------------------------

  function FieldDeps(f: Field): seq<nat> {
    var e := ElemOf(f.shape);
    if e.Some? && (e.value.Struct? || e.value.Union?) then [e.value.ty] else []
  }

  function AllDeps(fs: seq<Field>): (r: seq<nat>)
    ensures forall k, d | 0 <= k < |fs| && d in FieldDeps(fs[k]) :: d in r
    ensures forall d | d in r :: exists k | 0 <= k < |fs| :: d in FieldDeps(fs[k])
  {
    if fs == [] then []
    else
      assert fs == fs[..|fs| - 1] + [fs[|fs| - 1]];
      AllDeps(fs[..|fs| - 1]) + FieldDeps(fs[|fs| - 1])
  }

  function Members(cases: seq<Case>): seq<Field> {
    seq(|cases|, c requires 0 <= c < |cases| => cases[c].member)
  }

  function DepsOf(def: TypeDef): seq<nat> {
    match def
    case StructDef(_, chain, fields, _) => AllDeps(fields) + chain
    case UnionDef(_, _, _, cases) => AllDeps(Members(cases))
  }

  function TypeGraph(reg: Registry): Graph<nat> {
    map i: nat | i < |reg| :: DepsOf(reg[i])
  }

  function Chained(reg: Registry): set<nat> {
    set i: nat | i < |reg| && reg[i].StructDef? && reg[i].chain != []
  }

  /** What is not marked has no chain and depends on nothing marked. */
  ghost predicate Prunes(reg: Registry, m: nat -> bool) {
    forall i: nat | i < |reg| && !m(i) :: i !in Chained(reg) && forall d | d in DepsOf(reg[i]) :: !m(d)
  }

  lemma MarksPrune(reg: Registry, m: nat -> bool)
    requires forall i: nat | i < |reg| :: m(i) <==> ReachesAny(TypeGraph(reg), i, Chained(reg))
    requires forall i: nat | m(i) :: i < |reg|
    ensures Prunes(reg, m)
  {
    var g := TypeGraph(reg);
    forall i: nat | i < |reg| && !m(i)
      ensures i !in Chained(reg) && forall d | d in DepsOf(reg[i]) :: !m(d)
    {
      ReachesSelf(g, i);
      forall d | d in DepsOf(reg[i]) && m(d)
        ensures false
      {
        var s :| s in Chained(reg) && Reaches(g, d, s);
        assert d in Succ(g, i);
        StepThen(g, i, d, s);
      }
    }
  }

  // ---- pruning loses nothing ----------------------------------------------------------------------

  const All: nat -> bool := _ => true

  lemma {:induction false} NothingInStruct(reg: Registry, m: nat -> bool, deep: bool, i: nat, v: Value)
    requires Prunes(reg, m) && !m(i)
    ensures WalkStruct(reg, All, deep, i, v) == []
    decreases v, 0
  {
    if Shaped(reg, i, v) {
      LinksListed(v.links, reg[i].chain);
      assert v.links == [];
      assert forall k | 0 <= k < |reg[i].fields| :: forall d | d in FieldDeps(reg[i].fields[k]) :: d in DepsOf(reg[i]);
      NothingInFields(reg, m, deep, reg[i].fields, v.fields, 0);
    }
  }

  lemma {:induction false} NothingInUnion(reg: Registry, m: nat -> bool, deep: bool, u: nat, v: Value)
    requires Prunes(reg, m) && !m(u)
    ensures WalkUnion(reg, All, deep, u, v) == []
    decreases v, 0
  {
    if u < |reg| && reg[u].UnionDef? && v.Variant? && v.case_ < |reg[u].cases| {
      var ms := Members(reg[u].cases);
      assert ms[v.case_] == reg[u].cases[v.case_].member;
      assert forall d | d in FieldDeps(ms[v.case_]) :: d in DepsOf(reg[u]);
      NothingInField(reg, m, deep, ms[v.case_], v.member);
    }
  }

  lemma {:induction false} NothingInElem(reg: Registry, m: nat -> bool, deep: bool, e: Elem, v: Value)
    requires Prunes(reg, m) && ((e.Struct? || e.Union?) ==> !m(e.ty))
    ensures WalkElem(reg, All, deep, e, v) == []
    decreases v, 1
  {
    if e.Struct? {
      NothingInStruct(reg, m, deep, e.ty, v);
    } else if e.Union? {
      NothingInUnion(reg, m, deep, e.ty, v);
    }
  }

  lemma {:induction false} NothingInFields(reg: Registry, m: nat -> bool, deep: bool, fs: seq<Field>,
                                           vals: seq<Value>, k: nat)
    requires Prunes(reg, m) && k <= |fs| == |vals|
    requires forall j | 0 <= j < |fs| :: forall d | d in FieldDeps(fs[j]) :: !m(d)
    ensures WalkFields(reg, All, deep, fs, vals, k) == []
    decreases vals, |vals| - k
  {
    if k < |fs| {
      NothingInField(reg, m, deep, fs[k], vals[k]);
      NothingInFields(reg, m, deep, fs, vals, k + 1);
    }
  }

  lemma {:induction false} NothingInField(reg: Registry, m: nat -> bool, deep: bool, f: Field, v: Value)
    requires Prunes(reg, m) && forall d | d in FieldDeps(f) :: !m(d)
    ensures WalkField(reg, All, deep, f, v) == []
    decreases v, 2
  {
    var e := ElemOf(f.shape);
    if e.Some? && (e.value.Struct? || e.value.Union?) {
      assert e.value.ty in FieldDeps(f);
    }
    match f.shape
    case Plain(e) => NothingInElem(reg, m, deep, e, v);
    case Selected(u, _) => NothingInElem(reg, m, deep, Union(u), v);
    case Ptr(e) => if v.Ref? { NothingInElem(reg, m, deep, e, v.target); }
    case Static(e, _) => if v.Arr? { NothingInElems(reg, m, deep, e, v.elems); }
    case Dyn(e, _) => if v.Arr? { NothingInElems(reg, m, deep, e, v.elems); }
    case Nested(e, _, _) => if v.Arr? { NothingInRows(reg, m, deep, e, v.elems); }
    case _ =>
  }

  lemma {:induction false} NothingInElems(reg: Registry, m: nat -> bool, deep: bool, e: Elem, vs: seq<Value>)
    requires Prunes(reg, m) && ((e.Struct? || e.Union?) ==> !m(e.ty))
    ensures WalkElems(reg, All, deep, e, vs) == []
    decreases vs, |vs|
  {
    if vs != [] {
      NothingInElem(reg, m, deep, e, vs[0]);
      NothingInElems(reg, m, deep, e, vs[1..]);
    }
  }

  lemma {:induction false} NothingInRows(reg: Registry, m: nat -> bool, deep: bool, e: Elem, rows: seq<Value>)
    requires Prunes(reg, m) && ((e.Struct? || e.Union?) ==> !m(e.ty))
    ensures WalkRows(reg, All, deep, e, rows) == []
    decreases rows, |rows|
  {
    if rows != [] {
      if rows[0].Arr? { NothingInElems(reg, m, deep, e, rows[0].elems); }
      NothingInRows(reg, m, deep, e, rows[1..]);
    }
  }

  lemma {:induction false} PrunedElem(reg: Registry, m: nat -> bool, deep: bool, e: Elem, v: Value)
    requires Prunes(reg, m)
    ensures WalkElem(reg, m, deep, e, v) == WalkElem(reg, All, deep, e, v)
    decreases v, 1
  {
    match e
    case Struct(j) => if m(j) { PrunedStruct(reg, m, deep, j, v); } else { NothingInStruct(reg, m, deep, j, v); }
    case Union(u) => if m(u) { PrunedUnion(reg, m, deep, u, v); } else { NothingInUnion(reg, m, deep, u, v); }
    case _ =>
  }

  lemma {:induction false} PrunedUnion(reg: Registry, m: nat -> bool, deep: bool, u: nat, v: Value)
    requires Prunes(reg, m)
    ensures WalkUnion(reg, m, deep, u, v) == WalkUnion(reg, All, deep, u, v)
    decreases v, 0
  {
    if u < |reg| && reg[u].UnionDef? && v.Variant? && v.case_ < |reg[u].cases| {
      PrunedField(reg, m, deep, reg[u].cases[v.case_].member, v.member);
    }
  }

  lemma {:induction false} PrunedStruct(reg: Registry, m: nat -> bool, deep: bool, i: nat, v: Value)
    requires Prunes(reg, m)
    ensures WalkStruct(reg, m, deep, i, v) == WalkStruct(reg, All, deep, i, v)
    decreases v, 0
  {
    if Shaped(reg, i, v) {
      PrunedLinks(reg, m, deep, i, v.links);
      PrunedFields(reg, m, deep, reg[i].fields, v.fields, 0);
    }
  }

  lemma {:induction false} PrunedLinks(reg: Registry, m: nat -> bool, deep: bool, parent: nat, links: seq<Link>)
    requires Prunes(reg, m)
    ensures WalkLinks(reg, m, deep, parent, links) == WalkLinks(reg, All, deep, parent, links)
    decreases links, |links|
  {
    if links != [] {
      PrunedLink(reg, m, deep, links[0]);
      PrunedLinks(reg, m, deep, parent, links[1..]);
    }
  }

  lemma {:induction false} PrunedLink(reg: Registry, m: nat -> bool, deep: bool, l: Link)
    requires Prunes(reg, m)
    ensures WalkLink(reg, m, deep, l) == WalkLink(reg, All, deep, l)
    decreases l
  {
    if m(l.ty) {
      PrunedStruct(reg, m, deep, l.ty, l.body);
    } else {
      NothingInStruct(reg, m, deep, l.ty, l.body);
    }
  }

  lemma {:induction false} PrunedFields(reg: Registry, m: nat -> bool, deep: bool, fs: seq<Field>, vals: seq<Value>,
                                        k: nat)
    requires Prunes(reg, m) && k <= |fs| == |vals|
    ensures WalkFields(reg, m, deep, fs, vals, k) == WalkFields(reg, All, deep, fs, vals, k)
    decreases vals, |vals| - k
  {
    if k < |fs| {
      PrunedField(reg, m, deep, fs[k], vals[k]);
      PrunedFields(reg, m, deep, fs, vals, k + 1);
    }
  }

  lemma {:induction false} PrunedField(reg: Registry, m: nat -> bool, deep: bool, f: Field, v: Value)
    requires Prunes(reg, m)
    ensures WalkField(reg, m, deep, f, v) == WalkField(reg, All, deep, f, v)
    decreases v, 2
  {
    match f.shape
    case Plain(e) => PrunedElem(reg, m, deep, e, v);
    case Selected(u, _) => PrunedElem(reg, m, deep, Union(u), v);
    case Ptr(e) => if v.Ref? { PrunedElem(reg, m, deep, e, v.target); }
    case Static(e, _) => if v.Arr? { PrunedElems(reg, m, deep, e, v.elems); }
    case Dyn(e, _) => if v.Arr? { PrunedElems(reg, m, deep, e, v.elems); }
    case Nested(e, _, _) => if v.Arr? { PrunedRows(reg, m, deep, e, v.elems); }
    case _ =>
  }

  lemma {:induction false} PrunedElems(reg: Registry, m: nat -> bool, deep: bool, e: Elem, vs: seq<Value>)
    requires Prunes(reg, m)
    ensures WalkElems(reg, m, deep, e, vs) == WalkElems(reg, All, deep, e, vs)
    decreases vs, |vs|
  {
    if vs != [] {
      PrunedElem(reg, m, deep, e, vs[0]);
      PrunedElems(reg, m, deep, e, vs[1..]);
    }
  }

  lemma {:induction false} PrunedRows(reg: Registry, m: nat -> bool, deep: bool, e: Elem, rows: seq<Value>)
    requires Prunes(reg, m)
    ensures WalkRows(reg, m, deep, e, rows) == WalkRows(reg, All, deep, e, rows)
    decreases rows, |rows|
  {
    if rows != [] {
      if rows[0].Arr? { PrunedElems(reg, m, deep, e, rows[0].elems); }
      PrunedRows(reg, m, deep, e, rows[1..]);
    }
  }

  /** A walk that looks only into the types the chain pass marks sees every link of every value,
      in order. */
  lemma PrunedWalk(reg: Registry, m: nat -> bool, deep: bool, fs: seq<Field>, vals: seq<Value>)
    requires forall i: nat | i < |reg| :: m(i) <==> ReachesAny(TypeGraph(reg), i, Chained(reg))
    requires (forall i: nat | m(i) :: i < |reg|) && |fs| == |vals|
    ensures WalkFields(reg, m, deep, fs, vals, 0) == WalkFields(reg, All, deep, fs, vals, 0)
  {
    MarksPrune(reg, m);
    PrunedFields(reg, m, deep, fs, vals, 0);
  }

  /** The chain pass, over a registry closed under members and links. */
  method MarkLinks(reg: Registry) returns (mark: map<nat, bool>)
    requires forall i, d | 0 <= i < |reg| && d in DepsOf(reg[i]) :: d < |reg|
    ensures forall i: nat :: i in mark <==> i < |reg|
    ensures forall i | i in mark :: mark[i] <==> ReachesAny(TypeGraph(reg), i, Chained(reg))
  {
    var types: seq<nat> := seq(|reg|, i => i);
    forall i: nat | i < |reg| ensures i in types {
      assert types[i] == i;
    }
    hide DepsOf;
    mark := Saturate(types, Chained(reg), Chained(reg), TypeGraph(reg));
  }
}
