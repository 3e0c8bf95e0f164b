/**
  Where the translation walk looks, and what can be where it does not. The walk passes over unions and
  two-level arrays, and goes on only through links it lets through. A target is something a value
  may hold; a field is shut to it when no value the walk accepts keeps one from its view.
 */
module Views {
  import opened Options
  import opened Schema
  import opened Codec
  import opened Graphs
  import opened Passes
  import opened Translate

  /** A test on a link, from the structure it hangs on and its own type. */
  type LinkTest = (nat, nat) -> bool

  /** Which links come as far as the walk at all, and which of those it lets through where it looks. */
  datatype Guard = Guard(screened: LinkTest, admitted: LinkTest)

  predicate AllOf(test: LinkTest, visits: seq<Visit>) {
    forall x | x in visits :: test(x.0, x.1)
  }

  /** A value that comes as far as the walk, and whose links in view are let through. With `out` it is
      out of view. */
  predicate Guarded(reg: Registry, g: Guard, out: bool, f: Field, v: Value) {
    && AllOf(g.screened, WalkField(reg, All, true, f, v))
    && (out || AllOf(g.admitted, WalkField(reg, All, false, f, v)))
  }

  function Sifted(test: LinkTest, parent: nat, chain: seq<nat>): (r: seq<nat>)
    ensures forall d :: d in r <==> d in chain && test(parent, d)
  {
    if chain == [] then []
    else
      var last := chain[|chain| - 1];
      assert chain == chain[..|chain| - 1] + [last];
      Sifted(test, parent, chain[..|chain| - 1]) + if test(parent, last) then [last] else []
  }

  // ---- graphs ---------------------------------------------------------------------------------

  /** What a value of type `i` can hold, through members and links that pass a test. */
  function HeldBy(test: LinkTest, i: nat, def: TypeDef): seq<nat> {
    match def
    case StructDef(_, chain, fields, _) => AllDeps(fields) + Sifted(test, i, chain)
    case UnionDef(_, _, _, _) => DepsOf(def)
  }

  function HeldGraph(reg: Registry, test: LinkTest): Graph<nat> {
    map i: nat | i < |reg| :: HeldBy(test, i, reg[i])
  }

  /** The structures the walk goes on to from a field. */
  function ViewField(f: Field): seq<nat> {
    var e := ElemOf(f.shape);
    if e.Some? && e.value.Struct? && !f.shape.Nested? then [e.value.ty] else []
  }

  function ViewFields(fs: seq<Field>): (r: seq<nat>)
    ensures forall k, d | 0 <= k < |fs| && d in ViewField(fs[k]) :: d in r
    ensures forall d | d in r :: exists k | 0 <= k < |fs| :: d in ViewField(fs[k])
  {
    if fs == [] then []
    else
      assert fs == fs[..|fs| - 1] + [fs[|fs| - 1]];
      ViewFields(fs[..|fs| - 1]) + ViewField(fs[|fs| - 1])
  }

  function ViewGraph(reg: Registry, g: Guard): Graph<nat> {
    map i: nat | i < |reg| && reg[i].StructDef? ::
      ViewFields(reg[i].fields) + Sifted(g.admitted, i, Sifted(g.screened, i, reg[i].chain))
  }

  // ---- shut fields ----------------------------------------------------------------------------

  /** Types to look for, and whether a handle counts as one. */
  datatype Target = Target(types: set<nat>, handles: bool)

  /** Out of view, no target is below type `i`; in view, none is below it out of view. */
  ghost predicate Shut(reg: Registry, g: Guard, t: Target, out: bool, i: nat) {
    if out then !ReachesAny(HeldGraph(reg, g.screened), i, t.types)
    else !ReachesAny(ViewGraph(reg, g), i, Hiding(reg, g, t))
  }

  ghost predicate ShutElem(reg: Registry, g: Guard, t: Target, out: bool, e: Elem) {
    match e
    case Scalar(_, _) => true
    case Handle(_) => !(out && t.handles)
    case Struct(j) => Shut(reg, g, t, out, j)
    case Union(u) => Shut(reg, g, t, true, u)
  }

  ghost predicate ShutField(reg: Registry, g: Guard, t: Target, out: bool, f: Field) {
    var e := ElemOf(f.shape);
    e.Some? ==> ShutElem(reg, g, t, out || f.shape.Nested?, e.value)
  }

  /** A union or a two-level array that can hold a target. */
  ghost predicate Hides(reg: Registry, g: Guard, t: Target, f: Field) {
    var e := ElemOf(f.shape);
    e.Some? && match e.value
               case Scalar(_, _) => false
               case Handle(_) => f.shape.Nested? && t.handles
               case Struct(j) => f.shape.Nested? && ReachesAny(HeldGraph(reg, g.screened), j, t.types)
               case Union(u) => ReachesAny(HeldGraph(reg, g.screened), u, t.types)
  }

  ghost function Hiding(reg: Registry, g: Guard, t: Target): set<nat> {
    set i: nat | i < |reg| && reg[i].StructDef? && exists k | 0 <= k < |reg[i].fields| ::
      Hides(reg, g, t, reg[i].fields[k])
  }

  /** A field is shut unless it hides a target itself or leads to a structure that does. */
  lemma ShutMeans(reg: Registry, g: Guard, t: Target, f: Field)
    ensures ShutField(reg, g, t, false, f) <==>
            !Hides(reg, g, t, f) && forall d | d in ViewField(f) :: Shut(reg, g, t, false, d)
  {
    hide ReachesAny, HeldGraph, ViewGraph, Hiding;
    if ViewField(f) != [] {
      assert ViewField(f)[0] in ViewField(f);
    }
  }

  lemma ShutStep(reg: Registry, g: Guard, t: Target, out: bool, i: nat, d: nat)
    requires Shut(reg, g, t, out, i) && d in Succ(if out then HeldGraph(reg, g.screened) else ViewGraph(reg, g), i)
    ensures Shut(reg, g, t, out, d)
  {
    var graph := if out then HeldGraph(reg, g.screened) else ViewGraph(reg, g);
    var seed := if out then t.types else Hiding(reg, g, t);
    if s :| s in seed && Reaches(graph, d, s) {
      StepThen(graph, i, d, s);
    }
  }

  /** Whatever is below a shut structure is shut, its fields and the links it may carry. */
  lemma ShutBelow(reg: Registry, g: Guard, t: Target, out: bool, i: nat)
    requires IsStruct(reg, i) && Shut(reg, g, t, out, i)
    requires t.handles ==> forall j, k | 0 <= j < |reg| && 0 <= k < |Holding(reg[j])| && IsHandle(Holding(reg[j])[k]) ::
                             j in t.types
    ensures forall k | 0 <= k < |reg[i].fields| :: ShutField(reg, g, t, out, reg[i].fields[k])
    ensures forall d | d in reg[i].chain && g.screened(i, d) && (out || g.admitted(i, d)) :: Shut(reg, g, t, out, d)
  {
    var graph := if out then HeldGraph(reg, g.screened) else ViewGraph(reg, g);
    ReachesSelf(graph, i);
    forall d | d in Succ(graph, i) ensures Shut(reg, g, t, out, d) { ShutStep(reg, g, t, out, i, d); }
    forall k | 0 <= k < |reg[i].fields| ensures ShutField(reg, g, t, out, reg[i].fields[k]) {
      var f := reg[i].fields[k];
      if out {
        ShutHeld(reg, g, t, i, k);
      } else {
        assert i !in Hiding(reg, g, t);
        forall d | d in ViewField(f) ensures Shut(reg, g, t, false, d) { assert d in ViewFields(reg[i].fields); }
        ShutMeans(reg, g, t, f);
      }
    }
  }

  predicate IsHandle(f: Field) {
    ElemOf(f.shape).Some? && ElemOf(f.shape).value.Handle?
  }

  /** A member of a type with no target below it can hold none, out of view. */
  lemma ShutHeld(reg: Registry, g: Guard, t: Target, i: nat, k: nat)
    requires i < |reg| && Shut(reg, g, t, true, i) && k < |Holding(reg[i])|
    requires t.handles && IsHandle(Holding(reg[i])[k]) ==> i in t.types
    ensures ShutField(reg, g, t, true, Holding(reg[i])[k])
  {
    var graph, f := HeldGraph(reg, g.screened), Holding(reg[i])[k];
    ReachesSelf(graph, i);
    var e := ElemOf(f.shape);
    if e.Some? && (e.value.Struct? || e.value.Union?) {
      assert e.value.ty in FieldDeps(f);
      ShutStep(reg, g, t, true, i, e.value.ty);
    }
  }

  // ---- values built for a purpose ----------------------------------------------------------------

  /** The value of a field that holds the one element `x`. */
  function Wrap(s: Shape, x: Value): Value {
    match s
    case Ptr(_) => Ref(x)
    case Static(_, _) => Arr([x])
    case Dyn(_, _) => Arr([x])
    case Nested(_, _, _) => Arr([Arr([x])])
    case _ => x
  }

  /** A record with one field set. */
  function Single(n: nat, k: nat, x: Value): (vals: seq<Value>)
    requires k < n
    ensures |vals| == n
  {
    seq(n, j => if j == k then x else Null)
  }

  function ElemFor(reg: Registry, i: nat): Elem {
    if i < |reg| && reg[i].UnionDef? then Union(i) else Struct(i)
  }

  /** A value of type `i` whose field `k` alone is set, to `x`. */
  function Holder(reg: Registry, i: nat, k: nat, x: Value): Value
    requires i < |reg| && k < |Holding(reg[i])|
  {
    var f := Holding(reg[i])[k];
    if reg[i].UnionDef? then Variant(k, Wrap(f.shape, x)) else Rec([], Single(|reg[i].fields|, k, Wrap(f.shape, x)))
  }

  /** A structure with these links and nothing else. */
  function Bare(reg: Registry, i: nat, links: seq<Link>): Value
    requires IsStruct(reg, i)
  {
    Rec(links, seq(|reg[i].fields|, _ => Null))
  }

  /** What a type holds is the element of a field, or a link that passes. */
  lemma DepKinds(reg: Registry, test: LinkTest, i: nat, d: nat) returns (k: Option<nat>)
    requires RegistryOk(reg) && d in Succ(HeldGraph(reg, test), i)
    ensures i < |reg|
    ensures if k.Some?
            then k.value < |Holding(reg[i])| && ElemOf(Holding(reg[i])[k.value].shape) == Some(ElemFor(reg, d))
            else IsStruct(reg, i) && d in reg[i].chain && test(i, d) && IsStruct(reg, d)
  {
    assert TypeOk(reg, i);
    var fs := Holding(reg[i]);
    if j :| 0 <= j < |fs| && d in FieldDeps(fs[j]) {
      k := Some(j);
      if reg[i].StructDef? {
        assert ShapeOk(reg, i, fs, fs[j].shape);
      } else {
        assert MemberOk(reg, i, reg[i].cases[j].member) && fs[j] == reg[i].cases[j].member;
      }
    } else {
      k := None;
    }
  }

  /** What the walk goes on to is the structure in a field, or a link it lets through. */
  lemma ViewKinds(reg: Registry, g: Guard, i: nat, d: nat) returns (k: Option<nat>)
    requires d in Succ(ViewGraph(reg, g), i)
    ensures IsStruct(reg, i)
    ensures if k.Some? then k.value < |reg[i].fields| && d in ViewField(reg[i].fields[k.value])
            else d in reg[i].chain && g.screened(i, d) && g.admitted(i, d)
  {
    if j :| 0 <= j < |reg[i].fields| && d in ViewField(reg[i].fields[j]) {
      k := Some(j);
    } else {
      k := None;
    }
  }

  /** The element of an accepted field is of the kind its type is. */
  lemma ElemKinds(reg: Registry, below: nat, fs: seq<Field>, k: nat)
    requires FieldsOk(reg, below, fs) && below <= |reg| && k < |fs| && ElemOf(fs[k].shape).Some?
    ensures var e := ElemOf(fs[k].shape).value; e.Struct? || e.Union? ==> e.ty < |reg| && e == ElemFor(reg, e.ty)
  {
    assert ShapeOk(reg, below, fs, fs[k].shape);
  }

  // ---- their links ----------------------------------------------------------------------------------

  lemma WrapWalk(reg: Registry, deep: bool, f: Field, x: Value)
    requires ElemOf(f.shape).Some?
    ensures WalkField(reg, All, deep, f, Wrap(f.shape, x)) ==
            if f.shape.Nested? && !deep then [] else WalkElem(reg, All, deep, ElemOf(f.shape).value, x)
  {
    var e := ElemOf(f.shape).value;
    assert [x][1..] == [];
    assert WalkElems(reg, All, deep, e, []) == [];
    assert WalkElems(reg, All, deep, e, [x]) == WalkElem(reg, All, deep, e, x) + [];
    if f.shape.Nested? && deep {
      assert [Arr([x])][1..] == [];
      assert WalkRows(reg, All, deep, e, []) == [];
      assert WalkRows(reg, All, deep, e, [Arr([x])]) == WalkElems(reg, All, deep, e, [x]) + [];
    }
  }

  lemma NullWalk(reg: Registry, deep: bool, f: Field)
    ensures WalkField(reg, All, deep, f, Null) == []
  {
  }

  lemma {:induction false} SingleWalk(reg: Registry, deep: bool, fs: seq<Field>, k: nat, x: Value, j: nat)
    requires k < |fs| && j <= |fs|
    ensures WalkFields(reg, All, deep, fs, Single(|fs|, k, x), j) ==
            if j <= k then WalkField(reg, All, deep, fs[k], x) else []
    decreases |fs| - j
  {
    assert j < |fs| ==> Single(|fs|, k, x)[j] == if j == k then x else Null;
    hide WalkField, Single;
    if j < |fs| {
      SingleWalk(reg, deep, fs, k, x, j + 1);
      if j != k {
        NullWalk(reg, deep, fs[j]);
      }
    }
  }

  lemma {:induction false} EmptyWalk(reg: Registry, deep: bool, fs: seq<Field>, vals: seq<Value>, j: nat)
    requires j <= |fs| == |vals| && forall k | 0 <= k < |vals| :: vals[k] == Null
    ensures WalkFields(reg, All, deep, fs, vals, j) == []
    decreases |fs| - j
  {
    hide WalkField;
    if j < |fs| {
      NullWalk(reg, deep, fs[j]);
      EmptyWalk(reg, deep, fs, vals, j + 1);
    }
  }

  lemma WalkOfStruct(reg: Registry, deep: bool, i: nat, v: Value)
    ensures WalkElem(reg, All, deep, Struct(i), v) == WalkStruct(reg, All, deep, i, v)
  {
  }

  lemma HolderWalk(reg: Registry, deep: bool, i: nat, k: nat, x: Value)
    requires i < |reg| && k < |Holding(reg[i])| && ElemOf(Holding(reg[i])[k].shape).Some?
    requires deep || reg[i].StructDef?
    ensures var f := Holding(reg[i])[k];
            WalkElem(reg, All, deep, ElemFor(reg, i), Holder(reg, i, k, x)) ==
            if f.shape.Nested? && !deep then [] else WalkElem(reg, All, deep, ElemOf(f.shape).value, x)
  {
    var f, v := Holding(reg[i])[k], Holder(reg, i, k, x);
    WrapWalk(reg, deep, f, x);
    if reg[i].UnionDef? {
      assert WalkElem(reg, All, true, Union(i), v) == WalkUnion(reg, All, true, i, v);
      assert WalkUnion(reg, All, true, i, v) == WalkField(reg, All, true, f, Wrap(f.shape, x));
    } else {
      SingleWalk(reg, deep, reg[i].fields, k, Wrap(f.shape, x), 0);
      assert WalkLinks(reg, All, deep, i, []) == [];
      assert WalkElem(reg, All, deep, Struct(i), v) == WalkStruct(reg, All, deep, i, v);
      assert Shaped(reg, i, v);
      assert WalkStruct(reg, All, deep, i, v) == [] + WalkField(reg, All, deep, f, Wrap(f.shape, x));
    }
  }

  lemma BareWalk(reg: Registry, deep: bool, i: nat, l: Link)
    requires IsStruct(reg, i) && l.ty in reg[i].chain
    ensures WalkStruct(reg, All, deep, i, Bare(reg, i, [l])) ==
              [(i, l.ty)] + WalkStruct(reg, All, deep, l.ty, l.body)
  {
    var v := Bare(reg, i, [l]);
    assert [l][1..] == [];
    assert WalkLinks(reg, All, deep, i, []) == [];
    assert WalkLink(reg, All, deep, l) == WalkStruct(reg, All, deep, l.ty, l.body);
    assert WalkLinks(reg, All, deep, i, [l]) == [(i, l.ty)] + WalkLink(reg, All, deep, l) + [];
    EmptyWalk(reg, deep, reg[i].fields, v.fields, 0);
    assert Shaped(reg, i, v);
    assert WalkStruct(reg, All, deep, i, v) == WalkLinks(reg, All, deep, i, [l]) + [];
  }

  lemma BlankWalk(reg: Registry, deep: bool, i: nat)
    requires IsStruct(reg, i)
    ensures WalkStruct(reg, All, deep, i, Bare(reg, i, [])) == []
  {
    var v := Bare(reg, i, []);
    assert WalkLinks(reg, All, deep, i, []) == [];
    EmptyWalk(reg, deep, reg[i].fields, v.fields, 0);
    assert Shaped(reg, i, v);
  }

  /** The links of one field among those of a record. */
  lemma {:induction false} FieldOfWalk(reg: Registry, test: LinkTest, deep: bool, fs: seq<Field>, vals: seq<Value>,
                                       j: nat, k: nat)
    requires j <= k < |fs| == |vals| && AllOf(test, WalkFields(reg, All, deep, fs, vals, j))
    ensures AllOf(test, WalkField(reg, All, deep, fs[k], vals[k]))
    decreases k - j
  {
    hide WalkField;
    if j < k {
      FieldOfWalk(reg, test, deep, fs, vals, j + 1, k);
    }
  }

  lemma RecordGuarded(reg: Registry, g: Guard, out: bool, fs: seq<Field>, vals: seq<Value>)
    requires |fs| == |vals| && AllOf(g.screened, WalkFields(reg, All, true, fs, vals, 0))
    requires out || AllOf(g.admitted, WalkFields(reg, All, false, fs, vals, 0))
    ensures forall k | 0 <= k < |fs| :: Guarded(reg, g, out, fs[k], vals[k])
  {
    hide WalkField, WalkFields;
    forall k | 0 <= k < |fs| ensures Guarded(reg, g, out, fs[k], vals[k]) {
      FieldOfWalk(reg, g.screened, true, fs, vals, 0, k);
      if !out {
        FieldOfWalk(reg, g.admitted, false, fs, vals, 0, k);
      }
    }
  }

  // ---- a lawful value has only admitted links in view -----------------------------------------------

  lemma {:induction false} AdmitsStruct(reg: Registry, r: Rules, i: nat, v: Value)
    requires LawfulStruct(reg, r, i, v)
    ensures AllOf(r.admits, WalkStruct(reg, All, false, i, v))
    decreases v, 0
  {
    AdmitsLinks(reg, r, i, v.links);
    AdmitsFields(reg, r, i, reg[i].fields, v.fields, 0);
  }

  lemma {:induction false} AdmitsLinks(reg: Registry, r: Rules, parent: nat, links: seq<Link>)
    requires LawfulLinks(reg, r, parent, links)
    ensures AllOf(r.admits, WalkLinks(reg, All, false, parent, links))
    decreases links, |links|
  {
    if links != [] {
      AdmitsLink(reg, r, links[0]);
      AdmitsLinks(reg, r, parent, links[1..]);
    }
  }

  lemma {:induction false} AdmitsLink(reg: Registry, r: Rules, l: Link)
    requires LawfulLink(reg, r, l)
    ensures AllOf(r.admits, WalkLink(reg, All, false, l))
    decreases l
  {
    AdmitsStruct(reg, r, l.ty, l.body);
  }

  lemma {:induction false} AdmitsFields(reg: Registry, r: Rules, owner: nat, fs: seq<Field>, vals: seq<Value>, k: nat)
    requires k <= |fs| == |vals| && LawfulFields(reg, r, owner, {}, fs, vals, k)
    ensures AllOf(r.admits, WalkFields(reg, All, false, fs, vals, k))
    decreases vals, |vals| - k
  {
    if k < |fs| {
      AdmitsField(reg, r, SiteOf(r, owner, k, fs[k]), fs[k], Wanted(fs[k], vals), vals[k]);
      AdmitsFields(reg, r, owner, fs, vals, k + 1);
    }
  }

  lemma {:induction false} AdmitsField(reg: Registry, r: Rules, at: Site, f: Field, n: nat, v: Value)
    requires LawfulField(reg, r, at, f, n, v)
    ensures AllOf(r.admits, WalkField(reg, All, false, f, v))
    decreases v, 2
  {
    match f.shape
    case Plain(e) => AdmitsElem(reg, r, at, e, v);
    case Ptr(e) => if v.Ref? { AdmitsElem(reg, r, at, e, v.target); }
    case Static(e, _) => if v.Arr? { AdmitsElems(reg, r, at, e, v.elems); }
    case Dyn(e, _) => if v.Arr? { AdmitsElems(reg, r, at, e, v.elems); }
    case _ =>
  }

  lemma {:induction false} AdmitsElem(reg: Registry, r: Rules, at: Site, e: Elem, v: Value)
    requires Lawful(reg, r, at, e, v)
    ensures AllOf(r.admits, WalkElem(reg, All, false, e, v))
    decreases v, 1
  {
    if e.Struct? {
      AdmitsStruct(reg, r, e.ty, v);
    }
  }

  lemma {:induction false} AdmitsElems(reg: Registry, r: Rules, at: Site, e: Elem, vs: seq<Value>)
    requires LawfulElems(reg, r, at, e, vs)
    ensures AllOf(r.admits, WalkElems(reg, All, false, e, vs))
    decreases vs, |vs|
  {
    if vs != [] {
      AdmitsElem(reg, r, at, e, vs[0]);
      AdmitsElems(reg, r, at, e, vs[1..]);
    }
  }

  /** So has each lawful input of a command. */
  lemma {:induction false} AdmitsInput(reg: Registry, r: Rules, owner: nat, skip: set<nat>, fs: seq<Field>,
                                       vals: seq<Value>, j: nat, k: nat)
    requires j <= k < |fs| == |vals| && k !in skip && LawfulFields(reg, r, owner, skip, fs, vals, j)
    ensures AllOf(r.admits, WalkField(reg, All, false, fs[k], vals[k]))
    decreases k - j
  {
    if j < k {
      AdmitsInput(reg, r, owner, skip, fs, vals, j + 1, k);
    } else {
      AdmitsField(reg, r, SiteOf(r, owner, k, fs[k]), fs[k], Wanted(fs[k], vals), vals[k]);
    }
  }

  // ---- handles aside, links are links ----------------------------------------------------------------

  lemma {:induction false} ErasedWalkElem(reg: Registry, deep: bool, e: Elem, v: Value)
    ensures WalkElem(reg, All, deep, e, Erased(reg, e, v)) == WalkElem(reg, All, deep, e, v)
    decreases v, 1
  {
    if e.Struct? {
      ErasedWalkStruct(reg, deep, e.ty, v);
    }
  }

  lemma {:induction false} ErasedWalkStruct(reg: Registry, deep: bool, i: nat, v: Value)
    ensures WalkStruct(reg, All, deep, i, ErasedStruct(reg, i, v)) == WalkStruct(reg, All, deep, i, v)
    decreases v, 0
  {
    if Shaped(reg, i, v) {
      ErasedWalkLinks(reg, deep, i, v.links);
      ErasedWalkFields(reg, deep, reg[i].fields, v.fields, ErasedFields(reg, reg[i].fields, v.fields, 0), 0);
      assert Shaped(reg, i, ErasedStruct(reg, i, v));
    }
  }

  lemma {:induction false} ErasedWalkLinks(reg: Registry, deep: bool, parent: nat, links: seq<Link>)
    ensures var erased := ErasedLinks(reg, links);
            && WalkLinks(reg, All, deep, parent, erased) == WalkLinks(reg, All, deep, parent, links)
            && forall l | l in erased :: exists m | m in links :: m.ty == l.ty
    decreases links, |links|
  {
    if links != [] {
      ErasedWalkLink(reg, deep, links[0]);
      ErasedWalkLinks(reg, deep, parent, links[1..]);
      assert ErasedLinks(reg, links)[1..] == ErasedLinks(reg, links[1..]);
      assert links[0] in links;
    }
  }

  lemma {:induction false} ErasedWalkLink(reg: Registry, deep: bool, l: Link)
    ensures WalkLink(reg, All, deep, ErasedLink(reg, l)) == WalkLink(reg, All, deep, l)
    decreases l
  {
    ErasedWalkStruct(reg, deep, l.ty, l.body);
  }

  lemma {:induction false} ErasedWalkFields(reg: Registry, deep: bool, fs: seq<Field>, vals: seq<Value>,
                                            erased: seq<Value>, k: nat)
    requires k <= |fs| == |vals| == |erased|
    requires forall j | 0 <= j < |fs| :: erased[j] == ErasedField(reg, fs[j], vals[j])
    ensures WalkFields(reg, All, deep, fs, erased, k) == WalkFields(reg, All, deep, fs, vals, k)
    decreases vals, |vals| - k
  {
    hide WalkField, ErasedField;
    if k < |fs| {
      ErasedWalkField(reg, deep, fs[k], vals[k]);
      ErasedWalkFields(reg, deep, fs, vals, erased, k + 1);
    }
  }

  lemma {:induction false} ErasedWalkField(reg: Registry, deep: bool, f: Field, v: Value)
    ensures WalkField(reg, All, deep, f, ErasedField(reg, f, v)) == WalkField(reg, All, deep, f, v)
    decreases v, 2
  {
    match f.shape
    case Plain(e) => ErasedWalkElem(reg, deep, e, v);
    case Ptr(e) => if v.Ref? { ErasedWalkElem(reg, deep, e, v.target); }
    case Static(e, _) => if v.Arr? { ErasedWalkElems(reg, deep, e, v.elems); }
    case Dyn(e, _) => if v.Arr? { ErasedWalkElems(reg, deep, e, v.elems); }
    case _ =>
  }

  lemma {:induction false} ErasedWalkElems(reg: Registry, deep: bool, e: Elem, vs: seq<Value>)
    ensures WalkElems(reg, All, deep, e, ErasedElems(reg, e, vs)) == WalkElems(reg, All, deep, e, vs)
    decreases vs, |vs|
  {
    if vs != [] {
      ErasedWalkElem(reg, deep, e, vs[0]);
      ErasedWalkElems(reg, deep, e, vs[1..]);
      assert ErasedElems(reg, e, vs)[1..] == ErasedElems(reg, e, vs[1..]);
    }
  }

  /** A translation keeps every link in its place. */
  lemma SameLinks(reg: Registry, deep: bool, f: Field, v: Value, w: Value)
    requires ErasedField(reg, f, v) == ErasedField(reg, f, w)
    ensures WalkField(reg, All, deep, f, v) == WalkField(reg, All, deep, f, w)
  {
    ErasedWalkField(reg, deep, f, v);
    ErasedWalkField(reg, deep, f, w);
  }
}
