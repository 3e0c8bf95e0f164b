/**
  Which schemas keep links from the translation walk. It checks a link only where it looks: a value it
  accepts has no other link than those it would let through exactly when no union and no two-level array
  it comes by can hold one it would refuse.
 */
module LinkView {
  import opened Options
  import opened Schema
  import opened Codec
  import opened Graphs
  import opened Passes
  import opened Views

  /** The structures on which a link can come this far that the walk would not let through. */
  function Straying(reg: Registry, g: Guard): set<nat> {
    set i: nat | i < |reg| && reg[i].StructDef? && exists d | d in reg[i].chain ::
      g.screened(i, d) && !g.admitted(i, d)
  }

  function Strays(reg: Registry, g: Guard): Target {
    Target(Straying(reg, g), false)
  }

  /** A field in which the walk comes by every link it would refuse. */
  ghost predicate TightField(reg: Registry, g: Guard, f: Field) {
    ShutField(reg, g, Strays(reg, g), false, f)
  }

  // ---- where none can be hidden, every link passes ----------------------------------------------------

  /** Links that come this far, all let through in view, are all let through. */
  predicate Passing(g: Guard, out: bool, all: seq<Visit>, view: seq<Visit>) {
    AllOf(g.screened, all) && (out || AllOf(g.admitted, view))
  }

  lemma {:induction false} TightElem(reg: Registry, g: Guard, out: bool, e: Elem, v: Value)
    requires ShutElem(reg, g, Strays(reg, g), out, e)
    requires Passing(g, out, WalkElem(reg, All, true, e, v), WalkElem(reg, All, false, e, v))
    ensures AllOf(g.admitted, WalkElem(reg, All, true, e, v))
    decreases v, 1
  {
    if e.Struct? {
      TightStruct(reg, g, out, e.ty, v);
    } else if e.Union? {
      TightUnion(reg, g, e.ty, v);
    }
  }

  lemma {:induction false} TightStruct(reg: Registry, g: Guard, out: bool, i: nat, v: Value)
    requires Shut(reg, g, Strays(reg, g), out, i)
    requires Passing(g, out, WalkStruct(reg, All, true, i, v), WalkStruct(reg, All, false, i, v))
    ensures AllOf(g.admitted, WalkStruct(reg, All, true, i, v))
    decreases v, 0
  {
    hide Shut, ShutField, Straying;
    if Shaped(reg, i, v) {
      StraysBelow(reg, g, out, i);
      TightLinks(reg, g, out, i, v.links);
      RecordGuarded(reg, g, out, reg[i].fields, v.fields);
      TightFields(reg, g, out, reg[i].fields, v.fields, 0);
    }
  }

  lemma StraysBelow(reg: Registry, g: Guard, out: bool, i: nat)
    requires IsStruct(reg, i) && Shut(reg, g, Strays(reg, g), out, i)
    ensures forall k | 0 <= k < |reg[i].fields| :: ShutField(reg, g, Strays(reg, g), out, reg[i].fields[k])
    ensures forall d | d in reg[i].chain && g.screened(i, d) && (out || g.admitted(i, d)) ::
              g.admitted(i, d) && Shut(reg, g, Strays(reg, g), out, d)
  {
    ShutBelow(reg, g, Strays(reg, g), out, i);
    if out {
      ReachesSelf(HeldGraph(reg, g.screened), i);
      assert i !in Straying(reg, g);
    }
  }

  lemma {:induction false} TightUnion(reg: Registry, g: Guard, u: nat, v: Value)
    requires Shut(reg, g, Strays(reg, g), true, u) && AllOf(g.screened, WalkUnion(reg, All, true, u, v))
    ensures AllOf(g.admitted, WalkUnion(reg, All, true, u, v))
    decreases v, 0
  {
    if u < |reg| && reg[u].UnionDef? && v.Variant? && v.case_ < |reg[u].cases| {
      var f := reg[u].cases[v.case_].member;
      assert Holding(reg[u])[v.case_] == f;
      ShutHeld(reg, g, Strays(reg, g), u, v.case_);
      TightIn(reg, g, true, f, v.member);
    }
  }

  lemma {:induction false} TightLinks(reg: Registry, g: Guard, out: bool, parent: nat, links: seq<Link>)
    requires Passing(g, out, WalkLinks(reg, All, true, parent, links), WalkLinks(reg, All, false, parent, links))
    requires forall l | l in links && g.screened(parent, l.ty) && (out || g.admitted(parent, l.ty)) ::
               g.admitted(parent, l.ty) && Shut(reg, g, Strays(reg, g), out, l.ty)
    ensures AllOf(g.admitted, WalkLinks(reg, All, true, parent, links))
    decreases links, |links|
  {
    hide Shut;
    if links != [] {
      assert links[0] in links;
      assert (parent, links[0].ty) in WalkLinks(reg, All, true, parent, links);
      assert (parent, links[0].ty) in WalkLinks(reg, All, false, parent, links);
      TightLink(reg, g, out, links[0]);
      TightLinks(reg, g, out, parent, links[1..]);
    }
  }

  lemma {:induction false} TightLink(reg: Registry, g: Guard, out: bool, l: Link)
    requires Shut(reg, g, Strays(reg, g), out, l.ty)
    requires Passing(g, out, WalkLink(reg, All, true, l), WalkLink(reg, All, false, l))
    ensures AllOf(g.admitted, WalkLink(reg, All, true, l))
    decreases l
  {
    TightStruct(reg, g, out, l.ty, l.body);
  }

  lemma {:induction false} TightFields(reg: Registry, g: Guard, out: bool, fs: seq<Field>, vals: seq<Value>, k: nat)
    requires k <= |fs| == |vals|
    requires forall j | 0 <= j < |fs| ::
               ShutField(reg, g, Strays(reg, g), out, fs[j]) && Guarded(reg, g, out, fs[j], vals[j])
    ensures AllOf(g.admitted, WalkFields(reg, All, true, fs, vals, k))
    decreases vals, |vals| - k
  {
    hide ShutField, Guarded, WalkField;
    if k < |fs| {
      TightIn(reg, g, out, fs[k], vals[k]);
      TightFields(reg, g, out, fs, vals, k + 1);
    }
  }

  lemma {:induction false} TightIn(reg: Registry, g: Guard, out: bool, f: Field, v: Value)
    requires ShutField(reg, g, Strays(reg, g), out, f) && Guarded(reg, g, out, f, v)
    ensures AllOf(g.admitted, WalkField(reg, All, true, f, v))
    decreases v, 2
  {
    hide Shut;
    match f.shape
    case Plain(e) => TightElem(reg, g, out, e, v);
    case Ptr(e) => if v.Ref? { TightElem(reg, g, out, e, v.target); }
    case Static(e, _) => if v.Arr? { TightElems(reg, g, out, e, v.elems); }
    case Dyn(e, _) => if v.Arr? { TightElems(reg, g, out, e, v.elems); }
    case Nested(e, _, _) => if v.Arr? { TightRows(reg, g, e, v.elems); }
    case Selected(u, _) => TightElem(reg, g, out, Union(u), v);
    case _ =>
  }

  lemma {:induction false} TightElems(reg: Registry, g: Guard, out: bool, e: Elem, vs: seq<Value>)
    requires ShutElem(reg, g, Strays(reg, g), out, e)
    requires Passing(g, out, WalkElems(reg, All, true, e, vs), WalkElems(reg, All, false, e, vs))
    ensures AllOf(g.admitted, WalkElems(reg, All, true, e, vs))
    decreases vs, |vs|
  {
    hide ShutElem;
    if vs != [] {
      TightElem(reg, g, out, e, vs[0]);
      TightElems(reg, g, out, e, vs[1..]);
    }
  }

  lemma {:induction false} TightRows(reg: Registry, g: Guard, e: Elem, rows: seq<Value>)
    requires ShutElem(reg, g, Strays(reg, g), true, e) && AllOf(g.screened, WalkRows(reg, All, true, e, rows))
    ensures AllOf(g.admitted, WalkRows(reg, All, true, e, rows))
    decreases rows, |rows|
  {
    hide ShutElem;
    if rows != [] {
      if rows[0].Arr? {
        TightElems(reg, g, true, e, rows[0].elems);
      }
      TightRows(reg, g, e, rows[1..]);
    }
  }

  // ---- and otherwise one slips through ------------------------------------------------------------

  /** A value that comes as far as the walk, with a link it would refuse. */
  ghost predicate HasStray(reg: Registry, g: Guard, e: Elem, v: Value) {
    && AllOf(g.screened, WalkElem(reg, All, true, e, v))
    && !AllOf(g.admitted, WalkElem(reg, All, true, e, v))
  }

  /** Along every path to a structure such a link can hang on there is a value with one. */
  lemma {:induction false} StrayWitness(reg: Registry, g: Guard, p: seq<nat>, k: nat) returns (v: Value)
    requires RegistryOk(reg) && Path(HeldGraph(reg, g.screened), p) && k < |p| && p[|p| - 1] in Straying(reg, g)
    ensures HasStray(reg, g, ElemFor(reg, p[k]), v)
    decreases |p| - k
  {
    hide WalkElem, WalkStruct, HeldGraph, Holder, Bare;
    var i := p[k];
    if k == |p| - 1 {
      var d :| d in reg[i].chain && g.screened(i, d) && !g.admitted(i, d);
      assert TypeOk(reg, i);
      v := StrayLink(reg, g, i, d);
    } else {
      assert p[k + 1] in Succ(HeldGraph(reg, g.screened), i);
      var x := StrayWitness(reg, g, p, k + 1);
      v := StrayStep(reg, g, i, p[k + 1], x);
    }
  }

  /** A refused structure with nothing in it, on its chain. */
  lemma StrayLink(reg: Registry, g: Guard, i: nat, d: nat) returns (v: Value)
    requires IsStruct(reg, i) && d in reg[i].chain && IsStruct(reg, d) && g.screened(i, d) && !g.admitted(i, d)
    ensures HasStray(reg, g, Struct(i), v)
  {
    hide WalkElem, WalkStruct, Bare;
    var l := Link(d, Bare(reg, d, []));
    v := Bare(reg, i, [l]);
    BareWalk(reg, true, i, l);
    BlankWalk(reg, true, d);
    WalkOfStruct(reg, true, i, v);
    assert WalkElem(reg, All, true, Struct(i), v) == [(i, d)] + [];
    assert (i, d) in WalkElem(reg, All, true, Struct(i), v);
  }

  lemma StrayStep(reg: Registry, g: Guard, i: nat, d: nat, x: Value) returns (v: Value)
    requires RegistryOk(reg) && d in Succ(HeldGraph(reg, g.screened), i) && HasStray(reg, g, ElemFor(reg, d), x)
    ensures HasStray(reg, g, ElemFor(reg, i), v)
  {
    hide WalkElem, WalkStruct, RegistryOk, Holder, Bare, HeldGraph;
    var field := DepKinds(reg, g.screened, i, d);
    if field.Some? {
      v := Holder(reg, i, field.value, x);
      HolderWalk(reg, true, i, field.value, x);
    } else {
      v := Bare(reg, i, [Link(d, x)]);
      BareWalk(reg, true, i, Link(d, x));
      WalkOfStruct(reg, true, i, v);
      WalkOfStruct(reg, true, d, x);
      assert WalkElem(reg, All, true, Struct(i), v) == [(i, d)] + WalkElem(reg, All, true, Struct(d), x);
    }
  }

  /** What can hide such a link does so in some value. */
  lemma StrayIn(reg: Registry, g: Guard, below: nat, fs: seq<Field>, k: nat) returns (x: Value)
    requires RegistryOk(reg) && below <= |reg| && FieldsOk(reg, below, fs) && k < |fs|
    requires Hides(reg, g, Strays(reg, g), fs[k])
    ensures HasStray(reg, g, ElemOf(fs[k].shape).value, x)
  {
    hide RegistryOk, FieldsOk, HeldGraph, Straying;
    var e, graph := ElemOf(fs[k].shape).value, HeldGraph(reg, g.screened);
    ElemKinds(reg, below, fs, k);
    var s :| s in Straying(reg, g) && Reaches(graph, e.ty, s);
    var p :| Path(graph, p) && p[0] == e.ty && p[|p| - 1] == s;
    x := StrayWitness(reg, g, p, 0);
  }

  /** A structure whose links in view are all let through, and not all its links. */
  ghost predicate Leaks(reg: Registry, g: Guard, i: nat, v: Value) {
    && AllOf(g.screened, WalkStruct(reg, All, true, i, v)) && AllOf(g.admitted, WalkStruct(reg, All, false, i, v))
    && !AllOf(g.admitted, WalkStruct(reg, All, true, i, v))
  }

  /** Along every path to a structure that hides one there is a value the walk lets it through in. */
  lemma {:induction false} LeakWitness(reg: Registry, g: Guard, p: seq<nat>, k: nat) returns (v: Value)
    requires RegistryOk(reg) && Path(ViewGraph(reg, g), p) && k < |p| && p[|p| - 1] in Hiding(reg, g, Strays(reg, g))
    ensures IsStruct(reg, p[k]) && Leaks(reg, g, p[k], v)
    decreases |p| - k
  {
    hide Leaks, Hides, ViewGraph;
    var i := p[k];
    if k == |p| - 1 {
      assert TypeOk(reg, i);
      var j: nat :| j < |reg[i].fields| && Hides(reg, g, Strays(reg, g), reg[i].fields[j]);
      v := LeakHolder(reg, g, i, j);
    } else {
      assert p[k + 1] in Succ(ViewGraph(reg, g), i);
      var x := LeakWitness(reg, g, p, k + 1);
      v := LeakStep(reg, g, i, p[k + 1], x);
    }
  }

  lemma LeakHolder(reg: Registry, g: Guard, i: nat, j: nat) returns (v: Value)
    requires RegistryOk(reg) && IsStruct(reg, i) && FieldsOk(reg, i, reg[i].fields) && j < |reg[i].fields|
    requires Hides(reg, g, Strays(reg, g), reg[i].fields[j])
    ensures Leaks(reg, g, i, v)
  {
    hide RegistryOk, FieldsOk, Holder, WalkStruct, HeldGraph;
    var e := ElemOf(reg[i].fields[j].shape).value;
    var x := StrayIn(reg, g, i, reg[i].fields, j);
    v := Holder(reg, i, j, x);
    HolderWalk(reg, true, i, j, x);
    HolderWalk(reg, false, i, j, x);
    WalkOfStruct(reg, true, i, v);
    WalkOfStruct(reg, false, i, v);
    assert e.Union? ==> WalkElem(reg, All, false, e, x) == [];
  }

  lemma LeakStep(reg: Registry, g: Guard, i: nat, d: nat, x: Value) returns (v: Value)
    requires d in Succ(ViewGraph(reg, g), i) && Leaks(reg, g, d, x)
    ensures IsStruct(reg, i) && Leaks(reg, g, i, v)
  {
    hide WalkElem, WalkStruct, Holder, Bare, ViewGraph;
    var field := ViewKinds(reg, g, i, d);
    if field.Some? {
      v := Holder(reg, i, field.value, x);
      HolderWalk(reg, true, i, field.value, x);
      HolderWalk(reg, false, i, field.value, x);
      WalkOfStruct(reg, true, d, x);
      WalkOfStruct(reg, false, d, x);
      WalkOfStruct(reg, true, i, v);
      WalkOfStruct(reg, false, i, v);
    } else {
      v := Bare(reg, i, [Link(d, x)]);
      BareWalk(reg, true, i, Link(d, x));
      BareWalk(reg, false, i, Link(d, x));
    }
  }

  lemma LeakIn(reg: Registry, g: Guard, fs: seq<Field>, k: nat) returns (v: Value)
    requires RegistryOk(reg) && FieldsOk(reg, |reg|, fs) && k < |fs| && !TightField(reg, g, fs[k])
    ensures Guarded(reg, g, false, fs[k], v) && !AllOf(g.admitted, WalkField(reg, All, true, fs[k], v))
  {
    hide RegistryOk, FieldsOk, Wrap, WalkField, ViewGraph, HeldGraph, Hiding, WalkStruct, Straying;
    var f := fs[k];
    var x: Value;
    ShutMeans(reg, g, Strays(reg, g), f);
    if Hides(reg, g, Strays(reg, g), f) {
      x := StrayIn(reg, g, |reg|, fs, k);
    } else {
      var d :| d in ViewField(f) && !Shut(reg, g, Strays(reg, g), false, d);
      var s :| s in Hiding(reg, g, Strays(reg, g)) && Reaches(ViewGraph(reg, g), d, s);
      var p :| Path(ViewGraph(reg, g), p) && p[0] == d && p[|p| - 1] == s;
      x := LeakWitness(reg, g, p, 0);
      WalkOfStruct(reg, true, d, x);
      WalkOfStruct(reg, false, d, x);
    }
    v := Wrap(f.shape, x);
    WrapWalk(reg, true, f, x);
    WrapWalk(reg, false, f, x);
  }

  /** Over all value trees: what has its links in view let through has all of them let through, if and only
      if the field is tight. */
  lemma TightExactly(reg: Registry, g: Guard, fs: seq<Field>, k: nat)
    requires RegistryOk(reg) && FieldsOk(reg, |reg|, fs) && k < |fs|
    ensures TightField(reg, g, fs[k]) <==>
            forall v | Guarded(reg, g, false, fs[k], v) :: AllOf(g.admitted, WalkField(reg, All, true, fs[k], v))
  {
    hide RegistryOk, FieldsOk, Guarded, WalkField, ShutField, AllOf;
    if TightField(reg, g, fs[k]) {
      forall v | Guarded(reg, g, false, fs[k], v) ensures AllOf(g.admitted, WalkField(reg, All, true, fs[k], v)) {
        TightIn(reg, g, false, fs[k], v);
      }
    } else {
      var v := LeakIn(reg, g, fs, k);
    }
  }
}
