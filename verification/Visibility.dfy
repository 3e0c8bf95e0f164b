/**
  Which schemas keep handles from the translation walk. The walk passes over unions and two-level
  arrays; it asks for every handle of every value it accepts exactly when no such place it comes by can
  hold one.
 */
module Visibility {
  import opened Options
  import opened Schema
  import opened Codec
  import opened Graphs
  import opened Passes
  import opened Translate
  import opened Views

  /** The types with a handle of their own. */
  function Handling(reg: Registry): set<nat> {
    set i: nat | i < |reg| && exists k | 0 <= k < |Holding(reg[i])| :: IsHandle(Holding(reg[i])[k])
  }

  function Handles(reg: Registry): Target {
    Target(Handling(reg), true)
  }

  /** A field the walk sees all of: no union and no two-level array it comes by can hold a handle. */
  ghost predicate ClearField(reg: Registry, g: Guard, f: Field) {
    ShutField(reg, g, Handles(reg), false, f)
  }

  // ---- where nothing is hidden, every handle is in view ---------------------------------------------

  /** The handles there are, against those in view: out of view there is to be none. */
  predicate Seen(out: bool, all: seq<Call>, view: seq<Call>) {
    all == if out then [] else view
  }

  lemma {:induction false} SeesElem(reg: Registry, r: Rules, g: Guard, out: bool, at: Site, e: Elem, v: Value)
    requires ShutElem(reg, g, Handles(reg), out, e)
    requires AllOf(g.screened, WalkElem(reg, All, true, e, v))
    requires out || AllOf(g.admitted, WalkElem(reg, All, false, e, v))
    ensures Seen(out, Calls(reg, r, true, at, e, v), Calls(reg, r, false, at, e, v))
    decreases v, 1
  {
    if e.Struct? {
      SeesStruct(reg, r, g, out, e.ty, v);
    } else if e.Union? {
      SeesUnion(reg, r, g, e.ty, v);
    }
  }

  lemma {:induction false} SeesStruct(reg: Registry, r: Rules, g: Guard, out: bool, i: nat, v: Value)
    requires Shut(reg, g, Handles(reg), out, i)
    requires AllOf(g.screened, WalkStruct(reg, All, true, i, v))
    requires out || AllOf(g.admitted, WalkStruct(reg, All, false, i, v))
    ensures Seen(out, CallsStruct(reg, r, true, i, v), CallsStruct(reg, r, false, i, v))
    decreases v, 0
  {
    hide Shut, ShutField, Handling;
    if Shaped(reg, i, v) {
      HandlesBelow(reg, g, out, i);
      SeesLinks(reg, r, g, out, i, v.links);
      RecordGuarded(reg, g, out, reg[i].fields, v.fields);
      SeesFields(reg, r, g, out, i, {}, reg[i].fields, v.fields, 0);
    }
  }

  lemma HandlesBelow(reg: Registry, g: Guard, out: bool, i: nat)
    requires IsStruct(reg, i) && Shut(reg, g, Handles(reg), out, i)
    ensures forall k | 0 <= k < |reg[i].fields| :: ShutField(reg, g, Handles(reg), out, reg[i].fields[k])
    ensures forall d | d in reg[i].chain && g.screened(i, d) && (out || g.admitted(i, d)) ::
              Shut(reg, g, Handles(reg), out, d)
  {
    ShutBelow(reg, g, Handles(reg), out, i);
  }

  lemma {:induction false} SeesUnion(reg: Registry, r: Rules, g: Guard, u: nat, v: Value)
    requires Shut(reg, g, Handles(reg), true, u) && AllOf(g.screened, WalkUnion(reg, All, true, u, v))
    ensures CallsUnion(reg, r, u, v) == []
    decreases v, 0
  {
    if u < |reg| && reg[u].UnionDef? && v.Variant? && v.case_ < |reg[u].cases| {
      var f := reg[u].cases[v.case_].member;
      assert Holding(reg[u])[v.case_] == f;
      ShutHeld(reg, g, Handles(reg), u, v.case_);
      SeesField(reg, r, g, true, Site(u, v.case_, false, false), f, v.member);
    }
  }

  lemma {:induction false} SeesLinks(reg: Registry, r: Rules, g: Guard, out: bool, parent: nat, links: seq<Link>)
    requires AllOf(g.screened, WalkLinks(reg, All, true, parent, links))
    requires out || AllOf(g.admitted, WalkLinks(reg, All, false, parent, links))
    requires forall l | l in links && g.screened(parent, l.ty) && (out || g.admitted(parent, l.ty)) ::
               Shut(reg, g, Handles(reg), out, l.ty)
    ensures Seen(out, CallsLinks(reg, r, true, links), CallsLinks(reg, r, false, links))
    decreases links, |links|
  {
    hide Shut;
    if links != [] {
      assert links[0] in links;
      assert (parent, links[0].ty) in WalkLinks(reg, All, true, parent, links);
      assert (parent, links[0].ty) in WalkLinks(reg, All, false, parent, links);
      SeesLink(reg, r, g, out, links[0]);
      SeesLinks(reg, r, g, out, parent, links[1..]);
    }
  }

  lemma {:induction false} SeesLink(reg: Registry, r: Rules, g: Guard, out: bool, l: Link)
    requires Shut(reg, g, Handles(reg), out, l.ty)
    requires AllOf(g.screened, WalkLink(reg, All, true, l)) && (out || AllOf(g.admitted, WalkLink(reg, All, false, l)))
    ensures Seen(out, CallsLink(reg, r, true, l), CallsLink(reg, r, false, l))
    decreases l
  {
    SeesStruct(reg, r, g, out, l.ty, l.body);
  }

  lemma {:induction false} SeesFields(reg: Registry, r: Rules, g: Guard, out: bool, owner: nat, skip: set<nat>,
                                      fs: seq<Field>, vals: seq<Value>, k: nat)
    requires k <= |fs| == |vals|
    requires forall j | 0 <= j < |fs| && j !in skip ::
               ShutField(reg, g, Handles(reg), out, fs[j]) && Guarded(reg, g, out, fs[j], vals[j])
    ensures Seen(out, CallsFields(reg, r, true, owner, skip, fs, vals, k),
                 CallsFields(reg, r, false, owner, skip, fs, vals, k))
    decreases vals, |vals| - k
  {
    hide ShutField, Guarded, CallsField;
    if k < |fs| {
      if k !in skip {
        SeesField(reg, r, g, out, SiteOf(r, owner, k, fs[k]), fs[k], vals[k]);
      }
      SeesFields(reg, r, g, out, owner, skip, fs, vals, k + 1);
    }
  }

  lemma {:induction false} SeesField(reg: Registry, r: Rules, g: Guard, out: bool, at: Site, f: Field, v: Value)
    requires ShutField(reg, g, Handles(reg), out, f) && Guarded(reg, g, out, f, v)
    ensures Seen(out, CallsField(reg, r, true, at, f, v), CallsField(reg, r, false, at, f, v))
    decreases v, 2
  {
    hide Shut;
    match f.shape
    case Plain(e) => SeesElem(reg, r, g, out, at, e, v);
    case Ptr(e) => if v.Ref? { SeesElem(reg, r, g, out, at, e, v.target); }
    case Static(e, _) => if v.Arr? { SeesElems(reg, r, g, out, at, e, v.elems); }
    case Dyn(e, _) => if v.Arr? { SeesElems(reg, r, g, out, at, e, v.elems); }
    case Nested(e, _, _) => if v.Arr? { SeesRows(reg, r, g, at, e, v.elems); }
    case Selected(u, _) => SeesElem(reg, r, g, out, at, Union(u), v);
    case _ =>
  }

  lemma {:induction false} SeesElems(reg: Registry, r: Rules, g: Guard, out: bool, at: Site, e: Elem, vs: seq<Value>)
    requires ShutElem(reg, g, Handles(reg), out, e)
    requires AllOf(g.screened, WalkElems(reg, All, true, e, vs))
    requires out || AllOf(g.admitted, WalkElems(reg, All, false, e, vs))
    ensures Seen(out, CallsElems(reg, r, true, at, e, vs), CallsElems(reg, r, false, at, e, vs))
    decreases vs, |vs|
  {
    hide ShutElem;
    if vs != [] {
      SeesElem(reg, r, g, out, at, e, vs[0]);
      SeesElems(reg, r, g, out, at, e, vs[1..]);
    }
  }

  lemma {:induction false} SeesRows(reg: Registry, r: Rules, g: Guard, at: Site, e: Elem, rows: seq<Value>)
    requires ShutElem(reg, g, Handles(reg), true, e) && AllOf(g.screened, WalkRows(reg, All, true, e, rows))
    ensures CallsRows(reg, r, at, e, rows) == []
    decreases rows, |rows|
  {
    hide ShutElem;
    if rows != [] {
      if rows[0].Arr? {
        SeesElems(reg, r, g, true, at, e, rows[0].elems);
      }
      SeesRows(reg, r, g, at, e, rows[1..]);
    }
  }

  // ---- and otherwise one is missed -----------------------------------------------------------------

  lemma WrapCalls(reg: Registry, r: Rules, all: bool, at: Site, f: Field, x: Value)
    requires ElemOf(f.shape).Some?
    ensures CallsField(reg, r, all, at, f, Wrap(f.shape, x)) ==
            if f.shape.Nested? && !all then [] else Calls(reg, r, all, at, ElemOf(f.shape).value, x)
  {
    var e := ElemOf(f.shape).value;
    assert CallsElems(reg, r, all, at, e, [x]) == Calls(reg, r, all, at, e, x) + [] by {
      assert [x][1..] == [];
      assert CallsElems(reg, r, all, at, e, []) == [];
    }
    assert CallsElems(reg, r, true, at, e, [x]) == Calls(reg, r, true, at, e, x) + [] by {
      assert [x][1..] == [];
      assert CallsElems(reg, r, true, at, e, []) == [];
    }
    if f.shape.Nested? && all {
      assert [Arr([x])][1..] == [];
      assert CallsRows(reg, r, at, e, []) == [];
      assert CallsRows(reg, r, at, e, [Arr([x])]) == CallsElems(reg, r, true, at, e, [x]) + [];
    }
  }

  lemma {:induction false} SingleCalls(reg: Registry, r: Rules, all: bool, owner: nat, skip: set<nat>, fs: seq<Field>,
                                       k: nat, x: Value, j: nat)
    requires k < |fs| && k !in skip && j <= |fs|
    ensures CallsFields(reg, r, all, owner, skip, fs, Single(|fs|, k, x), j) ==
            if j <= k then CallsField(reg, r, all, SiteOf(r, owner, k, fs[k]), fs[k], x) else []
    decreases |fs| - j
  {
    assert j < |fs| ==> Single(|fs|, k, x)[j] == if j == k then x else Null;
    hide CallsField, SiteOf, Single;
    if j < |fs| {
      SingleCalls(reg, r, all, owner, skip, fs, k, x, j + 1);
      if j != k {
        NullCalls(reg, r, all, SiteOf(r, owner, j, fs[j]), fs[j]);
      }
    }
  }

  lemma NullCalls(reg: Registry, r: Rules, all: bool, at: Site, f: Field)
    ensures CallsField(reg, r, all, at, f, Null) == []
  {
  }

  lemma {:induction false} EmptyCalls(reg: Registry, r: Rules, all: bool, owner: nat, fs: seq<Field>,
                                      vals: seq<Value>, j: nat)
    requires j <= |fs| == |vals| && forall k | 0 <= k < |vals| :: vals[k] == Null
    ensures CallsFields(reg, r, all, owner, {}, fs, vals, j) == []
    decreases |fs| - j
  {
    hide CallsField, SiteOf;
    if j < |fs| {
      NullCalls(reg, r, all, SiteOf(r, owner, j, fs[j]), fs[j]);
      EmptyCalls(reg, r, all, owner, fs, vals, j + 1);
    }
  }

  function HolderSite(reg: Registry, r: Rules, i: nat, k: nat): Site
    requires i < |reg| && k < |Holding(reg[i])|
  {
    if reg[i].UnionDef? then Site(i, k, false, false) else SiteOf(r, i, k, reg[i].fields[k])
  }

  lemma HolderCalls(reg: Registry, r: Rules, all: bool, at: Site, i: nat, k: nat, x: Value)
    requires i < |reg| && k < |Holding(reg[i])| && ElemOf(Holding(reg[i])[k].shape).Some? && (all || reg[i].StructDef?)
    ensures var f := Holding(reg[i])[k];
            Calls(reg, r, all, at, ElemFor(reg, i), Holder(reg, i, k, x)) ==
            if f.shape.Nested? && !all then []
            else Calls(reg, r, all, HolderSite(reg, r, i, k), ElemOf(f.shape).value, x)
  {
    var f, site, v := Holding(reg[i])[k], HolderSite(reg, r, i, k), Holder(reg, i, k, x);
    WrapCalls(reg, r, all, site, f, x);
    if reg[i].UnionDef? {
      assert Calls(reg, r, true, at, Union(i), v) == CallsUnion(reg, r, i, v);
      assert CallsUnion(reg, r, i, v) == CallsField(reg, r, true, site, f, Wrap(f.shape, x));
    } else {
      SingleCalls(reg, r, all, i, {}, reg[i].fields, k, Wrap(f.shape, x), 0);
      assert CallsLinks(reg, r, all, []) == [];
      assert Calls(reg, r, all, at, Struct(i), v) == CallsStruct(reg, r, all, i, v);
      assert Shaped(reg, i, v);
      assert CallsStruct(reg, r, all, i, v) == [] + CallsField(reg, r, all, site, f, Wrap(f.shape, x));
    }
  }

  lemma BareCalls(reg: Registry, r: Rules, all: bool, i: nat, l: Link)
    requires IsStruct(reg, i) && l.ty in reg[i].chain
    ensures CallsStruct(reg, r, all, i, Bare(reg, i, [l])) == CallsStruct(reg, r, all, l.ty, l.body)
  {
    var v := Bare(reg, i, [l]);
    assert [l][1..] == [];
    assert CallsLinks(reg, r, all, []) == [];
    assert CallsLinks(reg, r, all, [l]) == CallsLink(reg, r, all, l) + [];
    EmptyCalls(reg, r, all, i, reg[i].fields, v.fields, 0);
    assert Shaped(reg, i, v);
    assert CallsStruct(reg, r, all, i, v) == CallsLinks(reg, r, all, [l]) + [];
  }

  lemma OfStruct(reg: Registry, r: Rules, all: bool, at: Site, i: nat, v: Value)
    ensures Calls(reg, r, all, at, Struct(i), v) == CallsStruct(reg, r, all, i, v)
  {
  }

  /** A value with a handle that comes as far as the walk. */
  ghost predicate HasHandle(reg: Registry, r: Rules, g: Guard, e: Elem, v: Value) {
    && AllOf(g.screened, WalkElem(reg, All, true, e, v))
    && forall at :: Calls(reg, r, true, at, e, v) != []
  }

  /** A value with a handle, one type up. */
  lemma HandleStep(reg: Registry, r: Rules, g: Guard, i: nat, d: nat, x: Value) returns (v: Value)
    requires RegistryOk(reg) && d in Succ(HeldGraph(reg, g.screened), i) && HasHandle(reg, r, g, ElemFor(reg, d), x)
    ensures HasHandle(reg, r, g, ElemFor(reg, i), v)
  {
    hide Calls, WalkElem, WalkStruct, RegistryOk, Holder, Bare, HolderSite, HeldGraph;
    var field := DepKinds(reg, g.screened, i, d);
    if field.Some? {
      v := Holder(reg, i, field.value, x);
      HolderWalk(reg, true, i, field.value, x);
      forall at ensures Calls(reg, r, true, at, ElemFor(reg, i), v) != [] {
        HolderCalls(reg, r, true, at, i, field.value, x);
        assert Calls(reg, r, true, HolderSite(reg, r, i, field.value), ElemFor(reg, d), x) != [];
      }
    } else {
      v := Bare(reg, i, [Link(d, x)]);
      BareWalk(reg, true, i, Link(d, x));
      WalkOfStruct(reg, true, i, v);
      WalkOfStruct(reg, true, d, x);
      forall at ensures Calls(reg, r, true, at, ElemFor(reg, i), v) != [] {
        BareCalls(reg, r, true, i, Link(d, x));
        OfStruct(reg, r, true, at, i, v);
        OfStruct(reg, r, true, at, d, x);
        assert Calls(reg, r, true, at, ElemFor(reg, d), x) != [];
      }
    }
  }

  /** Along every path to a handle there is a value with one. */
  lemma {:induction false} HandleWitness(reg: Registry, r: Rules, g: Guard, p: seq<nat>, k: nat) returns (v: Value)
    requires RegistryOk(reg) && Path(HeldGraph(reg, g.screened), p) && k < |p| && p[|p| - 1] in Handling(reg)
    ensures HasHandle(reg, r, g, ElemFor(reg, p[k]), v)
    decreases |p| - k
  {
    hide RegistryOk, HeldGraph, Holder;
    var i := p[k];
    if k == |p| - 1 {
      var j: nat :| j < |Holding(reg[i])| && IsHandle(Holding(reg[i])[j]);
      v := Holder(reg, i, j, Num(0));
      HolderWalk(reg, true, i, j, Num(0));
      forall at ensures Calls(reg, r, true, at, ElemFor(reg, i), v) != [] {
        HolderCalls(reg, r, true, at, i, j, Num(0));
      }
    } else {
      assert p[k + 1] in Succ(HeldGraph(reg, g.screened), i);
      var x := HandleWitness(reg, r, g, p, k + 1);
      v := HandleStep(reg, r, g, i, p[k + 1], x);
    }
  }

  /** What can hide a handle does so in some value. */
  lemma HandleIn(reg: Registry, r: Rules, g: Guard, below: nat, fs: seq<Field>, k: nat) returns (x: Value)
    requires RegistryOk(reg) && below <= |reg| && FieldsOk(reg, below, fs) && k < |fs|
    requires Hides(reg, g, Handles(reg), fs[k])
    ensures HasHandle(reg, r, g, ElemOf(fs[k].shape).value, x)
  {
    var e, graph := ElemOf(fs[k].shape).value, HeldGraph(reg, g.screened);
    ElemKinds(reg, below, fs, k);
    if e.Handle? {
      x := Num(0);
    } else {
      var s :| s in Handling(reg) && Reaches(graph, e.ty, s);
      var p :| Path(graph, p) && p[0] == e.ty && p[|p| - 1] == s;
      x := HandleWitness(reg, r, g, p, 0);
    }
  }

  /** A structure the walk accepts the links of, with a handle it does not ask for. */
  ghost predicate Misses(reg: Registry, r: Rules, g: Guard, i: nat, v: Value) {
    && AllOf(g.screened, WalkStruct(reg, All, true, i, v)) && AllOf(g.admitted, WalkStruct(reg, All, false, i, v))
    && CallsStruct(reg, r, true, i, v) != [] && CallsStruct(reg, r, false, i, v) == []
  }

  /** Along every path to a hiding structure there is a value with a handle the walk does not ask for. */
  lemma {:induction false} BlindWitness(reg: Registry, r: Rules, g: Guard, p: seq<nat>, k: nat) returns (v: Value)
    requires RegistryOk(reg) && Path(ViewGraph(reg, g), p) && k < |p| && p[|p| - 1] in Hiding(reg, g, Handles(reg))
    ensures IsStruct(reg, p[k]) && Misses(reg, r, g, p[k], v)
    decreases |p| - k
  {
    hide Misses, Hides, ViewGraph;
    var i := p[k];
    if k == |p| - 1 {
      assert TypeOk(reg, i);
      var j: nat :| j < |reg[i].fields| && Hides(reg, g, Handles(reg), reg[i].fields[j]);
      v := BlindHolder(reg, r, g, i, j);
    } else {
      assert p[k + 1] in Succ(ViewGraph(reg, g), i);
      var x := BlindWitness(reg, r, g, p, k + 1);
      v := ViewStep(reg, r, g, i, p[k + 1], x);
    }
  }

  lemma BlindHolder(reg: Registry, r: Rules, g: Guard, i: nat, j: nat) returns (v: Value)
    requires RegistryOk(reg) && IsStruct(reg, i) && FieldsOk(reg, i, reg[i].fields) && j < |reg[i].fields|
    requires Hides(reg, g, Handles(reg), reg[i].fields[j])
    ensures Misses(reg, r, g, i, v)
  {
    hide RegistryOk, FieldsOk, Holder, CallsStruct, WalkStruct, HolderSite;
    var e, at := ElemOf(reg[i].fields[j].shape).value, Site(0, 0, false, false);
    var x := HandleIn(reg, r, g, i, reg[i].fields, j);
    v := Holder(reg, i, j, x);
    HolderCalls(reg, r, true, at, i, j, x);
    HolderCalls(reg, r, false, at, i, j, x);
    HolderWalk(reg, true, i, j, x);
    HolderWalk(reg, false, i, j, x);
    OfStruct(reg, r, true, at, i, v);
    OfStruct(reg, r, false, at, i, v);
    WalkOfStruct(reg, true, i, v);
    WalkOfStruct(reg, false, i, v);
    assert e.Union? ==> Calls(reg, r, false, HolderSite(reg, r, i, j), e, x) == [];
  }

  /** In view, a structure with one field or one link set has what it holds. */
  lemma InView(reg: Registry, r: Rules, all: bool, i: nat, j: nat, d: nat, x: Value)
    requires IsStruct(reg, i) && j < |reg[i].fields| && d in ViewField(reg[i].fields[j])
    ensures CallsStruct(reg, r, all, i, Holder(reg, i, j, x)) == CallsStruct(reg, r, all, d, x)
    ensures WalkStruct(reg, All, all, i, Holder(reg, i, j, x)) == WalkStruct(reg, All, all, d, x)
  {
    hide CallsStruct, WalkStruct, Holder, HolderSite;
    var at, v := Site(0, 0, false, false), Holder(reg, i, j, x);
    HolderCalls(reg, r, all, at, i, j, x);
    HolderWalk(reg, all, i, j, x);
    OfStruct(reg, r, all, HolderSite(reg, r, i, j), d, x);
    OfStruct(reg, r, all, at, i, v);
    WalkOfStruct(reg, all, d, x);
    WalkOfStruct(reg, all, i, v);
  }

  lemma ViewStep(reg: Registry, r: Rules, g: Guard, i: nat, d: nat, x: Value) returns (v: Value)
    requires d in Succ(ViewGraph(reg, g), i) && Misses(reg, r, g, d, x)
    ensures IsStruct(reg, i) && Misses(reg, r, g, i, v)
  {
    hide CallsStruct, WalkStruct, Holder, Bare, ViewGraph, ViewField;
    var field := ViewKinds(reg, g, i, d);
    if field.Some? {
      v := Holder(reg, i, field.value, x);
      InView(reg, r, true, i, field.value, d, x);
      InView(reg, r, false, i, field.value, d, x);
    } else {
      v := Bare(reg, i, [Link(d, x)]);
      BareCalls(reg, r, true, i, Link(d, x));
      BareCalls(reg, r, false, i, Link(d, x));
      BareWalk(reg, true, i, Link(d, x));
      BareWalk(reg, false, i, Link(d, x));
    }
  }

  /** A field that is not clear has a value the walk accepts the links of, with a handle it does not ask for. */
  lemma FieldWitness(reg: Registry, r: Rules, g: Guard, fs: seq<Field>, k: nat, at: Site) returns (v: Value)
    requires RegistryOk(reg) && FieldsOk(reg, |reg|, fs) && k < |fs| && !ClearField(reg, g, fs[k])
    ensures Guarded(reg, g, false, fs[k], v)
    ensures CallsField(reg, r, true, at, fs[k], v) != [] && CallsField(reg, r, false, at, fs[k], v) == []
  {
    hide RegistryOk, FieldsOk, Wrap, CallsField, WalkField, ViewGraph, HeldGraph, Hiding, WalkStruct, CallsStruct;
    var f := fs[k];
    var x: Value;
    ShutMeans(reg, g, Handles(reg), f);
    if Hides(reg, g, Handles(reg), f) {
      x := HandleIn(reg, r, g, |reg|, fs, k);
      assert Calls(reg, r, true, at, ElemOf(f.shape).value, x) != [];
    } else {
      var d :| d in ViewField(f) && !Shut(reg, g, Handles(reg), false, d);
      var s :| s in Hiding(reg, g, Handles(reg)) && Reaches(ViewGraph(reg, g), d, s);
      var p :| Path(ViewGraph(reg, g), p) && p[0] == d && p[|p| - 1] == s;
      x := BlindWitness(reg, r, g, p, 0);
      OfStruct(reg, r, true, at, d, x);
      OfStruct(reg, r, false, at, d, x);
      WalkOfStruct(reg, true, d, x);
      WalkOfStruct(reg, false, d, x);
    }
    v := Wrap(f.shape, x);
    WrapCalls(reg, r, true, at, f, x);
    WrapCalls(reg, r, false, at, f, x);
    WrapWalk(reg, true, f, x);
    WrapWalk(reg, false, f, x);
  }

  /** Over all value trees whose links get as far as the walk and are let through where it looks: it asks
      for every handle of a command's inputs if and only if each input is clear. */
  lemma SeesExactly(reg: Registry, r: Rules, g: Guard, owner: nat, skip: set<nat>, fs: seq<Field>)
    requires RegistryOk(reg) && FieldsOk(reg, |reg|, fs)
    ensures (forall vals: seq<Value> | |vals| == |fs| && InputsGuarded(reg, g, skip, fs, vals) ::
               CallsFields(reg, r, true, owner, skip, fs, vals, 0) ==
                 CallsFields(reg, r, false, owner, skip, fs, vals, 0))
       <==> forall k | 0 <= k < |fs| && k !in skip :: ClearField(reg, g, fs[k])
  {
    hide RegistryOk, FieldsOk, ClearField, CallsFields, Single;
    if forall k | 0 <= k < |fs| && k !in skip :: ClearField(reg, g, fs[k]) {
      forall vals: seq<Value> | |vals| == |fs| && InputsGuarded(reg, g, skip, fs, vals)
        ensures CallsFields(reg, r, true, owner, skip, fs, vals, 0) ==
                  CallsFields(reg, r, false, owner, skip, fs, vals, 0)
      {
        ClearInputs(reg, r, g, owner, skip, fs, vals);
      }
    } else {
      var k :| 0 <= k < |fs| && k !in skip && !ClearField(reg, g, fs[k]);
      var x := FieldWitness(reg, r, g, fs, k, SiteOf(r, owner, k, fs[k]));
      SingleCalls(reg, r, true, owner, skip, fs, k, x, 0);
      SingleCalls(reg, r, false, owner, skip, fs, k, x, 0);
      SingleGuarded(reg, g, skip, fs, k, x);
    }
  }

  /** A command whose inputs get as far as the walk, with the links in view let through. */
  predicate InputsGuarded(reg: Registry, g: Guard, skip: set<nat>, fs: seq<Field>, vals: seq<Value>)
    requires |vals| == |fs|
  {
    forall k | 0 <= k < |fs| && k !in skip :: Guarded(reg, g, false, fs[k], vals[k])
  }

  lemma SingleGuarded(reg: Registry, g: Guard, skip: set<nat>, fs: seq<Field>, k: nat, x: Value)
    requires k < |fs| && Guarded(reg, g, false, fs[k], x)
    ensures InputsGuarded(reg, g, skip, fs, Single(|fs|, k, x))
  {
    hide WalkField;
    forall j | 0 <= j < |fs| ensures Guarded(reg, g, false, fs[j], Single(|fs|, k, x)[j]) {
      NullWalk(reg, true, fs[j]);
      NullWalk(reg, false, fs[j]);
    }
  }

  lemma ClearInputs(reg: Registry, r: Rules, g: Guard, owner: nat, skip: set<nat>, fs: seq<Field>, vals: seq<Value>)
    requires |vals| == |fs| && InputsGuarded(reg, g, skip, fs, vals)
    requires forall k | 0 <= k < |fs| && k !in skip :: ClearField(reg, g, fs[k])
    ensures CallsFields(reg, r, true, owner, skip, fs, vals, 0) == CallsFields(reg, r, false, owner, skip, fs, vals, 0)
  {
    hide ShutField, Guarded;
    SeesFields(reg, r, g, false, owner, skip, fs, vals, 0);
  }

  // ---- and the walk accepts what it misses ------------------------------------------------------

  /** A place whose values the walk takes as they are: a union, an array of them, or a two-level array. */
  predicate Unread(f: Field) {
    f.shape.Nested? || (ElemOf(f.shape).Some? && ElemOf(f.shape).value.Union?)
  }

  /** A value of such a place that holds `x`, as often as its count wants it. */
  function Filling(f: Field, vals: seq<Value>, x: Value): Value {
    if f.shape.Dyn? then Arr(seq(Wanted(f, vals), _ => x)) else Wrap(f.shape, x)
  }

  lemma {:induction false} UnionElems(reg: Registry, r: Rules, at: Site, u: nat, vs: seq<Value>)
    ensures LawfulElems(reg, r, at, Union(u), vs) && CallsElems(reg, r, false, at, Union(u), vs) == []
    ensures WalkElems(reg, All, false, Union(u), vs) == []
    decreases |vs|
  {
    if vs != [] {
      UnionElems(reg, r, at, u, vs[1..]);
    }
  }

  lemma FillingLawful(reg: Registry, r: Rules, owner: nat, k: nat, f: Field, vals: seq<Value>, x: Value)
    requires Unread(f)
    ensures LawfulField(reg, r, SiteOf(r, owner, k, f), f, Wanted(f, vals), Filling(f, vals, x))
    ensures CallsField(reg, r, false, SiteOf(r, owner, k, f), f, Filling(f, vals, x)) == []
    ensures WalkField(reg, All, false, f, Filling(f, vals, x)) == []
  {
    var v := Filling(f, vals, x);
    if f.shape.Dyn? || f.shape.Static? {
      UnionElems(reg, r, SiteOf(r, owner, k, f), f.shape.elem.ty, v.elems);
    }
  }

  /** It hides what `x` has. */
  lemma FillingHides(reg: Registry, r: Rules, at: Site, test: LinkTest, f: Field, vals: seq<Value>, x: Value)
    requires Unread(f) && ElemOf(f.shape).Some? && (f.shape.Dyn? ==> Wanted(f, vals) > 0)
    ensures var e, v := ElemOf(f.shape).value, Filling(f, vals, x);
            && (Calls(reg, r, true, at, e, x) != [] ==> CallsField(reg, r, true, at, f, v) != [])
            && (AllOf(test, WalkElem(reg, All, true, e, x)) <==> AllOf(test, WalkField(reg, All, true, f, v)))
  {
    var e, v := ElemOf(f.shape).value, Filling(f, vals, x);
    if f.shape.Dyn? {
      assert v.elems[0] == x;
      Repeated(reg, test, e, v.elems, x);
    } else {
      WrapCalls(reg, r, true, at, f, x);
      WrapWalk(reg, true, f, x);
    }
  }

  lemma {:induction false} Repeated(reg: Registry, test: LinkTest, e: Elem, vs: seq<Value>, x: Value)
    requires vs != [] && forall k | 0 <= k < |vs| :: vs[k] == x
    ensures AllOf(test, WalkElems(reg, All, true, e, vs)) <==> AllOf(test, WalkElem(reg, All, true, e, x))
    decreases |vs|
  {
    hide WalkElem;
    assert vs[0] == x;
    if |vs| > 1 {
      Repeated(reg, test, e, vs[1..], x);
    } else {
      assert WalkElems(reg, All, true, e, vs[1..]) == [];
    }
    assert WalkElems(reg, All, true, e, vs) == WalkElem(reg, All, true, e, x) + WalkElems(reg, All, true, e, vs[1..]);
  }

  /** No count is read from such a place. */
  lemma UnreadUncounted(reg: Registry, fs: seq<Field>, vals: seq<Value>, k: nat, w: Value, j: nat)
    requires FieldsOk(reg, |reg|, fs) && |vals| == |fs| && k < |fs| && j < |fs| && Unread(fs[k])
    ensures Wanted(fs[j], vals[k := w]) == Wanted(fs[j], vals)
  {
    assert ShapeOk(reg, |reg|, fs, fs[j].shape);
    if fs[j].shape.Dyn? || fs[j].shape.StrArray? {
      var c := fs[j].shape.count;
      assert CountOk(reg, fs, c);
      assert c.Const? || c.field != k;
    }
  }

  lemma {:induction false} Planted(reg: Registry, r: Rules, owner: nat, skip: set<nat>, fs: seq<Field>,
                                   vals: seq<Value>, k: nat, x: Value, j: nat)
    requires FieldsOk(reg, |reg|, fs) && j <= |fs| == |vals| && k < |fs| && Unread(fs[k])
    requires LawfulFields(reg, r, owner, skip, fs, vals, j)
    ensures LawfulFields(reg, r, owner, skip, fs, vals[k := Filling(fs[k], vals, x)], j)
    decreases |fs| - j
  {
    hide LawfulField, FieldsOk, Unread, Filling, Wanted;
    if j < |fs| {
      UnreadUncounted(reg, fs, vals, k, Filling(fs[k], vals, x), j);
      Planted(reg, r, owner, skip, fs, vals, k, x, j + 1);
      if j == k {
        FillingLawful(reg, r, owner, k, fs[k], vals, x);
      }
    }
  }

  /** Any value of such a place leaves a lawful command lawful: it translates as soon as the handles in
      view are answered. No handle of the value is in view, and if it has one that one is missed. */
  lemma PlantedTranslates(reg: Registry, r: Rules, ask: Resolver, owner: nat, outputs: set<nat>, fs: seq<Field>,
                          vals: seq<Value>, k: nat, x: Value)
    requires RegistryOk(reg) && FieldsOk(reg, |reg|, fs) && |fs| == |vals| && k < |fs| && Unread(fs[k])
    requires LawfulFields(reg, r, owner, outputs, fs, vals, 0)
    ensures var bad := vals[k := Filling(fs[k], vals, x)];
            && (TFields(reg, r, ask, owner, outputs, fs, bad, [], []).Some? <==>
                Answers(ask, [], CallsFields(reg, r, false, owner, outputs, fs, bad, 0)).Some?)
            && CallsField(reg, r, false, SiteOf(r, owner, k, fs[k]), fs[k], bad[k]) == []
            && (ElemOf(fs[k].shape).Some? && (fs[k].shape.Dyn? ==> Wanted(fs[k], vals) > 0)
                && Calls(reg, r, true, SiteOf(r, owner, k, fs[k]), ElemOf(fs[k].shape).value, x) != [] ==>
                  CallsField(reg, r, true, SiteOf(r, owner, k, fs[k]), fs[k], bad[k]) != [])
  {
    hide RegistryOk, FieldsOk, LawfulFields, Unread, Filling, Wanted, TFields, CallsFields, CallsField, Calls, SiteOf;
    FillingLawful(reg, r, owner, k, fs[k], vals, x);
    if ElemOf(fs[k].shape).Some? && (fs[k].shape.Dyn? ==> Wanted(fs[k], vals) > 0) {
      FillingHides(reg, r, SiteOf(r, owner, k, fs[k]), (_: nat, _: nat) => true, fs[k], vals, x);
    }
    Planted(reg, r, owner, outputs, fs, vals, k, x, 0);
    var bad := vals[k := Filling(fs[k], vals, x)];
    assert Mixed([], bad) == bad;
    TranslatesFields(reg, |reg|, r, ask, owner, outputs, fs, bad, [], []);
  }

  /** Whatever lawful values a command has, an input that hides handles can be given one that passes the
      screen and leaves the command lawful: it translates as soon as the handles in view are answered,
      and a handle is never asked for. */
  lemma MissedInCommand(reg: Registry, r: Rules, g: Guard, ask: Resolver, owner: nat, outputs: set<nat>,
                        fs: seq<Field>, vals: seq<Value>, k: nat) returns (w: Value)
    requires RegistryOk(reg) && FieldsOk(reg, |reg|, fs) && |vals| == |fs|
    requires LawfulFields(reg, r, owner, outputs, fs, vals, 0)
    requires k < |fs| && k !in outputs && Hides(reg, g, Handles(reg), fs[k])
    requires fs[k].shape.Dyn? ==> Wanted(fs[k], vals) > 0
    ensures AllOf(g.screened, WalkField(reg, All, true, fs[k], w))
    ensures CallsField(reg, r, true, SiteOf(r, owner, k, fs[k]), fs[k], w) != []
    ensures CallsField(reg, r, false, SiteOf(r, owner, k, fs[k]), fs[k], w) == []
    ensures TFields(reg, r, ask, owner, outputs, fs, vals[k := w], [], []).Some? <==>
            Answers(ask, [], CallsFields(reg, r, false, owner, outputs, fs, vals[k := w], 0)).Some?
  {
    var at := SiteOf(r, owner, k, fs[k]);
    hide RegistryOk, FieldsOk, LawfulFields, Filling, WalkField, CallsField, SiteOf, Wanted;
    var x := HandleIn(reg, r, g, |reg|, fs, k);
    w := Filling(fs[k], vals, x);
    assert Calls(reg, r, true, at, ElemOf(fs[k].shape).value, x) != [];
    FillingHides(reg, r, at, g.screened, fs[k], vals, x);
    FillingLawful(reg, r, owner, k, fs[k], vals, x);
    PlantedTranslates(reg, r, ask, owner, outputs, fs, vals, k, x);
  }

  /** A handle in a union: the walk succeeds, asks for nothing and leaves the guest's id in place. */
  lemma HiddenHandle(r: Rules, ask: Resolver)
    ensures var reg := [UnionDef(false, 4, 0, [Case([0], Field(Plain(Handle(3)), true, None))])];
            var fs := [Field(Plain(Union(0)), true, None)];
            var vals := [Variant(0, Num(7))];
            && RegistryOk(reg) && FieldsOk(reg, |reg|, fs)
            && TFields(reg, r, ask, 0, {}, fs, vals, [], []) == Some((vals, []))
            && CallsFields(reg, r, true, 0, {}, fs, vals, 0) == [Call(3, 7, false)]
  {
    var f := Field(Plain(Handle(3)), true, None);
    var reg := [UnionDef(false, 4, 0, [Case([0], f)])];
    var fs := [Field(Plain(Union(0)), true, None)];
    var vals := [Variant(0, Num(7))];
    assert RegistryOk(reg) by { assert CaseFor(reg[0].cases, 0) == 0; }
    var at := SiteOf(r, 0, 0, fs[0]);
    assert [] + [vals[0]] == vals;
    assert TFields(reg, r, ask, 0, {}, fs, vals, vals, []) == Some((vals, []));
    assert TField(reg, r, ask, at, fs[0], 0, vals[0], []) == Some((vals[0], []));
    assert CallsField(reg, r, true, Site(0, 0, false, false), f, Num(7)) == [Call(3, 7, false)];
    assert CallsUnion(reg, r, 0, vals[0]) == [Call(3, 7, false)];
    assert CallsField(reg, r, true, at, fs[0], vals[0]) == [Call(3, 7, false)];
    assert CallsFields(reg, r, true, 0, {}, fs, vals, 1) == [];
  }

  /** Every link the walk lets through counts as admitted. */
  ghost predicate Admitting(r: Rules, g: Guard) {
    forall parent: nat, ty: nat | r.admits(parent, ty) :: g.admitted(parent, ty)
  }

  /** Clear inputs whose links have come as far as the walk. */
  ghost predicate InputsClear(reg: Registry, g: Guard, outputs: set<nat>, fs: seq<Field>, vals: seq<Value>)
    requires |vals| == |fs|
  {
    forall k | 0 <= k < |fs| && k !in outputs ::
      ClearField(reg, g, fs[k]) && AllOf(g.screened, WalkField(reg, All, true, fs[k], vals[k]))
  }

  /** A command's translation, of values whose links pass a screen: it succeeds exactly when every input
      is lawful and the resolver answers every handle; it asks for every input handle, once, in order
      and with its own kind; each answer stands where its handle stood; all else is as it was. */
  lemma TranslatesCommand(reg: Registry, r: Rules, g: Guard, ask: Resolver, owner: nat, outputs: set<nat>,
                          fs: seq<Field>, vals: seq<Value>)
    requires RegistryOk(reg) && FieldsOk(reg, |reg|, fs) && |vals| == |fs| && Admitting(r, g)
    requires InputsClear(reg, g, outputs, fs, vals)
    ensures var out := TFields(reg, r, ask, owner, outputs, fs, vals, [], []);
            var handles := CallsFields(reg, r, true, owner, outputs, fs, vals, 0);
            && (out.Some? <==> LawfulFields(reg, r, owner, outputs, fs, vals, 0) && Answers(ask, [], handles).Some?)
            && (out.Some? ==>
                  && out.value.1 == handles
                  && SameButHandles(reg, fs, out.value.0, vals)
                  && LawfulFields(reg, r, owner, outputs, fs, out.value.0, 0)
                  && CallsFields(reg, r, true, owner, outputs, fs, out.value.0, 0) ==
                    Refilled(handles, Answers(ask, [], handles).value))
  {
    hide RegistryOk, FieldsOk, ClearField, WalkField, CallsFields, TFields, LawfulFields, Admitting;
    assert Mixed([], vals) == vals;
    TranslatesFields(reg, |reg|, r, ask, owner, outputs, fs, vals, [], []);
    var out := TFields(reg, r, ask, owner, outputs, fs, vals, [], []);
    if LawfulFields(reg, r, owner, outputs, fs, vals, 0) {
      LawfulSeen(reg, r, g, owner, outputs, fs, vals);
    }
    if out.Some? {
      forall k | 0 <= k < |fs| && k !in outputs
        ensures AllOf(g.screened, WalkField(reg, All, true, fs[k], out.value.0[k]))
      {
        SameLinks(reg, true, fs[k], vals[k], out.value.0[k]);
      }
      LawfulSeen(reg, r, g, owner, outputs, fs, out.value.0);
      assert [] + CallsFields(reg, r, false, owner, outputs, fs, vals, 0) ==
               CallsFields(reg, r, false, owner, outputs, fs, vals, 0);
    }
  }

  /** Of lawful values with clear inputs the walk asks for every handle. */
  lemma LawfulSeen(reg: Registry, r: Rules, g: Guard, owner: nat, outputs: set<nat>, fs: seq<Field>, vals: seq<Value>)
    requires |vals| == |fs| && LawfulFields(reg, r, owner, outputs, fs, vals, 0) && Admitting(r, g)
    requires InputsClear(reg, g, outputs, fs, vals)
    ensures CallsFields(reg, r, true, owner, outputs, fs, vals, 0) ==
              CallsFields(reg, r, false, owner, outputs, fs, vals, 0)
  {
    hide ClearField, WalkField, CallsFields, LawfulFields;
    forall k | 0 <= k < |fs| && k !in outputs ensures Guarded(reg, g, false, fs[k], vals[k]) {
      AdmitsInput(reg, r, owner, outputs, fs, vals, 0, k);
    }
    ClearInputs(reg, r, g, owner, outputs, fs, vals);
  }
}
