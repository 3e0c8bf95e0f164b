/**
  What the decoders accept, starting from the bytes. Whatever byte string a structure, a skeleton or a
  command is decoded from, its value encodes again and comes back unchanged exactly when every ignorable
  array that is filled in is there if and only if its condition holds and something is counted.
  The decoders themselves do not look at that condition.
 */
module Acceptance {
  import opened Options
  import opened Wire
  import opened Schema
  import opened Codec
  import opened Commands
  import opened Exactness
  import opened Typing

  // ---- ignorable arrays in step with their conditions ------------------------------------------

  /** An ignorable array is present exactly when it is wanted. */
  predicate Agrees(f: Field, n: nat, vals: seq<Value>, v: Value) {
    f.cond.Some? ==> (v.Arr? <==> n > 0 && Holds(f.cond.value, vals))
  }

  predicate CoherentElem(reg: Registry, e: Elem, partial: bool, v: Value)
    decreases v, 1
  {
    match e
    case Struct(j) => CoherentStruct(reg, j, partial, v)
    case Union(u) => CoherentUnion(reg, u, v)
    case _ => true
  }

  predicate CoherentUnion(reg: Registry, u: nat, v: Value)
    decreases v, 0
  {
    u < |reg| && reg[u].UnionDef? && v.Variant? && v.case_ < |reg[u].cases| ==>
      CoherentField(reg, reg[u].cases[v.case_].member, Valid, [], v.member)
  }

  predicate CoherentStruct(reg: Registry, i: nat, partial: bool, v: Value)
    decreases v, 0
  {
    IsStruct(reg, i) && v.Rec? && |v.fields| == |reg[i].fields| ==>
      && CoherentLinks(reg, partial, v.links)
      && CoherentFields(reg, reg[i].fields, BodyPlan(reg[i], partial), v.fields, 0)
  }

  predicate CoherentLinks(reg: Registry, partial: bool, links: seq<Link>)
    decreases links, |links|
  {
    links == [] || (CoherentLink(reg, partial, links[0]) && CoherentLinks(reg, partial, links[1..]))
  }

  predicate CoherentLink(reg: Registry, partial: bool, l: Link)
    decreases l
  {
    IsStruct(reg, l.ty) && l.body.Rec? && |l.body.fields| == |reg[l.ty].fields| ==>
      CoherentFields(reg, reg[l.ty].fields, BodyPlan(reg[l.ty], partial), l.body.fields, 0)
  }

  predicate CoherentFields(reg: Registry, fs: seq<Field>, plan: seq<Treatment>, vals: seq<Value>, k: nat)
    requires k <= |fs| == |vals| == |plan|
    decreases vals, |vals| - k
  {
    k == |fs| || (&& CoherentField(reg, fs[k], plan[k], vals, vals[k])
                  && CoherentFields(reg, fs, plan, vals, k + 1))
  }

  predicate CoherentField(reg: Registry, f: Field, t: Treatment, vals: seq<Value>, v: Value)
    decreases v, 2
  {
    match f.shape
    case Plain(e) => t.Invalid? || CoherentElem(reg, e, t.Partial?, v)
    case Selected(u, _) => CoherentUnion(reg, u, v)
    case Static(e, _) => t.Invalid? || (v.Arr? ==> CoherentElems(reg, e, t.Partial?, v.elems, 0))
    case Ptr(e) => t.Invalid? || (v.Ref? ==> CoherentElem(reg, e, t.Partial?, v.target))
    case Dyn(e, c) =>
      t.Invalid? || (&& Agrees(f, Size(c, vals, 0), vals, v)
                     && (v.Arr? ==> CoherentElems(reg, e, t.Partial?, v.elems, 0)))
    case Nested(e, c, _) => Agrees(f, Size(c, vals, 0), vals, v) && (v.Arr? ==> CoherentRows(reg, e, v.elems, 0))
    case StrArray(c) => Agrees(f, Size(c, vals, 0), vals, v)
    case _ => true
  }

  predicate CoherentElems(reg: Registry, e: Elem, partial: bool, vs: seq<Value>, k: nat)
    requires k <= |vs|
    decreases vs, 0, |vs| - k
  {
    k == |vs| || (CoherentElem(reg, e, partial, vs[k]) && CoherentElems(reg, e, partial, vs, k + 1))
  }

  predicate CoherentRows(reg: Registry, e: Elem, rows: seq<Value>, k: nat)
    requires k <= |rows|
    decreases rows, 0, |rows| - k
  {
    k == |rows| || (&& (rows[k].Arr? ==> CoherentElems(reg, e, false, rows[k].elems, 0))
                    && CoherentRows(reg, e, rows, k + 1))
  }

  // ---- well typed and in normal form ----------------------------------------------------------------

  ghost predicate FineElem(reg: Registry, e: Elem, partial: bool, d: nat, v: Value) {
    TypedElem(reg, e, partial, v) && NormalElem(reg, e, partial, d, v)
  }

  ghost predicate FineElems(reg: Registry, e: Elem, partial: bool, d: nat, vs: seq<Value>) {
    TypedElems(reg, e, partial, vs, 0) && NormalElems(reg, e, partial, d, vs, 0)
  }

  ghost predicate FineField(reg: Registry, f: Field, t: Treatment, d: nat, vals: seq<Value>, v: Value) {
    TypedField(reg, f, t, vals, v) && NormalField(reg, f, t, d, vals, v)
  }

  ghost predicate FineFields(reg: Registry, fs: seq<Field>, plan: seq<Treatment>, d: nat, vals: seq<Value>, k: nat)
    requires k <= |fs| == |vals| == |plan|
  {
    TypedFields(reg, fs, plan, vals, k) && NormalFields(reg, fs, plan, d, vals, k)
  }

  /** A plan the generator emits: it reads every field. */
  predicate Emitted(fs: seq<Field>, plan: seq<Treatment>) {
    && |plan| == |fs|
    && forall k | 0 <= k < |fs| :: !plan[k].Skipped? && (plan[k].Valid? || Emits(fs[k].shape, plan[k]))
  }

  lemma BodyEmitted(reg: Registry, i: nat, partial: bool)
    requires RegistryOk(reg) && IsStruct(reg, i)
    ensures Emitted(reg[i].fields, BodyPlan(reg[i], partial))
  {
    assert TypeOk(reg, i);
    hide Emits, FieldsOk, LengthsFirst;
  }

  // ---- the primitives ---------------------------------------------------------------------------------

  lemma {:induction false} FromLeFits(s: Bytes)
    ensures FromLe(s) < Base(|s|)
  {
    if s != [] {
      FromLeFits(s[1..]);
    }
  }

  lemma GetFits(w: nat, s: Bytes)
    requires Get(w, s).Some?
    ensures Get(w, s).value.0 < Base(w)
  {
    FromLeFits(s[..w]);
  }

  lemma {:induction false} CStrFits(b: Bytes)
    requires 0 in b
    ensures |CStr(b)| < |b| && 0 !in CStr(b)
  {
    if b[0] != 0 {
      assert 0 in b[1..];
      CStrFits(b[1..]);
    }
  }

  lemma StringGot(len: nat, s: Bytes)
    requires GetString(len, s).Some?
    ensures |GetString(len, s).value.0| < len && 0 !in GetString(len, s).value.0
  {
    CStrFits(GetBlob(len, s).value.0);
  }

  lemma {:induction false} StringsGot(n: nat, s: Bytes)
    requires DecStrings(n, s).Some?
    ensures var vs := DecStrings(n, s).value.0;
            |vs| == n && forall k | 0 <= k < n :: TypedString(vs[k]) && 0 !in vs[k].bytes
  {
    hide Get, GetString;
    if n > 0 {
      GetFits(8, s);
      var (len, rest) := Get(8, s).value;
      StringGot(len, rest);
      StringsGot(n - 1, GetString(len, rest).value.1);
    }
  }

  lemma {:induction false} UnpackFits(w: nat, n: nat, b: Bytes)
    requires |b| == n * w
    ensures forall k | 0 <= k < n :: Unpack(w, n, b)[k].Num? && Unpack(w, n, b)[k].n < Base(w)
  {
    if n > 0 {
      assert n * w == w + (n - 1) * w;
      FromLeFits(b[..w]);
      UnpackFits(w, n - 1, b[w..]);
    }
  }

  lemma {:induction false} ScalarsFine(reg: Registry, e: Elem, partial: bool, d: nat, vs: seq<Value>, k: nat)
    requires e.Scalar? && k <= |vs| && forall j | 0 <= j < |vs| :: vs[j].Num? && vs[j].n < Base(e.width)
    ensures TypedElems(reg, e, partial, vs, k) && NormalElems(reg, e, partial, d, vs, k)
    ensures CoherentElems(reg, e, partial, vs, k)
    decreases |vs| - k
  {
    if k < |vs| {
      ScalarsFine(reg, e, partial, d, vs, k + 1);
    }
  }

  /** An array as decoded: absent and not insisted on, or as long as counted, or empty if `bare`. */
  predicate GotArray(f: Field, n: nat, bare: bool, v: Value) {
    if v.Arr? then |v.elems| == (if bare then 0 else n) && 0 < n < Base(8) else v == Null && (f.required ==> n == 0)
  }

  lemma ArrayAgrees(f: Field, n: nat, bare: bool, vals: seq<Value>, v: Value)
    requires GotArray(f, n, bare, v)
    ensures && NormalArray(f, n, Sent(f, vals, v), v)
            && (Sent(f, vals, v) ==> if bare then n < Base(8) else AsCounted(n, v))
       <==> Agrees(f, n, vals, v)
    ensures v.Arr? && Agrees(f, n, vals, v) ==> Sent(f, vals, v)
  {
  }

  lemma PresenceGot(required: bool, n: nat, s: Bytes)
    requires Presence(required, n, s).Some?
    ensures if Presence(required, n, s).value.0 then 0 < n < Base(8) else required ==> n == 0
  {
    GetFits(8, s);
  }

  // ---- whatever is decoded --------------------------------------------------------------------------------

  lemma {:induction false} ElemGot(reg: Registry, e: Elem, partial: bool, d: nat, s: Bytes)
    requires RegistryOk(reg) && ElemOk(reg, |reg|, e) && DecElem(reg, e, partial, d, s).Some?
    ensures var v := DecElem(reg, e, partial, d, s).value.0;
            FineElem(reg, e, partial, d, v) <==> CoherentElem(reg, e, partial, v)
    decreases |s|, Rank(e), 2
  {
    match e
    case Scalar(w, _) =>
    case Handle(_) => GetFits(8, s);
    case Struct(j) => StructGot(reg, j, partial, d, s);
    case Union(u) => UnionGot(reg, u, d, s);
  }

  lemma {:induction false} UnionGot(reg: Registry, u: nat, d: nat, s: Bytes)
    requires RegistryOk(reg) && DecUnion(reg, u, d, s).Some?
    ensures var ((tag, v), _) := DecUnion(reg, u, d, s).value;
            && u < |reg| && reg[u].UnionDef? && v.Variant? && v.case_ < |reg[u].cases|
            && tag in reg[u].cases[v.case_].tags
            && (TypedUnion(reg, u, v) && NormalUnion(reg, u, d, v) <==> CoherentUnion(reg, u, v))
    decreases |s|, u + 1, 1
  {
    var (tag, rest) := Get(reg[u].tagWidth, s).value;
    var c := CaseFor(reg[u].cases, tag);
    var f := reg[u].cases[c].member;
    assert TypeOk(reg, u) && MemberOk(reg, u, f);
    assert Counts(f.shape) == [];
    FieldGot(reg, u, [], f, Valid, d, [], [], rest);
  }

  lemma {:induction false} StructGot(reg: Registry, i: nat, partial: bool, d: nat, s: Bytes)
    requires RegistryOk(reg) && DecStruct(reg, i, partial, d, s).Some?
    ensures var v := DecStruct(reg, i, partial, d, s).value.0;
            TypedStruct(reg, i, partial, v) && NormalStruct(reg, i, partial, d, v) <==>
            CoherentStruct(reg, i, partial, v)
    decreases |s|, i + 1, 1
  {
    hide RegistryOk, TypedFields, NormalFields, CoherentFields, DecFields;
    HeadGot(reg, i, partial, d, s);
    BodyGot(reg, i, partial, d, DecHead(reg, reg[i], partial, d, s).value.1);
  }

  lemma {:induction false} HeadGot(reg: Registry, i: nat, partial: bool, d: nat, s: Bytes)
    requires RegistryOk(reg) && IsStruct(reg, i) && DecHead(reg, reg[i], partial, d, s).Some?
    ensures var links := DecHead(reg, reg[i], partial, d, s).value.0;
            && (if reg[i].stype.None? then links == [] else TypedLinks(reg, reg[i].chain, partial, links))
            && (if reg[i].chain == [] then links == []
                else DistinctLinks(reg, links) && NormalChain(reg, reg[i].chain, partial, d, links))
            <==> CoherentLinks(reg, partial, links)
    decreases |s|, i + 1, 0, 4
  {
    hide DecChain, NormalChain, TypedLinks, DistinctLinks;
    assert TypeOk(reg, i);
    if reg[i].stype.Some? && reg[i].chain != [] {
      ChainGot(reg, reg[i].chain, partial, d, Get(4, s).value.1);
    } else {
      NoLinksFine(reg, partial, reg[i].chain);
    }
  }

  lemma NoLinksFine(reg: Registry, partial: bool, chain: seq<nat>)
    ensures TypedLinks(reg, chain, partial, []) && CoherentLinks(reg, partial, [])
  {
  }

  lemma {:induction false} BodyGot(reg: Registry, i: nat, partial: bool, d: nat, s: Bytes)
    requires RegistryOk(reg) && IsStruct(reg, i) && DecBody(reg, i, partial, d, s).Some?
    ensures var vals, plan := DecBody(reg, i, partial, d, s).value.0, BodyPlan(reg[i], partial);
            && |vals| == |reg[i].fields|
            && (TypedBody(reg, reg[i], partial, vals) && NormalFields(reg, reg[i].fields, plan, d, vals, 0)
                <==> CoherentFields(reg, reg[i].fields, plan, vals, 0))
    decreases |s|, i + 1, 0, 3
  {
    BodyEmitted(reg, i, partial);
    assert TypeOk(reg, i);
    hide Emitted, BodyPlan;
    var fs := reg[i].fields;
    FieldsGot(reg, i, fs, BodyPlan(reg[i], partial), d, seq(|fs|, _ => Null), 0, s);
  }

  lemma {:induction false} ChainGot(reg: Registry, chain: seq<nat>, partial: bool, d: nat, s: Bytes)
    requires RegistryOk(reg) && DecChain(reg, chain, partial, d, s).Some?
    ensures var links := DecChain(reg, chain, partial, d, s).value.0;
            TypedLinks(reg, chain, partial, links) && NormalChain(reg, chain, partial, d, links) <==>
            CoherentLinks(reg, partial, links)
    decreases |s|, 0, 0
  {
    hide RegistryOk, TypedFields, NormalFields, CoherentFields, DecFields, Get;
    var (marker, afterMarker) := Get(8, s).value;
    if marker != 0 {
      var (stype, afterStype) := Get(4, afterMarker).value;
      ChainGot(reg, chain, partial, d + 1, afterStype);
      var (links, rest) := DecChain(reg, chain, partial, d + 1, afterStype).value;
      var ty := Admitted(reg, chain, stype).value;
      BodyGot(reg, ty, partial, d, rest);
      var all := DecChain(reg, chain, partial, d, s).value.0;
      assert all[1..] == links;
    }
  }

  lemma {:induction false} FieldsGot(reg: Registry, below: nat, fs: seq<Field>, plan: seq<Treatment>, d: nat,
                                     env: seq<Value>, k: nat, s: Bytes)
    requires RegistryOk(reg) && below <= |reg| && FieldsOk(reg, below, fs) && LengthsFirst(fs) && Emitted(fs, plan)
    requires |env| == |fs| && k <= |fs| && DecFields(reg, below, fs, plan, false, d, env, k, s).Some?
    ensures var out := DecFields(reg, below, fs, plan, false, d, env, k, s).value.0;
            && out[..k] == env[..k]
            && (FineFields(reg, fs, plan, d, out, k) <==> CoherentFields(reg, fs, plan, out, k))
    decreases |s|, below + 1, 0, 2, |fs| - k
  {
    if k < |fs| {
      hide RegistryOk, FieldsOk, LengthsFirst;
      var out := DecFields(reg, below, fs, plan, false, d, env, k, s).value.0;
      if fs[k].shape.Selected? {
        SelectedGot(reg, below, fs, plan, d, env, k, s);
      } else {
        var (v, rest) := DecField(reg, below, fs[k], plan[k], false, d, env, s).value;
        FieldsGot(reg, below, fs, plan, d, env[k := v], k + 1, rest);
        Settled(out, env, k, v);
        SameSizes(reg, fs, env, out, k);
        assert ShapeOk(reg, below, fs, fs[k].shape) by { ShapeAt(reg, below, fs, k); }
        FieldGot(reg, below, fs, fs[k], plan[k], d, env, out, s);
        hide FieldsOk, TypedField, NormalField, CoherentField, DecField;
      }
    }
  }

  lemma ShapeAt(reg: Registry, below: nat, fs: seq<Field>, k: nat)
    requires FieldsOk(reg, below, fs) && k < |fs|
    ensures ShapeOk(reg, below, fs, fs[k].shape)
  {
  }

  lemma Settled(out: seq<Value>, env: seq<Value>, k: nat, v: Value)
    requires |out| == |env| && k < |env| && out[..k + 1] == env[k := v][..k + 1]
    ensures out[k] == v && out[..k] == env[..k]
  {
    assert out[k] == out[..k + 1][k];
    assert out[..k] == out[..k + 1][..k] && env[..k] == env[k := v][..k + 1][..k];
  }

  /** The counts of field `k` read the same before and after the rest is decoded. */
  lemma SameSizes(reg: Registry, fs: seq<Field>, env: seq<Value>, out: seq<Value>, k: nat)
    requires LengthsFirst(fs) && |env| == |fs| == |out| && k < |fs| && out[..k] == env[..k]
    ensures forall c, index: nat | c in Counts(fs[k].shape) :: Size(c, env, index) == Size(c, out, index)
  {
    forall c, index: nat | c in Counts(fs[k].shape)
      ensures Size(c, env, index) == Size(c, out, index)
    {
      if !c.Const? {
        assert env[c.field] == env[..k][c.field] && out[c.field] == out[..k][c.field];
      }
    }
  }

  lemma {:induction false} SelectedGot(reg: Registry, below: nat, fs: seq<Field>, plan: seq<Treatment>, d: nat,
                                       env: seq<Value>, k: nat, s: Bytes)
    requires RegistryOk(reg) && below <= |reg| && FieldsOk(reg, below, fs) && LengthsFirst(fs) && Emitted(fs, plan)
    requires |env| == |fs| && k < |fs| && fs[k].shape.Selected?
    requires DecFields(reg, below, fs, plan, false, d, env, k, s).Some?
    ensures var out := DecFields(reg, below, fs, plan, false, d, env, k, s).value.0;
            && out[..k] == env[..k]
            && (FineFields(reg, fs, plan, d, out, k) <==> CoherentFields(reg, fs, plan, out, k))
    decreases |s|, below + 1, 0, 1
  {
    hide RegistryOk, FieldsOk, LengthsFirst;
    var u := fs[k].shape.union;
    var ((tag, v), rest) := DecUnion(reg, u, d, s).value;
    UnionGot(reg, u, d, s);
    UnionShrinks(reg, u, d, s);
    FieldsGot(reg, below, fs, plan, d, env[k := v], k + 1, rest);
    var out := DecFields(reg, below, fs, plan, false, d, env, k, s).value.0;
    Settled(out, env, k, v);
    assert plan[k].Valid?;
    hide TypedUnion, NormalUnion, CoherentUnion, DecUnion, DecFields;
    assert out[fs[k].shape.selector] == Num(tag);
    assert TypedField(reg, fs[k], Valid, out, v) == TypedUnion(reg, u, v);
    assert NormalField(reg, fs[k], Valid, d, out, v) == NormalUnion(reg, u, d, v);
    assert CoherentField(reg, fs[k], Valid, out, v) == CoherentUnion(reg, u, v);
  }

  /** A union has at least its tag. */
  lemma UnionShrinks(reg: Registry, u: nat, d: nat, s: Bytes)
    requires RegistryOk(reg) && DecUnion(reg, u, d, s).Some?
    ensures |DecUnion(reg, u, d, s).value.1| < |s|
  {
    assert TypeOk(reg, u);
  }

  lemma {:induction false} FieldGot(reg: Registry, below: nat, fs: seq<Field>, f: Field, t: Treatment, d: nat,
                                    env: seq<Value>, out: seq<Value>, s: Bytes)
    requires RegistryOk(reg) && below <= |reg| && ShapeOk(reg, below, fs, f.shape)
    requires !t.Skipped? && (t.Valid? || Emits(f.shape, t))
    requires forall c, index: nat | c in Counts(f.shape) :: Size(c, env, index) == Size(c, out, index)
    requires DecField(reg, below, f, t, false, d, env, s).Some?
    ensures var v := DecField(reg, below, f, t, false, d, env, s).value.0;
            FineField(reg, f, t, d, out, v) <==> CoherentField(reg, f, t, out, v)
    decreases |s|, below + 1, 0, 1
  {
    hide RegistryOk, Size, DecDyn, DecNested, DecStrArray, DecStatic, DecPtr;
    match f.shape
    case Plain(e) => if !t.Invalid? { ElemGot(reg, e, t.Partial?, d, s); }
    case Static(e, n) => if !t.Invalid? { StaticGot(reg, f, e, n, t, d, out, s); }
    case Ptr(e) => PtrGot(reg, f, e, t, d, out, s);
    case Str => StrGot(s);
    case Dyn(e, c) =>
      assert c in Counts(f.shape);
      DynGot(reg, f, e, c, t, d, out, s);
    case Nested(e, c, inner) =>
      assert c in Counts(f.shape) && inner in Counts(f.shape);
      NestedGot(reg, f, e, c, inner, d, env, out, s);
    case StrArray(c) =>
      assert c in Counts(f.shape);
      StrArrayGot(f, c, out, s);
      hide DecStrArray;
    case _ =>
  }

  lemma StrGot(s: Bytes)
    requires DecStr(s).Some?
    ensures var v := DecStr(s).value.0; v == Null || (TypedString(v) && 0 !in v.bytes)
  {
    hide Get, GetString;
    GetFits(8, s);
    var (n, rest) := Get(8, s).value;
    if n != 0 {
      StringGot(n, rest);
    }
  }

  lemma {:induction false} PtrGot(reg: Registry, f: Field, e: Elem, t: Treatment, d: nat, out: seq<Value>, s: Bytes)
    requires RegistryOk(reg) && ElemOk(reg, |reg|, e) && f.shape == Ptr(e)
    requires DecPtr(reg, e, t, f.required, d, s).Some?
    ensures var v := DecPtr(reg, e, t, f.required, d, s).value.0;
            FineField(reg, f, t, d, out, v) <==> CoherentField(reg, f, t, out, v)
    decreases |s|, Rank(e), 5
  {
    var (marker, rest) := Get(8, s).value;
    if marker != 0 && !t.Invalid? {
      ElemGot(reg, e, t.Partial?, d, rest);
    }
  }

  lemma {:induction false} StaticGot(reg: Registry, f: Field, e: Elem, n: nat, t: Treatment, d: nat, out: seq<Value>,
                                     s: Bytes)
    requires RegistryOk(reg) && ElemOk(reg, |reg|, e) && f.shape == Static(e, n) && !t.Invalid?
    requires DecStatic(reg, e, n, t.Partial?, d, s).Some?
    ensures var v := DecStatic(reg, e, n, t.Partial?, d, s).value.0;
            FineField(reg, f, t, d, out, v) <==> CoherentField(reg, f, t, out, v)
    decreases |s|, Rank(e), 5
  {
    hide RegistryOk, DecRun;
    var rest := Get(8, s).value.1;
    RunGot(reg, e, t.Partial?, d, n, rest);
    var vs := DecRun(reg, e, t.Partial?, d, n, rest).value.0;
    if e.Scalar? {
      ScalarsFine(reg, e, t.Partial?, d, vs, 0);
      ScalarsFine(reg, e, t.Partial?, d, Terminated(vs), 0);
      assert Terminated(Terminated(vs)) == Terminated(vs);
    }
  }

  lemma {:induction false} DynGot(reg: Registry, f: Field, e: Elem, c: Count, t: Treatment, d: nat, out: seq<Value>,
                                  s: Bytes)
    requires RegistryOk(reg) && ElemOk(reg, |reg|, e) && f.shape == Dyn(e, c)
    requires DecDyn(reg, e, Size(c, out, 0), t, f.required, d, s).Some?
    ensures var v := DecDyn(reg, e, Size(c, out, 0), t, f.required, d, s).value.0;
            FineField(reg, f, t, d, out, v) <==> CoherentField(reg, f, t, out, v)
    decreases |s|, Rank(e), 5
  {
    hide RegistryOk, ElemOk, Size, DecRun, Presence, TypedElems, NormalElems, CoherentElems, Base, WidthlessElem;
    var n, bare := Size(c, out, 0), t.Invalid? || WidthlessElem(reg, e, t);
    PresenceGot(f.required, n, s);
    var (present, rest) := Presence(f.required, n, s).value;
    var v := DecDyn(reg, e, n, t, f.required, d, s).value.0;
    if present && !bare {
      RunGot(reg, e, t.Partial?, d, n, rest);
    }
    if bare {
      NoElemsFine(reg, e, t.Partial?);
    }
    ArrayAgrees(f, n, bare, out, v);
    hide Sent, Agrees, AsCounted;
  }

  lemma NoElemsFine(reg: Registry, e: Elem, partial: bool)
    ensures CoherentElems(reg, e, partial, [], 0)
  {
  }

  lemma {:induction false} NestedGot(reg: Registry, f: Field, e: Elem, c: Count, inner: Count, d: nat,
                                     env: seq<Value>, out: seq<Value>, s: Bytes)
    requires RegistryOk(reg) && ElemOk(reg, |reg|, e) && f.shape == Nested(e, c, inner)
    requires forall index: nat :: Size(inner, env, index) == Size(inner, out, index)
    requires DecNested(reg, e, Size(c, out, 0), inner, f.required, d, env, s).Some?
    ensures var v := DecNested(reg, e, Size(c, out, 0), inner, f.required, d, env, s).value.0;
            FineField(reg, f, Valid, d, out, v) <==> CoherentField(reg, f, Valid, out, v)
    decreases |s|, Rank(e), 5
  {
    hide RegistryOk, Size, DecRows, Presence;
    var n := Size(c, out, 0);
    PresenceGot(f.required, n, s);
    var (present, rest) := Presence(f.required, n, s).value;
    var v := DecNested(reg, e, n, inner, f.required, d, env, s).value.0;
    if present {
      RowsLength(reg, e, inner, env, d, 0, n, rest);
      assert v.elems[0..] == v.elems;
      RowsGot(reg, e, inner, d, env, out, 0, n, rest, v.elems);
    }
    ArrayAgrees(f, n, false, out, v);
    hide NormalArray, Sent, Agrees, AsCounted, TypedRows, NormalRows, CoherentRows;
  }

  lemma StrArrayGot(f: Field, c: Count, out: seq<Value>, s: Bytes)
    requires f.shape == StrArray(c) && DecStrArray(Size(c, out, 0), f.required, s).Some?
    ensures var v := DecStrArray(Size(c, out, 0), f.required, s).value.0;
            && GotArray(f, Size(c, out, 0), false, v)
            && (v.Arr? ==> NormalStrings(v.elems) && forall x | x in v.elems :: TypedString(x))
            && (&& NormalArray(f, Size(c, out, 0), Sent(f, out, v), v)
                && (Sent(f, out, v) ==> AsCounted(Size(c, out, 0), v))
                <==> Agrees(f, Size(c, out, 0), out, v))
  {
    hide Size, DecStrings, Presence;
    var n := Size(c, out, 0);
    PresenceGot(f.required, n, s);
    var (present, rest) := Presence(f.required, n, s).value;
    var v := DecStrArray(n, f.required, s).value.0;
    if present {
      StringsGot(n, rest);
    }
    ArrayAgrees(f, n, false, out, v);
  }

  lemma {:induction false} RunGot(reg: Registry, e: Elem, partial: bool, d: nat, n: nat, s: Bytes)
    requires RegistryOk(reg) && ElemOk(reg, |reg|, e) && DecRun(reg, e, partial, d, n, s).Some?
    ensures var vs := DecRun(reg, e, partial, d, n, s).value.0;
            && |vs| == n && (FineElems(reg, e, partial, d, vs) <==> CoherentElems(reg, e, partial, vs, 0))
            && (e.Scalar? ==> forall k | 0 <= k < n :: vs[k].Num? && vs[k].n < Base(e.width))
    decreases |s|, Rank(e), 4
  {
    if Packed(e) {
      var b := GetBlob(n * e.width, s).value.0;
      UnpackFits(e.width, n, b);
      ScalarsFine(reg, e, partial, d, Unpack(e.width, n, b), 0);
    } else {
      ElemsGot(reg, e, partial, d, n, s);
    }
  }

  lemma {:induction false} ElemsGot(reg: Registry, e: Elem, partial: bool, d: nat, n: nat, s: Bytes)
    requires RegistryOk(reg) && ElemOk(reg, |reg|, e) && DecElems(reg, e, partial, d, n, s).Some?
    ensures var vs := DecElems(reg, e, partial, d, n, s).value.0;
            && |vs| == n && (FineElems(reg, e, partial, d, vs) <==> CoherentElems(reg, e, partial, vs, 0))
            && (e.Scalar? ==> forall k | 0 <= k < n :: vs[k].Num? && vs[k].n < Base(e.width))
    decreases |s|, Rank(e), 3, n
  {
    hide RegistryOk, ElemOk, DecElem, TypedElem, NormalElem, CoherentElem, Base;
    if n > 0 {
      var (v, rest) := DecElem(reg, e, partial, d, s).value;
      ElemGot(reg, e, partial, d, s);
      ElemsGot(reg, e, partial, d, n - 1, rest);
      var vs := DecElems(reg, e, partial, d, n - 1, rest).value.0;
      ElemsShifted(reg, e, partial, d, [v] + vs, 0, vs);
      if e.Scalar? { ScalarGot(reg, e, partial, d, s); }
    }
  }

  lemma ScalarGot(reg: Registry, e: Elem, partial: bool, d: nat, s: Bytes)
    requires e.Scalar? && DecElem(reg, e, partial, d, s).Some?
    ensures var v := DecElem(reg, e, partial, d, s).value.0; v.Num? && v.n < Base(e.width)
  {
  }

  /** Elements counted from one on are the elements of the tail. */
  lemma {:induction false} ElemsShifted(reg: Registry, e: Elem, partial: bool, d: nat, all: seq<Value>, k: nat,
                                        tail: seq<Value>)
    requires |all| == |tail| + 1 && all[1..] == tail && k <= |tail|
    ensures TypedElems(reg, e, partial, all, k + 1) == TypedElems(reg, e, partial, tail, k)
    ensures NormalElems(reg, e, partial, d, all, k + 1) == NormalElems(reg, e, partial, d, tail, k)
    ensures CoherentElems(reg, e, partial, all, k + 1) == CoherentElems(reg, e, partial, tail, k)
    decreases |tail| - k
  {
    if k < |tail| {
      assert all[k + 1] == all[1..][k];
      ElemsShifted(reg, e, partial, d, all, k + 1, tail);
    }
  }

  lemma {:induction false} RowsLength(reg: Registry, e: Elem, inner: Count, env: seq<Value>, d: nat, k: nat, n: nat,
                                      s: Bytes)
    requires k <= n && DecRows(reg, e, inner, env, d, k, n, s).Some?
    ensures |DecRows(reg, e, inner, env, d, k, n, s).value.0| == n - k
    decreases n - k
  {
    if k < n {
      var (m, rest) := Get(8, s).value;
      RowsLength(reg, e, inner, env, d, k + 1, n, DecElems(reg, e, false, d, m, rest).value.1);
    }
  }

  /** `all` holds, from row `k` on, what was decoded. */
  lemma {:induction false} RowsGot(reg: Registry, e: Elem, inner: Count, d: nat, env: seq<Value>, out: seq<Value>,
                                   k: nat, n: nat, s: Bytes, all: seq<Value>)
    requires RegistryOk(reg) && ElemOk(reg, |reg|, e) && k <= n == |all|
    requires forall index: nat :: Size(inner, env, index) == Size(inner, out, index)
    requires DecRows(reg, e, inner, env, d, k, n, s).Some?
    requires DecRows(reg, e, inner, env, d, k, n, s).value.0 == all[k..]
    ensures TypedRows(reg, e, inner, out, all, k) && NormalRows(reg, e, d, all, k) <==> CoherentRows(reg, e, all, k)
    decreases |s|, Rank(e), 4, n - k
  {
    hide RegistryOk, ElemOk, Size, DecElems, Get, TypedElems, NormalElems, CoherentElems, Base;
    if k < n {
      GetFits(8, s);
      var (m, rest) := Get(8, s).value;
      ElemsGot(reg, e, false, d, m, rest);
      var (row, rest') := DecElems(reg, e, false, d, m, rest).value;
      assert all[k] == all[k..][0] == Arr(row);
      assert all[k + 1..] == all[k..][1..];
      RowsGot(reg, e, inner, d, env, out, k + 1, n, rest', all);
    }
  }

  /** For every byte string a structure, or its skeleton, is decoded from: the value encodes again and comes
      back as it is, if and only if its ignorable arrays are in step with their conditions. */
  lemma AcceptedSurvives(reg: Registry, i: nat, partial: bool, d: nat, s: Bytes, rest: Bytes)
    requires RegistryOk(reg) && DecStruct(reg, i, partial, d, s).Some?
    ensures var v := DecStruct(reg, i, partial, d, s).value.0;
            Survives(reg, i, partial, d, v, rest) <==> CoherentStruct(reg, i, partial, v)
  {
    StructGot(reg, i, partial, d, s);
    ExactTrip(reg, i, partial, d, DecStruct(reg, i, partial, d, s).value.0, rest);
    hide RegistryOk, Survives, TypedStruct, NormalStruct, CoherentStruct;
  }

  /** The same for commands, as the recipe journal keeps them: what the host decoded encodes to bytes it
      decodes to the same, if and only if the ignorable arrays among its inputs are in step. */
  lemma AcceptedCommand(reg: Registry, cmd: Command, s: Bytes, rest: Bytes)
    requires RegistryOk(reg) && CommandOk(reg, cmd) && Emitted(Fields(cmd), CommandPlan(cmd))
    requires DecCommand(reg, cmd, s).Some?
    ensures var vals := DecCommand(reg, cmd, s).value.0;
            CommandSurvives(reg, cmd, vals, rest) <==>
            CoherentFields(reg, Fields(cmd), CommandPlan(cmd), vals, 0)
  {
    hide RegistryOk, FieldsOk, LengthsFirst, Emitted, DecFields, CommandSurvives, TypedFields, NormalFields;
    hide CoherentFields, CommandPlan;
    FieldsGot(reg, |reg|, Fields(cmd), CommandPlan(cmd), 0, seq(|cmd.params|, _ => Null), 0, s);
    ExactCommand(reg, cmd, DecCommand(reg, cmd, s).value.0, rest);
  }

  /** Such strings exist: here the array is sent although the first member is not 5. */
  lemma IgnoredCondition()
    ensures var fs := [Field(Plain(Scalar(4, false)), true, None),
              Field(Dyn(Scalar(4, false), Const(1)), false, Some(Equals(0, 5)))];
            var reg := [StructDef(None, [], fs, false)];
            var v := Rec([], [Num(1), Arr([Num(9)])]);
            && RegistryOk(reg) && !CoherentStruct(reg, 0, false, v)
            && DecStruct(reg, 0, false, 0, Le(4, 1) + (Le(8, 1) + Le(4, 9))) == Some((v, []))
  {
    var e := Scalar(4, false);
    var fs := [Field(Plain(e), true, None), Field(Dyn(e, Const(1)), false, Some(Equals(0, 5)))];
    var reg := [StructDef(None, [], fs, false)];
    var s2, s1 := Le(4, 9), Le(8, 1) + Le(4, 9);
    var v := Rec([], [Num(1), Arr([Num(9)])]);
    assert !Agrees(fs[1], 1, v.fields, v.fields[1]);
    assert !CoherentField(reg, fs[1], Valid, v.fields, v.fields[1]);
    var plan := BodyPlan(reg[0], false);
    assert CoherentFields(reg, fs, plan, v.fields, 0) ==
             (CoherentField(reg, fs[0], Valid, v.fields, v.fields[0]) && CoherentFields(reg, fs, plan, v.fields, 1));
    assert RegistryOk(reg) by { Bases(); }
    OneDecoded(reg, fs, s1, s2);
  }

  lemma OneDecoded(reg: Registry, fs: seq<Field>, s1: Bytes, s2: Bytes)
    requires fs == [Field(Plain(Scalar(4, false)), true, None),
               Field(Dyn(Scalar(4, false), Const(1)), false, Some(Equals(0, 5)))]
    requires reg == [StructDef(None, [], fs, false)] && s2 == Le(4, 9) && s1 == Le(8, 1) + s2
    ensures DecStruct(reg, 0, false, 0, Le(4, 1) + s1) == Some((Rec([], [Num(1), Arr([Num(9)])]), []))
  {
    hide Get, Le;
    Bases();
    var e := Scalar(4, false);
    var none := seq(2, _ => Null);
    var env1 := none[0 := Num(1)];
    var env2 := env1[1 := Arr([Num(9)])];
    GetPutScalar(4, 1, s1);
    GetPutScalar(4, 9, []);
    assert s2 + [] == s2;
    GetPut(8, 1, s2);
    assert DecElem(reg, e, false, 0, s2) == Some((Num(9), []));
    assert DecElems(reg, e, false, 0, 0, []) == Some(([], []));
    assert [Num(9)] + [] == [Num(9)];
    assert DecElems(reg, e, false, 0, 1, s2) == Some(([Num(9)], []));
    assert DecDyn(reg, e, 1, Valid, false, 0, s1) == Some((Arr([Num(9)]), []));
    assert DecField(reg, 0, fs[1], Valid, false, 0, env1, s1) == Some((Arr([Num(9)]), []));
    assert DecElem(reg, e, false, 0, Le(4, 1) + s1) == Some((Num(1), s1));
    assert DecField(reg, 0, fs[0], Valid, false, 0, none, Le(4, 1) + s1) == Some((Num(1), s1));
    var plan := BodyPlan(reg[0], false);
    assert DecFields(reg, 0, fs, plan, false, 0, env2, 2, []) == Some((env2, []));
    assert DecFields(reg, 0, fs, plan, false, 0, env1, 1, s1) == Some((env2, []));
    assert DecFields(reg, 0, fs, plan, false, 0, none, 0, Le(4, 1) + s1) == Some((env2, []));
    assert env2 == [Num(1), Arr([Num(9)])];
    assert DecBody(reg, 0, false, 0, Le(4, 1) + s1) == Some((env2, []));
  }
}
