/**
  Decoding an encoding, for every accepted registry, every type and every value
  the encoder takes: the decoder reads exactly the encoder's bytes, whatever
  follows them, and answers what `Delivery` says, refusals included.
 */
module RoundTrip {
  import opened Options
  import opened Wire
  import opened Schema
  import opened Codec
  import opened Delivery

  function Deliver<T>(o: Option<T>, rest: Bytes): Read<T> {
    if o.None? then None else Some((o.value, rest))
  }

  // ---- widths --------------------------------------------------------------------

  lemma {:induction false} ElemWide(reg: Registry, e: Elem, partial: bool, v: Value)
    requires RegistryOk(reg) && ElemOk(reg, |reg|, e)
    requires EncElem(reg, e, partial, v).Some?
    requires !(partial && e.Struct? && ZeroWidth(reg, e.ty))
    ensures |EncElem(reg, e, partial, v).value| >= GRANULE
    decreases Rank(e), 0
  {
    match e
    case Scalar(_, _) =>
    case Handle(_) =>
    case Struct(j) => StructWide(reg, j, partial, v);
    case Union(u) => assert TypeOk(reg, u);
  }

  /** A skeleton that is not marked zero-width has bytes, and so has every whole structure. */
  lemma {:induction false} StructWide(reg: Registry, i: nat, partial: bool, v: Value)
    requires RegistryOk(reg) && IsStruct(reg, i)
    requires EncStruct(reg, i, partial, v).Some?
    requires !(partial && ZeroWidth(reg, i))
    ensures |EncStruct(reg, i, partial, v).value| >= GRANULE
    decreases i, 2
  {
    assert TypeOk(reg, i);
    if reg[i].stype.None? {
      var fs, plan := reg[i].fields, BodyPlan(reg[i], partial);
      var k := 0;
      if partial && reg[i].skeleton {
        k :| 0 <= k < |fs| && !WidthlessField(reg, i, fs, k);
      }
      assert EncBody(reg, reg[i], partial, v.fields) == EncFields(reg, fs, plan, v.fields, 0);
      FieldsInclude(reg, fs, plan, v.fields, 0, k);
      assert ShapeOk(reg, i, fs, fs[k].shape);
      FieldWide(reg, i, fs, fs[k], plan[k], v.fields, v.fields[k]);
    }
  }

  lemma {:induction false} FieldsInclude(reg: Registry, fs: seq<Field>, plan: seq<Treatment>, vals: seq<Value>,
                                         j: nat, k: nat)
    requires |plan| == |fs| == |vals| && j <= k < |fs| && !plan[k].Skipped?
    requires EncFields(reg, fs, plan, vals, j).Some?
    ensures EncField(reg, fs[k], plan[k], vals, vals[k]).Some?
    ensures |EncFields(reg, fs, plan, vals, j).value| >= |EncField(reg, fs[k], plan[k], vals, vals[k]).value|
    decreases k - j
  {
    if j < k {
      FieldsInclude(reg, fs, plan, vals, j + 1, k);
    }
  }

  lemma {:induction false} FieldWide(reg: Registry, below: nat, fs: seq<Field>, f: Field, t: Treatment,
                                     vals: seq<Value>, v: Value)
    requires RegistryOk(reg) && below <= |reg| && ShapeOk(reg, below, fs, f.shape)
    requires EncField(reg, f, t, vals, v).Some?
    requires t.Invalid? ==> !f.shape.Plain? && !f.shape.Stride? && !f.shape.Selected? && !f.shape.Static?
    requires f.shape.Plain? ==> !WidthlessElem(reg, f.shape.elem, t)
    ensures |EncField(reg, f, t, vals, v).value| >= GRANULE
    decreases below, 1
  {
    hide EncRun, EncRows, EncStrings, Sent, Size, CountOk, Le, Base, EncElem;
    match f.shape
    case Plain(e) => ElemWide(reg, e, t.Partial?, v);
    case Selected(u, _) => assert TypeOk(reg, u);
    case Dyn(e, c) => assert EncDyn(reg, f, e, Size(c, vals, 0), t, vals, v).Some?;
    case _ =>
  }

  lemma {:induction false} ElemsWide(reg: Registry, e: Elem, partial: bool, vs: seq<Value>, k: nat)
    requires RegistryOk(reg) && ElemOk(reg, |reg|, e) && k <= |vs|
    requires EncElems(reg, e, partial, vs, k).Some?
    requires !(partial && e.Struct? && ZeroWidth(reg, e.ty))
    ensures |EncElems(reg, e, partial, vs, k).value| >= GRANULE * (|vs| - k)
    decreases |vs| - k
  {
    if k < |vs| {
      ElemWide(reg, e, partial, vs[k]);
      ElemsWide(reg, e, partial, vs, k + 1);
    }
  }

  /** A structure marked zero-width has an empty skeleton, whatever it holds. */
  lemma {:induction false} ZeroWidthEmpty(reg: Registry, i: nat, v: Value)
    requires ZeroWidth(reg, i)
    requires EncStruct(reg, i, true, v).Some?
    ensures EncStruct(reg, i, true, v).value == []
    decreases i, 1
  {
    assert EncBody(reg, reg[i], true, v.fields).Some?;
    WidthlessFields(reg, i, v.fields, 0);
  }

  lemma {:induction false} WidthlessFields(reg: Registry, i: nat, vals: seq<Value>, k: nat)
    requires ZeroWidth(reg, i) && |vals| == |reg[i].fields| && k <= |vals|
    requires EncFields(reg, reg[i].fields, SkeletonPlan(reg[i].fields), vals, k).Some?
    ensures EncFields(reg, reg[i].fields, SkeletonPlan(reg[i].fields), vals, k).value == []
    decreases i, 0, |vals| - k
  {
    var fs := reg[i].fields;
    if k < |fs| {
      assert WidthlessField(reg, i, fs, k);
      if fs[k].shape.Plain? && !Uninitialised(fs, k).Invalid? {
        assert EncElem(reg, fs[k].shape.elem, true, vals[k]).Some?;
        ZeroWidthEmpty(reg, fs[k].shape.elem.ty, vals[k]);
      }
      WidthlessFields(reg, i, vals, k + 1);
    }
  }

  // ---- counts survive --------------------------------------------------------------

  lemma {:induction false} FieldsOut(reg: Registry, fs: seq<Field>, plan: seq<Treatment>, driver: bool, d: nat,
                                     vals: seq<Value>, env: seq<Value>, k: nat, j: nat)
    requires |plan| == |fs| == |vals| == |env| && k <= |fs| && j < |fs|
    requires ArriveFields(reg, fs, plan, driver, d, vals, env, k).Some?
    ensures var out := ArriveFields(reg, fs, plan, driver, d, vals, env, k).value;
            if j < k || plan[j].Skipped? then out[j] == env[j]
            else ArriveField(reg, fs[j], plan[j], driver, d, vals, vals[j]) == Some(out[j])
    decreases |fs| - k
  {
    if k < |fs| {
      if plan[k].Skipped? {
        FieldsOut(reg, fs, plan, driver, d, vals, env, k + 1, j);
      } else {
        var w := ArriveField(reg, fs[k], plan[k], driver, d, vals, vals[k]).value;
        FieldsOut(reg, fs, plan, driver, d, vals, env[k := w], k + 1, j);
      }
    }
  }

  /** A scalar member of a whole structure arrives as it was sent. */
  lemma MemberKept(reg: Registry, i: nat, d: nat, v: Value, m: nat)
    requires IsStruct(reg, i) && PlainScalar(reg[i].fields, m)
    requires ArriveStruct(reg, i, false, d, v).Some?
    ensures MemberNum(ArriveStruct(reg, i, false, d, v).value, m) == MemberNum(v, m)
  {
    var fs := reg[i].fields;
    assert ArriveBody(reg, reg[i], false, d, v.fields).Some?;
    FieldsOut(reg, fs, BodyPlan(reg[i], false), false, d, v.fields, seq(|v.fields|, _ => Null), 0, m);
  }

  lemma {:induction false} ElemsAt(reg: Registry, e: Elem, partial: bool, d: nat, vs: seq<Value>, k: nat, i: nat)
    requires k <= i < |vs|
    requires ArriveElems(reg, e, partial, d, vs, k).Some?
    ensures ArriveElem(reg, e, partial, d, vs[i]) == Some(ArriveElems(reg, e, partial, d, vs, k).value[i - k])
    decreases i - k
  {
    if k < i {
      ElemsAt(reg, e, partial, d, vs, k + 1, i);
    }
  }

  lemma CountKept(reg: Registry, fs: seq<Field>, c: Count, driver: bool, d: nat, vals: seq<Value>, v: Value, index: nat)
    requires CountOk(reg, fs, c) && !c.Const? && c.field < |fs|
    requires EncField(reg, fs[c.field], Valid, vals, v).Some?
    requires ArriveField(reg, fs[c.field], Valid, driver, d, vals, v).Some?
    ensures CountOf(c, ArriveField(reg, fs[c.field], Valid, driver, d, vals, v).value, index) == CountOf(c, v, index)
  {
    var f := fs[c.field];
    if f.shape.Plain? {
      assert ArriveElem(reg, f.shape.elem, false, d, v) == Some(v);
    } else if f.shape.Ptr? {
      PointedKept(reg, c, f.required && !driver, d, f.shape.elem, v, index);
    } else {
      RunKept(reg, f, c, f.required && !driver, d, Size(f.shape.count, vals, 0), vals, v, index);
    }
  }

  lemma PointedKept(reg: Registry, c: Count, required: bool, d: nat, e: Elem, v: Value, index: nat)
    requires (c.Member? && e.Scalar?) || (c.Through? && StructMember(reg, e, c.member))
    requires EncPtr(reg, e, Valid, v).Some? && ArrivePtr(reg, e, Valid, required, d, v).Some?
    ensures CountOf(c, ArrivePtr(reg, e, Valid, required, d, v).value, index) == CountOf(c, v, index)
  {
    if v.Ref? && c.Through? {
      MemberKept(reg, e.ty, d, v.target, c.member);
    }
  }

  lemma RunKept(reg: Registry, f: Field, c: Count, required: bool, d: nat, n: nat, vals: seq<Value>, v: Value,
                index: nat)
    requires f.shape.Dyn? && f.cond.None? && c.Indexed? && StructMember(reg, f.shape.elem, c.member)
    requires EncDyn(reg, f, f.shape.elem, n, Valid, vals, v).Some?
    requires ArriveDyn(reg, f, f.shape.elem, n, Valid, required, d, vals, v).Some?
    ensures CountOf(c, ArriveDyn(reg, f, f.shape.elem, n, Valid, required, d, vals, v).value, index) ==
              CountOf(c, v, index)
  {
    hide EncRun, ArriveStruct;
    if v.Arr? && index < |v.elems| {
      ElemsAt(reg, f.shape.elem, false, d, v.elems, 0, index);
      MemberKept(reg, f.shape.elem.ty, d, v.elems[index], c.member);
    }
  }

  // ---- runs -------------------------------------------------------------------------

  lemma {:induction false} PackTrip(w: nat, vs: seq<Value>)
    requires Pack(w, vs).Some?
    ensures Unpack(w, |vs|, Pack(w, vs).value) == vs
  {
    if vs != [] {
      var b := Pack(w, vs).value;
      PackTrip(w, vs[1..]);
      FromLeLe(w, vs[0].n);
      assert b[..w] == Le(w, vs[0].n);
      assert b[w..] == Pack(w, vs[1..]).value;
      assert |vs| * w == w + (|vs| - 1) * w;
    }
  }

  lemma {:induction false} ScalarsArrive(reg: Registry, e: Elem, partial: bool, d: nat, vs: seq<Value>, k: nat)
    requires e.Scalar? && k <= |vs|
    ensures ArriveElems(reg, e, partial, d, vs, k) == Some(vs[k..])
    decreases |vs| - k
  {
    if k == |vs| {
      assert vs[k..] == [];
    } else {
      ScalarsArrive(reg, e, partial, d, vs, k + 1);
      assert vs[k..] == [vs[k]] + vs[k + 1..];
    }
  }

  lemma {:induction false} StringsTrip(vs: seq<Value>, rest: Bytes)
    requires EncStrings(vs).Some?
    ensures DecStrings(|vs|, EncStrings(vs).value + rest) == Some((CutAll(vs), rest))
    ensures |EncStrings(vs).value| >= GRANULE * |vs|
  {
    hide Get, GetString, Le, Pad;
    if vs == [] {
      assert [] + rest == rest;
    } else {
      var tail := EncStrings(vs[1..]).value;
      var b := vs[0].bytes;
      StringsTrip(vs[1..], rest);
      assert EncStrings(vs).value + rest == Le(8, |b| + 1) + (Pad(b + [0]) + (tail + rest));
      GetPut(8, |b| + 1, Pad(b + [0]) + (tail + rest));
      GetPutString(b, tail + rest);
    }
  }

  // ---- the round trip -----------------------------------------------------------------

  lemma {:induction false} ElemTrip(reg: Registry, e: Elem, partial: bool, d: nat, v: Value, rest: Bytes)
    requires RegistryOk(reg) && ElemOk(reg, |reg|, e)
    requires EncElem(reg, e, partial, v).Some?
    ensures DecElem(reg, e, partial, d, EncElem(reg, e, partial, v).value + rest)
         == Deliver(ArriveElem(reg, e, partial, d, v), rest)
    decreases v, 1, 0
  {
    hide Get, GetScalar, Le;
    match e
    case Scalar(w, _) => GetPutScalar(w, v.n, rest);
    case Handle(_) => GetPut(8, v.n, rest);
    case Struct(j) => StructTrip(reg, j, partial, d, v, rest);
    case Union(u) => UnionTrip(reg, u, d, reg[u].cases[v.case_].tags[0], v, rest);
  }

  lemma {:induction false} UnionTrip(reg: Registry, u: nat, d: nat, tag: nat, v: Value, rest: Bytes)
    requires RegistryOk(reg)
    requires EncUnion(reg, u, tag, v).Some?
    ensures DecUnion(reg, u, d, EncUnion(reg, u, tag, v).value + rest)
         == var w := ArriveUnion(reg, u, d, v); if w.None? then None else Some(((tag, w.value), rest))
    decreases v, 0
  {
    hide Get, Le;
    assert TypeOk(reg, u);
    assert TagsOk(reg[u].tagWidth, reg[u].cases, v.case_);
    var f := reg[u].cases[v.case_].member;
    var body := EncField(reg, f, Valid, [], v.member).value;
    assert EncUnion(reg, u, tag, v).value + rest == Le(reg[u].tagWidth, tag) + (body + rest);
    GetPut(reg[u].tagWidth, tag, body + rest);
    FieldTrip(reg, u, [], f, Valid, false, d, [], [], v.member, rest);
  }

  lemma {:induction false} StructTrip(reg: Registry, i: nat, partial: bool, d: nat, v: Value, rest: Bytes)
    requires RegistryOk(reg)
    requires EncStruct(reg, i, partial, v).Some?
    ensures DecStruct(reg, i, partial, d, EncStruct(reg, i, partial, v).value + rest)
         == Deliver(ArriveStruct(reg, i, partial, d, v), rest)
    decreases v, 0
  {
    hide EncHead, DecHead, ArriveLinks, EncBody, DecBody, ArriveBody, RegistryOk;
    var head := EncHead(reg, reg[i], partial, v.links).value;
    var body := EncBody(reg, reg[i], partial, v.fields).value;
    assert EncStruct(reg, i, partial, v).value + rest == head + (body + rest);
    HeadTrip(reg, i, partial, d, v.links, body + rest);
    BodyTrip(reg, i, partial, d, v.fields, rest);
  }

  lemma {:induction false} HeadTrip(reg: Registry, i: nat, partial: bool, d: nat, links: seq<Link>, rest: Bytes)
    requires RegistryOk(reg) && IsStruct(reg, i)
    requires EncHead(reg, reg[i], partial, links).Some?
    ensures DecHead(reg, reg[i], partial, d, EncHead(reg, reg[i], partial, links).value + rest)
         == Deliver(ArriveLinks(reg, reg[i].chain, partial, d, links), rest)
    decreases links, |links| + 1, 1
  {
    hide Get, Le, DecLinks, ArriveLinks, EncChain;
    assert TypeOk(reg, i);
    var def := reg[i];
    if def.stype.None? {
      assert [] + rest == rest;
      assert ArriveLinks(reg, [], partial, d, []) == Some([]) by { NoLinks(reg, partial, d); }
    } else {
      var chain := EncChain(reg, def.chain, partial, links).value;
      assert EncHead(reg, def, partial, links).value + rest == Le(4, def.stype.value) + (chain + rest);
      GetPut(4, def.stype.value, chain + rest);
      LinksTrip(reg, i, partial, d, links, rest);
    }
  }

  lemma NoLinks(reg: Registry, partial: bool, d: nat)
    ensures ArriveLinks(reg, [], partial, d, []) == Some([])
  {
  }

  lemma {:induction false} LinksTrip(reg: Registry, i: nat, partial: bool, d: nat, links: seq<Link>, rest: Bytes)
    requires RegistryOk(reg) && IsStruct(reg, i)
    requires EncChain(reg, reg[i].chain, partial, links).Some?
    ensures DecLinks(reg, reg[i].chain, partial, d, EncChain(reg, reg[i].chain, partial, links).value + rest)
         == Deliver(ArriveLinks(reg, reg[i].chain, partial, d, links), rest)
    decreases links, |links| + 1, 0
  {
    hide Get, Le, RegistryOk, DistinctLinks;
    var chain := reg[i].chain;
    var heads, bodies := LinkHeads(reg, links), EncBodies(reg, chain, partial, links).value;
    assert heads + (Le(8, 0) + bodies) + rest == heads + (Le(8, 0) + (bodies + rest));
    if chain == [] {
      if links != [] {
        assert EncLink(reg, chain, partial, links[0]).Some?;
      }
      assert heads + (Le(8, 0) + (bodies + rest)) == Le(8, 0) + rest;
      GetPut(8, 0, rest);
    } else {
      ChainTrip(reg, i, partial, d, links, rest);
      if ArriveChain(reg, chain, partial, d, links).Some? {
        ChainTypes(reg, chain, partial, d, links);
      }
    }
  }

  lemma {:induction false} ChainTypes(reg: Registry, chain: seq<nat>, partial: bool, d: nat, links: seq<Link>)
    requires ArriveChain(reg, chain, partial, d, links).Some?
    ensures var out := ArriveChain(reg, chain, partial, d, links).value;
            && |out| == |links|
            && (forall a | 0 <= a < |links| :: out[a].ty == links[a].ty)
            && (DistinctLinks(reg, out) <==> DistinctLinks(reg, links))
    decreases |links|
  {
    if links != [] {
      ChainTypes(reg, chain, partial, d + 1, links[1..]);
      assert ArriveLink(reg, chain, partial, d, links[0]).Some?;
    }
  }

  lemma {:induction false} Admits(reg: Registry, chain: seq<nat>, ty: nat)
    requires ty in chain && StypeOf(reg, ty).Some?
    requires forall a, b | 0 <= a < b < |chain| :: StypeOf(reg, chain[a]) != StypeOf(reg, chain[b])
    ensures Admitted(reg, chain, StypeOf(reg, ty).value) == Some(ty)
  {
    if chain[0] != ty {
      Admits(reg, chain[1..], ty);
    }
  }

  lemma LinkKnown(reg: Registry, i: nat, partial: bool, l: Link)
    requires RegistryOk(reg) && IsStruct(reg, i)
    requires EncLink(reg, reg[i].chain, partial, l).Some?
    ensures IsStruct(reg, l.ty) && StypeOf(reg, l.ty).Some? && StypeOf(reg, l.ty).value < Base(4) && 1 < Base(8)
    ensures Admitted(reg, reg[i].chain, StypeOf(reg, l.ty).value) == Some(l.ty)
  {
    assert TypeOk(reg, i);
    var a :| 0 <= a < |reg[i].chain| && reg[i].chain[a] == l.ty;
    assert TypeOk(reg, l.ty);
    Admits(reg, reg[i].chain, l.ty);
    Bases();
  }

  lemma Regroup(a: Bytes, b: Bytes, heads: Bytes, zero: Bytes, bodies: Bytes, first: Bytes, rest: Bytes)
    ensures ((a + b) + heads) + (zero + ((bodies + first) + rest)) ==
              a + (b + (heads + (zero + (bodies + (first + rest)))))
  {
  }

  lemma {:induction false} ChainTrip(reg: Registry, i: nat, partial: bool, d: nat, links: seq<Link>, rest: Bytes)
    requires RegistryOk(reg) && IsStruct(reg, i)
    requires EncBodies(reg, reg[i].chain, partial, links).Some?
    ensures DecChain(reg, reg[i].chain, partial, d,
                     LinkHeads(reg, links) + (Le(8, 0) + (EncBodies(reg, reg[i].chain, partial, links).value + rest)))
         == Deliver(ArriveChain(reg, reg[i].chain, partial, d, links), rest)
    decreases links, |links|
  {
    hide Get, Le, EncLink, DecBody, ArriveLink, RegistryOk, Admitted;
    var chain := reg[i].chain;
    if links == [] {
      assert LinkHeads(reg, links) + (Le(8, 0) + ([] + rest)) == Le(8, 0) + rest;
      GetPut(8, 0, rest);
    } else {
      var l, tail := links[0], links[1..];
      LinkKnown(reg, i, partial, l);
      var stype := StypeOf(reg, l.ty).value;
      var first, bodies := EncLink(reg, chain, partial, l).value, EncBodies(reg, chain, partial, tail).value;
      var after := LinkHeads(reg, tail) + (Le(8, 0) + (bodies + (first + rest)));
      Regroup(Le(8, 1), Le(4, stype), LinkHeads(reg, tail), Le(8, 0), bodies, first, rest);
      GetPut(8, 1, Le(4, stype) + after);
      GetPut(4, stype, after);
      ChainTrip(reg, i, partial, d + 1, tail, first + rest);
      LinkTrip(reg, chain, partial, d, l, rest);
    }
  }

  lemma {:induction false} LinkTrip(reg: Registry, chain: seq<nat>, partial: bool, d: nat, l: Link, rest: Bytes)
    requires RegistryOk(reg)
    requires EncLink(reg, chain, partial, l).Some?
    ensures DecBody(reg, l.ty, partial, d, EncLink(reg, chain, partial, l).value + rest)
         == Deliver(var w := ArriveLink(reg, chain, partial, d, l);
                    if w.None? then None else Some(w.value.body.fields), rest)
    ensures ArriveLink(reg, chain, partial, d, l).Some? ==>
              ArriveLink(reg, chain, partial, d, l).value ==
                Link(l.ty, Rec([], ArriveLink(reg, chain, partial, d, l).value.body.fields))
    decreases l
  {
    BodyTrip(reg, l.ty, partial, d, l.body.fields, rest);
  }

  lemma {:induction false} BodyTrip(reg: Registry, i: nat, partial: bool, d: nat, vals: seq<Value>, rest: Bytes)
    requires RegistryOk(reg) && IsStruct(reg, i)
    requires EncBody(reg, reg[i], partial, vals).Some?
    ensures DecBody(reg, i, partial, d, EncBody(reg, reg[i], partial, vals).value + rest)
         == Deliver(ArriveBody(reg, reg[i], partial, d, vals), rest)
    decreases vals, |vals| + 1
  {
    PlanReadable(reg, i, partial);
    NothingRead(reg, reg[i], partial, vals);
    hide RegistryOk, FieldsOk, Readable, Bound, BodyPlan, EncFields, DecFields, ArriveFields;
    var fs := reg[i].fields;
    FieldsTrip(reg, i, fs, BodyPlan(reg[i], partial), false, d, vals, seq(|vals|, _ => Null), 0, rest);
  }

  /** Before the first field of a body there is nothing yet to agree on. */
  lemma NothingRead(reg: Registry, def: TypeDef, partial: bool, vals: seq<Value>)
    requires def.StructDef? && |vals| == |def.fields|
    ensures Bound(reg, def.fields, BodyPlan(def, partial), vals, seq(|vals|, _ => Null), 0)
  {
    hide CountOk, CountOf;
  }

  /** Every count a planned field reads is itself sent whole and earlier, or is not sent at all. */
  predicate Readable(fs: seq<Field>, plan: seq<Treatment>)
    requires |plan| == |fs|
  {
    && (forall k, c | 0 <= k < |fs| && !plan[k].Skipped? && c in Counts(fs[k].shape) && !c.Const? && c.field < |fs| ::
          plan[c.field].Skipped? || (plan[c.field].Valid? && c.field < k))
    && (forall k | 0 <= k < |fs| && fs[k].shape.Selected? && !plan[k].Skipped? && fs[k].shape.selector < |fs| ::
          plan[k].Valid? && plan[fs[k].shape.selector].Valid?)
  }

  lemma PlanReadable(reg: Registry, i: nat, partial: bool)
    requires RegistryOk(reg) && IsStruct(reg, i)
    ensures FieldsOk(reg, i, reg[i].fields)
    ensures Readable(reg[i].fields, BodyPlan(reg[i], partial))
  {
    assert TypeOk(reg, i);
    var fs, plan := reg[i].fields, BodyPlan(reg[i], partial);
    forall k, c | 0 <= k < |fs| && c in Counts(fs[k].shape) && !c.Const? && c.field < |fs|
      ensures plan[c.field].Valid? && c.field < k
    {
      assert Names(fs[k].shape, c.field);
    }
    forall k | 0 <= k < |fs| && fs[k].shape.Selected?
      ensures plan == FullPlan(fs)
    {
      assert reg[i].skeleton ==> Emits(fs[k].shape, Uninitialised(fs, k));
    }
  }

  /** What is bound on the receiver's side counts as the sender's values do. */
  ghost predicate Bound(reg: Registry, fs: seq<Field>, plan: seq<Treatment>, vals: seq<Value>, env: seq<Value>, k: nat)
    requires |plan| == |fs| == |vals| == |env|
  {
    && (forall c: Count, index: nat | CountOk(reg, fs, c) && !c.Const? && c.field < |fs|
                                      && (plan[c.field].Skipped? || (plan[c.field].Valid? && c.field < k)) ::
          CountOf(c, env[c.field], index) == CountOf(c, vals[c.field], index))
    && (forall j | 0 <= j < k && j < |fs| && plan[j].Valid? && PlainScalar(fs, j) :: env[j] == vals[j])
  }

  lemma CountsAgree(reg: Registry, below: nat, fs: seq<Field>, plan: seq<Treatment>, vals: seq<Value>,
                    env: seq<Value>, k: nat)
    requires FieldsOk(reg, below, fs) && |plan| == |fs| == |vals| == |env| && k < |fs| && !plan[k].Skipped?
    requires Readable(fs, plan) && Bound(reg, fs, plan, vals, env, k)
    ensures forall c, index: nat | c in Counts(fs[k].shape) :: Size(c, env, index) == Size(c, vals, index)
  {
    assert ShapeOk(reg, below, fs, fs[k].shape);
    forall c, index: nat | c in Counts(fs[k].shape)
      ensures Size(c, env, index) == Size(c, vals, index)
    {
      assert CountOk(reg, fs, c);
      if !c.Const? {
        assert CountOf(c, env[c.field], index) == CountOf(c, vals[c.field], index);
      }
    }
  }

  lemma {:induction false} FieldsTrip(reg: Registry, below: nat, fs: seq<Field>, plan: seq<Treatment>, driver: bool,
                                      d: nat, vals: seq<Value>, env: seq<Value>, k: nat, rest: Bytes)
    requires RegistryOk(reg) && below <= |reg| && FieldsOk(reg, below, fs)
    requires |plan| == |fs| == |vals| == |env| && k <= |fs|
    requires Readable(fs, plan) && Bound(reg, fs, plan, vals, env, k)
    requires EncFields(reg, fs, plan, vals, k).Some?
    ensures DecFields(reg, below, fs, plan, driver, d, env, k, EncFields(reg, fs, plan, vals, k).value + rest)
         == Deliver(ArriveFields(reg, fs, plan, driver, d, vals, env, k), rest)
    decreases vals, |vals| - k
  {
    hide Readable, Bound, FieldsOk;
    if k == |fs| {
      assert [] + rest == rest;
    } else if plan[k].Skipped? {
      assert Bound(reg, fs, plan, vals, env, k + 1) by { BoundSkip(reg, fs, plan, vals, env, k); }
      FieldsTrip(reg, below, fs, plan, driver, d, vals, env, k + 1, rest);
    } else {
      var first := EncField(reg, fs[k], plan[k], vals, vals[k]).value;
      var after := EncFields(reg, fs, plan, vals, k + 1).value;
      assert (first + after) + rest == first + (after + rest);
      var w := ArriveField(reg, fs[k], plan[k], driver, d, vals, vals[k]);
      if w.Some? {
        BoundStep(reg, fs, plan, driver, d, vals, env, k);
        FieldsTrip(reg, below, fs, plan, driver, d, vals, env[k := w.value], k + 1, rest);
      }
      FieldStep(reg, below, fs, plan, driver, d, vals, env, k, after + rest);
    }
  }

  /** Field `k` on its own, and the check a selected union leaves for after the body. */
  lemma {:induction false} FieldStep(reg: Registry, below: nat, fs: seq<Field>, plan: seq<Treatment>, driver: bool,
                                     d: nat, vals: seq<Value>, env: seq<Value>, k: nat, rest: Bytes)
    requires RegistryOk(reg) && below <= |reg| && FieldsOk(reg, below, fs)
    requires |plan| == |fs| == |vals| == |env| && k < |fs| && !plan[k].Skipped?
    requires Readable(fs, plan) && Bound(reg, fs, plan, vals, env, k)
    requires EncField(reg, fs[k], plan[k], vals, vals[k]).Some?
    ensures var w := ArriveField(reg, fs[k], plan[k], driver, d, vals, vals[k]);
            var s := EncField(reg, fs[k], plan[k], vals, vals[k]).value + rest;
            if !fs[k].shape.Selected? then DecField(reg, below, fs[k], plan[k], driver, d, env, s) == Deliver(w, rest)
            else
              var sel := fs[k].shape.selector;
              && fs[k].shape.union < below && sel < |fs| && vals[sel].Num?
              && DecUnion(reg, fs[k].shape.union, d, s) ==
                (if w.None? then None else Some(((vals[sel].n, w.value), rest)))
              && var out := ArriveFields(reg, fs, plan, driver, d, vals, env, k); out.Some? ==>
                out.value[sel] == vals[sel]
    decreases vals, 0
  {
    assert ShapeOk(reg, below, fs, fs[k].shape);
    if fs[k].shape.Selected? {
      UnionTrip(reg, fs[k].shape.union, d, vals[fs[k].shape.selector].n, vals[k], rest);
      if ArriveFields(reg, fs, plan, driver, d, vals, env, k).Some? {
        FieldsOut(reg, fs, plan, driver, d, vals, env, k, fs[k].shape.selector);
      }
    } else {
      CountsAgree(reg, below, fs, plan, vals, env, k);
      FieldTrip(reg, below, fs, fs[k], plan[k], driver, d, vals, env, vals[k], rest);
    }
  }

  lemma BoundSkip(reg: Registry, fs: seq<Field>, plan: seq<Treatment>, vals: seq<Value>, env: seq<Value>, k: nat)
    requires |plan| == |fs| == |vals| == |env| && k < |fs| && plan[k].Skipped?
    requires Bound(reg, fs, plan, vals, env, k)
    ensures Bound(reg, fs, plan, vals, env, k + 1)
  {
  }

  lemma BoundStep(reg: Registry, fs: seq<Field>, plan: seq<Treatment>, driver: bool,
                  d: nat, vals: seq<Value>, env: seq<Value>, k: nat)
    requires |plan| == |fs| == |vals| == |env| && k < |fs| && !plan[k].Skipped?
    requires Bound(reg, fs, plan, vals, env, k)
    requires EncField(reg, fs[k], plan[k], vals, vals[k]).Some?
    requires ArriveField(reg, fs[k], plan[k], driver, d, vals, vals[k]).Some?
    ensures var w := ArriveField(reg, fs[k], plan[k], driver, d, vals, vals[k]).value;
            Bound(reg, fs, plan, vals, env[k := w], k + 1)
  {
    var w := ArriveField(reg, fs[k], plan[k], driver, d, vals, vals[k]).value;
    var env' := env[k := w];
    forall c: Count, index: nat | CountOk(reg, fs, c) && !c.Const? && c.field < |fs|
                                  && (plan[c.field].Skipped? || (plan[c.field].Valid? && c.field < k + 1))
      ensures CountOf(c, env'[c.field], index) == CountOf(c, vals[c.field], index)
    {
      if c.field == k {
        CountKept(reg, fs, c, driver, d, vals, vals[k], index);
      } else {
        assert CountOf(c, env[c.field], index) == CountOf(c, vals[c.field], index);
      }
    }
    if plan[k].Valid? && PlainScalar(fs, k) {
      assert ArriveElem(reg, fs[k].shape.elem, false, d, vals[k]) == Some(vals[k]);
    }
  }

  lemma {:induction false} FieldTrip(reg: Registry, below: nat, fs: seq<Field>, f: Field, t: Treatment, driver: bool,
                                     d: nat, vals: seq<Value>, env: seq<Value>, v: Value, rest: Bytes)
    requires RegistryOk(reg) && below <= |reg| && ShapeOk(reg, below, fs, f.shape)
    requires !f.shape.Selected?
    requires forall c, index: nat | c in Counts(f.shape) :: Size(c, env, index) == Size(c, vals, index)
    requires EncField(reg, f, t, vals, v).Some?
    ensures DecField(reg, below, f, t, driver, d, env, EncField(reg, f, t, vals, v).value + rest)
         == Deliver(ArriveField(reg, f, t, driver, d, vals, v), rest)
    decreases v, 2
  {
    hide EncField, DecField, ArriveField;
    if f.shape.Plain? || f.shape.Static? {
      ValueTrip(reg, below, fs, f, t, driver, d, vals, env, v, rest);
    } else if f.shape.Dyn? || f.shape.Nested? || f.shape.StrArray? {
      ArrayTrip(reg, below, fs, f, t, driver, d, vals, env, v, rest);
    } else {
      MarkerTrip(reg, below, fs, f, t, driver, d, vals, env, v, rest);
    }
  }

  lemma {:induction false} ValueTrip(reg: Registry, below: nat, fs: seq<Field>, f: Field, t: Treatment, driver: bool,
                                     d: nat, vals: seq<Value>, env: seq<Value>, v: Value, rest: Bytes)
    requires RegistryOk(reg) && below <= |reg| && ShapeOk(reg, below, fs, f.shape)
    requires f.shape.Plain? || f.shape.Static?
    requires EncField(reg, f, t, vals, v).Some?
    ensures DecField(reg, below, f, t, driver, d, env, EncField(reg, f, t, vals, v).value + rest)
         == Deliver(ArriveField(reg, f, t, driver, d, vals, v), rest)
    decreases v, 1, 1
  {
    hide EncStatic, DecStatic, ArriveStatic, EncElem, DecElem, ArriveElem, DefaultElem, RegistryOk;
    if t.Invalid? {
      assert [] + rest == rest;
    } else if f.shape.Plain? {
      ElemTrip(reg, f.shape.elem, t.Partial?, d, v, rest);
    } else {
      StaticTrip(reg, f.shape.elem, f.shape.n, t.Partial?, d, v, rest);
    }
  }

  lemma {:induction false} MarkerTrip(reg: Registry, below: nat, fs: seq<Field>, f: Field, t: Treatment, driver: bool,
                                      d: nat, vals: seq<Value>, env: seq<Value>, v: Value, rest: Bytes)
    requires RegistryOk(reg) && below <= |reg| && ShapeOk(reg, below, fs, f.shape)
    requires f.shape.NullOnly? || f.shape.Stride? || f.shape.Ptr? || f.shape.Str?
    requires EncField(reg, f, t, vals, v).Some?
    ensures DecField(reg, below, f, t, driver, d, env, EncField(reg, f, t, vals, v).value + rest)
         == Deliver(ArriveField(reg, f, t, driver, d, vals, v), rest)
    decreases v, 1, 1
  {
    hide Le, EncPtr, DecPtr, ArrivePtr, EncStr, DecStr, Cut, DecNullOnly, DecStride, RegistryOk;
    if f.shape.Ptr? {
      PtrTrip(reg, f.shape.elem, t, f.required && !driver, d, v, rest);
    } else if f.shape.Str? {
      StrTrip(v, rest);
    } else if f.shape.Stride? {
      StrideTrip(f.shape.size, t, rest);
    } else {
      NullOnlyTrip(f.required && !f.shape.allocator, rest);
    }
  }

  lemma StrideTrip(size: nat, t: Treatment, rest: Bytes)
    requires size < Base(4)
    ensures DecStride(size, t, (if t.Invalid? then [] else Le(4, size)) + rest)
         == if t.Invalid? && size != 0 then None else Some((Num(size), rest))
  {
    assert [] + rest == rest;
    GetPut(4, size, rest);
  }

  lemma NullOnlyTrip(required: bool, rest: Bytes)
    ensures DecNullOnly(required, Le(8, 0) + rest) == if required then None else Some((Null, rest))
  {
    GetPut(8, 0, rest);
  }

  lemma {:induction false} ArrayTrip(reg: Registry, below: nat, fs: seq<Field>, f: Field, t: Treatment, driver: bool,
                                     d: nat, vals: seq<Value>, env: seq<Value>, v: Value, rest: Bytes)
    requires RegistryOk(reg) && below <= |reg| && ShapeOk(reg, below, fs, f.shape)
    requires f.shape.Dyn? || f.shape.Nested? || f.shape.StrArray?
    requires forall c, index: nat | c in Counts(f.shape) :: Size(c, env, index) == Size(c, vals, index)
    requires EncField(reg, f, t, vals, v).Some?
    ensures DecField(reg, below, f, t, driver, d, env, EncField(reg, f, t, vals, v).value + rest)
         == Deliver(ArriveField(reg, f, t, driver, d, vals, v), rest)
    decreases v, 1, 1
  {
    hide Size, EncDyn, DecDyn, ArriveDyn, EncNested, DecNested, ArriveNested, EncStrArray, DecStrArray, ArriveStrArray,
      RegistryOk;
    var n := Size(f.shape.count, vals, 0);
    assert f.shape.count in Counts(f.shape);
    match f.shape
    case Dyn(e, _) => DynTrip(reg, f, e, n, t, f.required && !driver, d, vals, v, rest);
    case Nested(e, _, inner) =>
      assert inner in Counts(f.shape);
      NestedTrip(reg, f, e, n, inner, f.required && !driver, d, vals, env, v, rest);
    case StrArray(_) => StrArrayTrip(f, n, f.required && !driver, vals, v, rest);
  }

  lemma {:induction false} StaticTrip(reg: Registry, e: Elem, n: nat, partial: bool, d: nat, v: Value, rest: Bytes)
    requires RegistryOk(reg) && ElemOk(reg, |reg|, e) && n < Base(8)
    requires EncStatic(reg, e, n, partial, v).Some?
    ensures DecStatic(reg, e, n, partial, d, EncStatic(reg, e, n, partial, v).value + rest)
         == Deliver(ArriveStatic(reg, e, partial, d, v), rest)
    decreases v, 1, 0
  {
    hide Get, Le, EncRun, DecRun, ArriveElems, Terminated, RegistryOk, ElemOk;
    var run := EncRun(reg, e, partial, v.elems).value;
    assert Le(8, n) + run + rest == Le(8, n) + (run + rest);
    GetPut(8, n, run + rest);
    RunTrip(reg, e, partial, d, v.elems, rest);
  }

  lemma {:induction false} PtrTrip(reg: Registry, e: Elem, t: Treatment, required: bool, d: nat, v: Value, rest: Bytes)
    requires RegistryOk(reg) && ElemOk(reg, |reg|, e)
    requires EncPtr(reg, e, t, v).Some?
    ensures DecPtr(reg, e, t, required, d, EncPtr(reg, e, t, v).value + rest)
         == Deliver(ArrivePtr(reg, e, t, required, d, v), rest)
    decreases v, 1, 0
  {
    hide Get, Le;
    Bases();
    if v == Null || t.Invalid? {
      GetPut(8, if v == Null then 0 else 1, rest);
    } else {
      var body := EncElem(reg, e, t.Partial?, v.target).value;
      assert Le(8, 1) + body + rest == Le(8, 1) + (body + rest);
      GetPut(8, 1, body + rest);
      ElemTrip(reg, e, t.Partial?, d, v.target, rest);
    }
  }

  lemma StrTrip(v: Value, rest: Bytes)
    requires EncStr(v).Some?
    ensures DecStr(EncStr(v).value + rest) == Some((if v.Text? then Cut(v) else Null, rest))
  {
    hide Get, GetString, Le, Pad;
    if v == Null {
      GetPut(8, 0, rest);
    } else {
      var body := Pad(v.bytes + [0]);
      assert PutString(v.bytes) + rest == Le(8, |v.bytes| + 1) + (body + rest);
      GetPut(8, |v.bytes| + 1, body + rest);
      GetPutString(v.bytes, rest);
    }
  }

  lemma StrArrayTrip(f: Field, n: nat, required: bool, vals: seq<Value>, v: Value, rest: Bytes)
    requires EncStrArray(f, n, vals, v).Some?
    ensures DecStrArray(n, required, EncStrArray(f, n, vals, v).value + rest)
         == Deliver(ArriveStrArray(f, n, required, vals, v), rest)
  {
    hide Presence, Le, Sent, EncStrings, DecStrings, CutAll;
    if Sent(f, vals, v) {
      var body := EncStrings(Elems(v)).value;
      assert Le(8, n) + body + rest == Le(8, n) + (body + rest);
      PresenceTrip(required, n, n, body + rest);
      StringsTrip(Elems(v), rest);
      assert n == 0 ==> body + rest == rest by { EmptyStrings(); }
    } else {
      PresenceTrip(required, n, 0, rest);
    }
  }

  lemma EmptyStrings()
    ensures EncStrings([]) == Some([])
  {
  }

  lemma {:induction false} DynTrip(reg: Registry, f: Field, e: Elem, n: nat, t: Treatment, required: bool,
                                   d: nat, vals: seq<Value>, v: Value, rest: Bytes)
    requires RegistryOk(reg) && ElemOk(reg, |reg|, e)
    requires EncDyn(reg, f, e, n, t, vals, v).Some?
    ensures DecDyn(reg, e, n, t, required, d, EncDyn(reg, f, e, n, t, vals, v).value + rest)
         == Deliver(ArriveDyn(reg, f, e, n, t, required, d, vals, v), rest)
    decreases v, 1, 0
  {
    hide EncDyn, DecDyn, ArriveDyn;
    if t.Invalid? || !Sent(f, vals, v) || WidthlessElem(reg, e, t) || n == 0 {
      DynMarkerTrip(reg, f, e, n, t, required, d, vals, v, rest);
    } else {
      DynRunTrip(reg, f, e, n, t, required, d, vals, v, rest);
    }
  }

  /** Nothing but the length travels. */
  lemma DynMarkerTrip(reg: Registry, f: Field, e: Elem, n: nat, t: Treatment, required: bool,
                      d: nat, vals: seq<Value>, v: Value, rest: Bytes)
    requires t.Invalid? || !Sent(f, vals, v) || WidthlessElem(reg, e, t) || n == 0
    requires EncDyn(reg, f, e, n, t, vals, v).Some?
    ensures DecDyn(reg, e, n, t, required, d, EncDyn(reg, f, e, n, t, vals, v).value + rest)
         == Deliver(ArriveDyn(reg, f, e, n, t, required, d, vals, v), rest)
  {
    hide Le, Presence, EncRun, DecRun, ArriveElems, Sent, WidthlessElem, Base;
    var m := if (if t.Invalid? then v != Null else Sent(f, vals, v) && WidthlessElem(reg, e, t)) then n else 0;
    assert EncDyn(reg, f, e, n, t, vals, v) == Some(Le(8, m)) && (m == 0 || n < Base(8));
    PresenceTrip(required, n, m, rest);
  }

  lemma {:induction false} DynRunTrip(reg: Registry, f: Field, e: Elem, n: nat, t: Treatment, required: bool,
                                      d: nat, vals: seq<Value>, v: Value, rest: Bytes)
    requires RegistryOk(reg) && ElemOk(reg, |reg|, e)
    requires !t.Invalid? && Sent(f, vals, v) && !WidthlessElem(reg, e, t) && n != 0
    requires EncDyn(reg, f, e, n, t, vals, v).Some?
    ensures DecDyn(reg, e, n, t, required, d, EncDyn(reg, f, e, n, t, vals, v).value + rest)
         == Deliver(ArriveDyn(reg, f, e, n, t, required, d, vals, v), rest)
    decreases v, 0
  {
    hide Le, Presence, EncRun, DecRun, ArriveElems, Sent, WidthlessElem, RegistryOk, ElemOk, Packed;
    var run := EncRun(reg, e, t.Partial?, v.elems).value;
    assert Le(8, n) + run + rest == Le(8, n) + (run + rest);
    PresenceTrip(required, n, n, run + rest);
    RunTrip(reg, e, t.Partial?, d, v.elems, rest);
    RunWide(reg, e, t, v.elems);
  }

  lemma PresenceTrip(required: bool, n: nat, m: nat, rest: Bytes)
    requires m == 0 || m == n < Base(8)
    ensures Presence(required, n, Le(8, m) + rest)
         == if m != 0 then Some((true, rest)) else if required && n != 0 then None else Some((false, rest))
  {
    GetPut(8, m, rest);
  }

  lemma RunWide(reg: Registry, e: Elem, t: Treatment, vs: seq<Value>)
    requires RegistryOk(reg) && ElemOk(reg, |reg|, e)
    requires EncRun(reg, e, t.Partial?, vs).Some?
    requires !WidthlessElem(reg, e, t)
    ensures Packed(e) || |EncRun(reg, e, t.Partial?, vs).value| >= GRANULE * |vs|
  {
    if !Packed(e) {
      ElemsWide(reg, e, t.Partial?, vs, 0);
    }
  }

  lemma {:induction false} NestedTrip(reg: Registry, f: Field, e: Elem, n: nat, inner: Count, required: bool,
                                      d: nat, vals: seq<Value>, env: seq<Value>, v: Value, rest: Bytes)
    requires RegistryOk(reg) && ElemOk(reg, |reg|, e)
    requires forall index: nat :: Size(inner, env, index) == Size(inner, vals, index)
    requires EncNested(reg, f, e, n, inner, vals, v).Some?
    ensures DecNested(reg, e, n, inner, required, d, env, EncNested(reg, f, e, n, inner, vals, v).value + rest)
         == Deliver(ArriveNested(reg, f, e, n, required, d, vals, v), rest)
    decreases v, 1, 0
  {
    hide Presence, Le, Sent, EncRows, DecRows, ArriveRows, RegistryOk, ElemOk;
    if !Sent(f, vals, v) || n == 0 {
      PresenceTrip(required, n, 0, rest);
    } else {
      var rows := EncRows(reg, e, inner, vals, v.elems, 0).value;
      assert Le(8, n) + rows + rest == Le(8, n) + (rows + rest);
      PresenceTrip(required, n, n, rows + rest);
      RowsTrip(reg, e, inner, vals, env, d, v.elems, 0, rest);
    }
  }

  lemma {:induction false} RowsTrip(reg: Registry, e: Elem, inner: Count, vals: seq<Value>, env: seq<Value>, d: nat,
                                    rows: seq<Value>, k: nat, rest: Bytes)
    requires RegistryOk(reg) && ElemOk(reg, |reg|, e) && k <= |rows|
    requires forall index: nat :: Size(inner, env, index) == Size(inner, vals, index)
    requires EncRows(reg, e, inner, vals, rows, k).Some?
    ensures DecRows(reg, e, inner, env, d, k, |rows|, EncRows(reg, e, inner, vals, rows, k).value + rest)
         == Deliver(ArriveRows(reg, e, d, rows, k), rest)
    ensures |EncRows(reg, e, inner, vals, rows, k).value| >= GRANULE * (|rows| - k)
    decreases rows, 0, |rows| - k
  {
    hide Get, Le, Size, EncElems, DecElems, ArriveElems, RegistryOk, ElemOk;
    if k == |rows| {
      assert [] + rest == rest;
    } else {
      var n := Size(inner, vals, k);
      var first := EncElems(reg, e, false, rows[k].elems, 0).value;
      var after := EncRows(reg, e, inner, vals, rows, k + 1).value;
      assert Le(8, n) + first + after + rest == Le(8, n) + (first + (after + rest));
      GetPut(8, n, first + (after + rest));
      ElemsWide(reg, e, false, rows[k].elems, 0);
      ElemsTrip(reg, e, false, d, rows[k].elems, 0, after + rest);
      RowsTrip(reg, e, inner, vals, env, d, rows, k + 1, rest);
    }
  }

  lemma {:induction false} RunTrip(reg: Registry, e: Elem, partial: bool, d: nat, vs: seq<Value>, rest: Bytes)
    requires RegistryOk(reg) && ElemOk(reg, |reg|, e)
    requires EncRun(reg, e, partial, vs).Some?
    ensures DecRun(reg, e, partial, d, |vs|, EncRun(reg, e, partial, vs).value + rest)
         == Deliver(ArriveElems(reg, e, partial, d, vs, 0), rest)
    decreases vs, 1
  {
    if Packed(e) {
      var packed := Pack(e.width, vs).value;
      GetPutBlob(packed, rest);
      PackTrip(e.width, vs);
      ScalarsArrive(reg, e, partial, d, vs, 0);
    } else {
      ElemsTrip(reg, e, partial, d, vs, 0, rest);
    }
  }

  lemma {:induction false} ElemsTrip(reg: Registry, e: Elem, partial: bool, d: nat, vs: seq<Value>, k: nat, rest: Bytes)
    requires RegistryOk(reg) && ElemOk(reg, |reg|, e) && k <= |vs|
    requires EncElems(reg, e, partial, vs, k).Some?
    ensures DecElems(reg, e, partial, d, |vs| - k, EncElems(reg, e, partial, vs, k).value + rest)
         == Deliver(ArriveElems(reg, e, partial, d, vs, k), rest)
    decreases vs, 0, |vs| - k
  {
    hide RegistryOk, ElemOk, EncElem, DecElem, ArriveElem;
    if k == |vs| {
      assert [] + rest == rest;
    } else {
      var first := EncElem(reg, e, partial, vs[k]).value;
      var after := EncElems(reg, e, partial, vs, k + 1).value;
      assert first + after + rest == first + (after + rest);
      ElemTrip(reg, e, partial, d, vs[k], after + rest);
      ElemsTrip(reg, e, partial, d, vs, k + 1, rest);
    }
  }
}
